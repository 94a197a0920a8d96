/** Values shared by the block chain modules. */
module ChainTypes {

  datatype Option<+T> = None | Some(value: T)

  newtype byte = x: int | 0 <= x < 256

  const ZEROES: seq<byte> :=
    [0, 0, 0, 0, 0, 0, 0, 0, 0, 0, 0, 0, 0, 0, 0, 0, 0, 0, 0, 0, 0, 0, 0, 0, 0, 0, 0, 0, 0, 0, 0, 0]

  /** A 32-byte double SHA-256. */
  type Hash = h: seq<byte> | |h| == 32 witness ZEROES

  type uint32 = x: int | 0 <= x < 0x1_0000_0000

  const MAX_INT32: int := 0x7fff_ffff

  /** Names an output of a transaction. */
  datatype OutPoint = OutPoint(hash: Hash, index: uint32)

  /** A block header; `prevBlock` names the parent by hash. */
  datatype Header = Header(version: int, prevBlock: Hash, merkleRoot: Hash, timestamp: int, bits: uint32, nonce: uint32)

  const ZERO_HASH: Hash := ZEROES

  /** The target a header's compact difficulty stands for. */
  function CompactToBig(bits: uint32): int {
    var mantissa := bits % 0x80_0000;
    var exponent := bits / 0x100_0000;
    var magnitude := if exponent <= 3 then DropBytes(mantissa, 3 - exponent) else AddBytes(mantissa, exponent - 3);
    if (bits / 0x80_0000) % 2 == 1 then -magnitude else magnitude
  }

  /** Shifts left by `k` bytes. */
  function AddBytes(n: nat, k: nat): (r: nat) {
    if k == 0 then n else 256 * AddBytes(n, k - 1)
  }

  /** Shifts right by `k` bytes. */
  function DropBytes(n: nat, k: nat): (r: nat) {
    if k == 0 then n else DropBytes(n, k - 1) / 256
  }

  /** The expected number of hashes behind a header: 2^256 / (target + 1), and none for a target that is not positive. */
  function CalcWork(bits: uint32): (work: nat) {
    var target := CompactToBig(bits);
    if target <= 0 then 0 else Quotient(AddBytes(1, 32), target + 1)
  }

  function Quotient(a: nat, b: nat): (q: nat)
    requires b > 0
  {
    a / b
  }
}
