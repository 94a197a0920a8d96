/** The compressed form of transaction outputs: an amount and a script, each with its own scheme. */
module Compress {
  import opened ChainTypes
  import Vlq

  // ---------------------------------------------------------------------------
  // Amounts
  // ---------------------------------------------------------------------------

  const MAX_SATOSHI: nat := 2_100_000_000_000_000

  function Pow10(e: nat): (p: nat)
    ensures p >= 1
  {
    if e == 0 then 1 else 10 * Pow10(e - 1)
  }

  /** Moves up to nine factors of ten from the amount into the exponent. */
  function StripZeros(amount: nat, e: nat): (r: (nat, nat))
    requires amount > 0 && e <= 9
    ensures r.0 > 0 && e <= r.1 <= 9 && (r.1 < 9 ==> r.0 % 10 != 0) && r.0 <= amount
    decreases 9 - e
  {
    if amount % 10 == 0 && e < 9 then StripZeros(amount / 10, e + 1) else (amount, e)
  }

  /** What is left of `n` once its last digit, known not to be zero below exponent nine, is folded in. */
  function Pack(n: nat, e: nat): (x: nat)
    requires n > 0 && (e < 9 ==> n % 10 != 0)
  {
    if e < 9 then 9 * (n / 10) + n % 10 - 1 else n - 1
  }

  function Unpack(x: nat, e: nat): (n: nat)
    ensures n > 0 && (e < 9 ==> n % 10 != 0)
  {
    if e < 9 then x / 9 * 10 + x % 9 + 1 else x + 1
  }

  function CompressAmount(amount: nat): (c: nat) {
    if amount == 0 then 0
    else
      var r := StripZeros(amount, 0);
      1 + 10 * Pack(r.0, r.1) + r.1
  }

  function DecompressAmount(c: nat): (amount: nat) {
    if c == 0 then 0 else Unpack((c - 1) / 10, (c - 1) % 10) * Pow10((c - 1) % 10)
  }

  lemma {:induction false} StripZerosValue(amount: nat, e: nat)
    requires amount > 0 && e <= 9
    ensures var r := StripZeros(amount, e); r.0 * Pow10(r.1) == amount * Pow10(e)
    decreases 9 - e
  {
    hide Pow10;
    if amount % 10 == 0 && e < 9 {
      var q := amount / 10;
      StripZerosValue(q, e + 1);
      MulTen(q, e);
      assert amount == 10 * q;
    }
  }

  lemma MulTen(q: nat, e: nat)
    ensures q * Pow10(e + 1) == (10 * q) * Pow10(e)
  {
    var p := Pow10(e);
    assert q * (10 * p) == (10 * q) * p;
  }

  lemma PowZero(n: nat)
    ensures n * Pow10(0) == n
  {
  }

  /** Decompression undoes compression, for every amount. */
  lemma DecompressCompress(amount: nat)
    ensures DecompressAmount(CompressAmount(amount)) == amount
  {
    hide Pow10, StripZeros, Pack, Unpack;
    if amount > 0 {
      StripZerosValue(amount, 0);
      PowZero(amount);
      var r := StripZeros(amount, 0);
      UnpackPack(r.0, r.1);
      Split(Pack(r.0, r.1), r.1);
    }
  }

  /** No compressed value is wasted: each one is the compression of the amount it stands for. */
  lemma CompressDecompress(c: nat)
    ensures CompressAmount(DecompressAmount(c)) == c
  {
    hide Pow10, StripZeros, Pack, Unpack;
    if c > 0 {
      var e, x := (c - 1) % 10, (c - 1) / 10;
      StripScaled(Unpack(x, e), e, 0);
      PackUnpack(x, e);
      PowPositive(Unpack(x, e), e);
    }
  }

  lemma UnpackPack(n: nat, e: nat)
    requires n > 0 && (e < 9 ==> n % 10 != 0)
    ensures Unpack(Pack(n, e), e) == n
  {
    if e < 9 {
      var x := Pack(n, e);
      assert x / 9 == n / 10 && x % 9 == n % 10 - 1;
    }
  }

  lemma PackUnpack(x: nat, e: nat)
    ensures Pack(Unpack(x, e), e) == x
  {
    if e < 9 {
      var n := Unpack(x, e);
      assert n / 10 == x / 9 && n % 10 == x % 9 + 1;
    }
  }

  lemma Split(x: nat, e: nat)
    requires e <= 9
    ensures (10 * x + e) / 10 == x && (10 * x + e) % 10 == e
  {
  }

  lemma PowPositive(n: nat, e: nat)
    requires n > 0
    ensures n * Pow10(e) > 0
  {
  }

  /** Stripping finds exactly the factors of ten that were multiplied in. */
  lemma {:induction false} StripScaled(n: nat, e: nat, k: nat)
    requires n > 0 && k <= e <= 9 && (e < 9 ==> n % 10 != 0)
    ensures n * Pow10(e - k) > 0 && StripZeros(n * Pow10(e - k), k) == (n, e)
    decreases e - k
  {
    hide Pow10, StripZeros;
    if k == e {
      PowZero(n);
      StripStops(n, e);
    } else {
      StripScaled(n, e, k + 1);
      MulTenOut(n, e - k - 1);
      StripTen(n * Pow10(e - k - 1), k);
    }
  }

  lemma StripTen(m: nat, k: nat)
    requires m > 0 && k < 9
    ensures StripZeros(10 * m, k) == StripZeros(m, k + 1)
  {
  }

  lemma StripStops(n: nat, e: nat)
    requires n > 0 && e <= 9 && (e < 9 ==> n % 10 != 0)
    ensures StripZeros(n, e) == (n, e)
  {
  }

  lemma MulTenOut(n: nat, e: nat)
    ensures n * Pow10(e + 1) == 10 * (n * Pow10(e))
  {
    var p := Pow10(e);
    assert n * (10 * p) == 10 * (n * p);
  }

  lemma CompressedAmountFits(amount: nat)
    requires amount <= MAX_SATOSHI
    ensures CompressAmount(amount) < Vlq.TWO_64
    ensures CompressAmount(amount) % Vlq.TWO_64 == CompressAmount(amount)
  {
  }

  /** The code of `compressTxOutAmount`; 64-bit wrap-around cannot be reached by real amounts. */
  method CompressTxOutAmount(amount: nat) returns (c: nat)
    requires amount < Vlq.TWO_64
    ensures c == CompressAmount(amount) % Vlq.TWO_64
  {
    hide StripZeros;
    if amount == 0 {
      return 0;
    }
    var n, exponent := amount, 0;
    while n % 10 == 0 && exponent < 9
      invariant n > 0 && 0 <= exponent <= 9 && StripZeros(n, exponent) == StripZeros(amount, 0)
      decreases 9 - exponent
    {
      StripTen(n / 10, exponent);
      n := n / 10;
      exponent := exponent + 1;
    }
    StripStops(n, exponent);
    c := if exponent < 9 then 1 + 10 * (9 * (n / 10) + n % 10 - 1) + exponent else 10 + 10 * (n - 1);
    assert c == CompressAmount(amount);
    c := c % Vlq.TWO_64;
  }

  /** The code of `decompressTxOutAmount`. */
  method DecompressTxOutAmount(c: nat) returns (amount: nat)
    requires c < Vlq.TWO_64
    ensures amount == DecompressAmount(c) % Vlq.TWO_64
  {
    hide Unpack, Pow10;
    if c == 0 {
      return 0;
    }
    var exponent, x := (c - 1) % 10, (c - 1) / 10;
    var n := RestoreDigits(x, exponent);
    var scaled := ApplyExponent(n, exponent);
    return scaled % Vlq.TWO_64;
  }

  method RestoreDigits(x: nat, exponent: nat) returns (n: nat)
    requires exponent <= 9
    ensures n == Unpack(x, exponent)
  {
    if exponent < 9 {
      var lastDigit := x % 9 + 1;
      n := x / 9 * 10 + lastDigit;
    } else {
      n := x + 1;
    }
  }

  method ApplyExponent(n: nat, exponent: nat) returns (r: nat)
    ensures r == n * Pow10(exponent)
  {
    hide Pow10;
    r := n;
    var left := exponent;
    while left > 0
      invariant left >= 0 && r * Pow10(left) == n * Pow10(exponent)
      decreases left
    {
      MulTen(r, left - 1);
      r := 10 * r;
      left := left - 1;
    }
    PowZero(r);
  }

  // ---------------------------------------------------------------------------
  // Scripts
  // ---------------------------------------------------------------------------

  /**
   The two facts about public keys that the scheme relies on: which serialized keys parse,
   and the 65-byte form of a 33-byte key.
   */
  datatype Curve = Curve(parses: seq<byte> -> bool, uncompressed: seq<byte> -> seq<byte>)
  {
    /** A valid 65-byte key can be recovered from its x coordinate and the oddness of y. */
    ghost predicate Sound() {
      forall key: seq<byte> :: |key| == 65 && key[0] == 4 && parses(key) ==>
        parses(ShortKey(key)) && uncompressed(ShortKey(key)) == key
    }
  }

  function ShortKey(key: seq<byte>): (short: seq<byte>)
    requires |key| == 65
    ensures |short| == 33
  {
    [2 + key[64] % 2] + key[1..33]
  }

  const OP_DATA_20: byte := 0x14
  const OP_DATA_33: byte := 0x21
  const OP_DATA_65: byte := 0x41
  const OP_DUP: byte := 0x76
  const OP_EQUAL: byte := 0x87
  const OP_EQUALVERIFY: byte := 0x88
  const OP_HASH160: byte := 0xa9
  const OP_CHECKSIG: byte := 0xac
  const NUM_SPECIAL_SCRIPTS: nat := 6

  /** A length no byte slice reaches; it keeps the signed sizes below from wrapping. */
  const MAX_SCRIPT: nat := 0x1000_0000_0000_0000

  predicate IsPubKeyHash(s: seq<byte>) {
    |s| == 25 && s[0] == OP_DUP && s[1] == OP_HASH160 && s[2] == OP_DATA_20 && s[23] == OP_EQUALVERIFY && s[24] == OP_CHECKSIG
  }

  predicate IsScriptHash(s: seq<byte>) {
    |s| == 23 && s[0] == OP_HASH160 && s[1] == OP_DATA_20 && s[22] == OP_EQUAL
  }

  predicate IsShortPubKey(c: Curve, s: seq<byte>) {
    |s| == 35 && s[0] == OP_DATA_33 && s[34] == OP_CHECKSIG && (s[1] == 2 || s[1] == 3) && c.parses(s[1..34])
  }

  predicate IsLongPubKey(c: Curve, s: seq<byte>) {
    |s| == 67 && s[0] == OP_DATA_65 && s[66] == OP_CHECKSIG && s[1] == 4 && c.parses(s[1..66])
  }

  /** The bytes `putCompressedScript` writes. */
  function CompressScript(c: Curve, s: seq<byte>): (r: seq<byte>)
    ensures |r| > 0
  {
    if IsPubKeyHash(s) then [0] + s[3..23]
    else if IsScriptHash(s) then [1] + s[2..22]
    else if IsShortPubKey(c, s) then [s[1]] + s[2..34]
    else if IsLongPubKey(c, s) then [4 + s[65] % 2] + s[2..34]
    else Vlq.Encode(|s| + NUM_SPECIAL_SCRIPTS) + s
  }

  /** Size of a compressed script that other data may follow, as a signed 64-bit integer. */
  function DecodeScriptSize(serialized: seq<byte>): (size: int) {
    var (scriptSize, bytesRead) := Vlq.Decode(serialized);
    if bytesRead == 0 then 0
    else if scriptSize <= 1 then 21
    else if scriptSize <= 5 then 33
    else AsInt64((scriptSize - NUM_SPECIAL_SCRIPTS + bytesRead) % Vlq.TWO_64)
  }

  function AsInt64(x: nat): int {
    if x < Vlq.TWO_64 / 2 then x else x - Vlq.TWO_64
  }

  /** `r` is as long as it says, and no length in it wrapped around 64 bits. */
  predicate WellFramed(r: seq<byte>) {
    DecodeScriptSize(r) == |r| && (Vlq.Decode(r).0 < NUM_SPECIAL_SCRIPTS ==> Vlq.Decode(r).1 <= 1)
  }

  /** Rebuilds a script from exactly its compressed bytes. */
  function DecompressScript(c: Curve, r: seq<byte>): (s: seq<byte>)
    requires WellFramed(r)
  {
    if r == [] then []
    else
      var (code, bytesRead) := Vlq.Decode(r);
      ReadSome(r);
      if code == 0 then [OP_DUP, OP_HASH160, OP_DATA_20] + r[1..21] + [OP_EQUALVERIFY, OP_CHECKSIG]
      else if code == 1 then [OP_HASH160, OP_DATA_20] + r[1..21] + [OP_EQUAL]
      else if code <= 3 then [OP_DATA_33, code as byte] + r[1..33] + [OP_CHECKSIG]
      else if code <= 5 then
        var key := [(code - 2) as byte] + r[1..33];
        if c.parses(key) then [OP_DATA_65] + c.uncompressed(key) + [OP_CHECKSIG] else []
      else r[bytesRead..]
  }

  lemma ReadSome(r: seq<byte>)
    requires r != []
    ensures Vlq.Decode(r).1 > 0
  {
  }

  /** A compressed script is measured and rebuilt correctly, whatever follows it. */
  lemma DecompressCompressScript(c: Curve, s: seq<byte>, rest: seq<byte>)
    requires c.Sound() && |s| < MAX_SCRIPT
    ensures DecodeScriptSize(CompressScript(c, s) + rest) == |CompressScript(c, s)|
    ensures WellFramed(CompressScript(c, s))
    ensures DecompressScript(c, CompressScript(c, s)) == s
  {
    hide Vlq.Encode, Vlq.Decode, DecodeScriptSize, WellFramed, DecompressScript, Curve.Sound;
    var r := CompressScript(c, s);
    if IsPubKeyHash(s) || IsScriptHash(s) || IsShortPubKey(c, s) {
      TaggedFrame(r, rest);
      TaggedBack(c, s);
    } else if IsLongPubKey(c, s) {
      TaggedFrame(r, rest);
      LongKeyBack(c, s);
    } else {
      PlainFrame(s, rest);
      PlainBack(c, s);
    }
  }

  lemma TaggedBack(c: Curve, s: seq<byte>)
    requires IsPubKeyHash(s) || IsScriptHash(s) || IsShortPubKey(c, s)
    ensures WellFramed(CompressScript(c, s)) && DecompressScript(c, CompressScript(c, s)) == s
  {
    hide Vlq.Decode, WellFramed;
    var r := CompressScript(c, s);
    TaggedFrame(r, []);
    if IsPubKeyHash(s) {
      Middle(r, 1, s[3..23]);
      Wrap(s, [OP_DUP, OP_HASH160, OP_DATA_20], [OP_EQUALVERIFY, OP_CHECKSIG]);
    } else if IsScriptHash(s) {
      Middle(r, 1, s[2..22]);
      Wrap(s, [OP_HASH160, OP_DATA_20], [OP_EQUAL]);
    } else {
      Middle(r, 1, s[2..34]);
      Wrap(s, [OP_DATA_33, s[1]], [OP_CHECKSIG]);
    }
  }

  lemma Middle(r: seq<byte>, n: nat, data: seq<byte>)
    requires |r| == n + |data| && r[n..] == data
    ensures r[n..n + |data|] == data
  {
  }

  lemma Wrap(s: seq<byte>, head: seq<byte>, tail: seq<byte>)
    requires |head| + |tail| <= |s| && s[..|head|] == head && s[|s| - |tail|..] == tail
    ensures s == head + s[|head|..|s| - |tail|] + tail
  {
  }

  lemma PlainBack(c: Curve, s: seq<byte>)
    requires |s| < MAX_SCRIPT && !IsPubKeyHash(s) && !IsScriptHash(s) && !IsShortPubKey(c, s) && !IsLongPubKey(c, s)
    ensures WellFramed(CompressScript(c, s)) && DecompressScript(c, CompressScript(c, s)) == s
  {
    hide Vlq.Encode, Vlq.Decode, WellFramed, IsPubKeyHash, IsScriptHash, IsShortPubKey, IsLongPubKey;
    PlainFrame(s, []);
  }

  /** Scripts of the special kinds are framed by their first byte alone. */
  lemma TaggedFrame(r: seq<byte>, rest: seq<byte>)
    requires r != [] && r[0] < 6 && |r| == if r[0] <= 1 then 21 else 33
    ensures DecodeScriptSize(r + rest) == |r| && WellFramed(r)
    ensures Vlq.Decode(r) == (r[0] as int, 1)
  {
    hide Vlq.Decode;
    assert r + [] == r;
    FirstByte(r, rest);
    FirstByte(r, []);
  }

  /** Other scripts are framed by their length. */
  lemma PlainFrame(s: seq<byte>, rest: seq<byte>)
    requires |s| < MAX_SCRIPT
    ensures var r := Vlq.Encode(|s| + NUM_SPECIAL_SCRIPTS) + s;
      && DecodeScriptSize(r + rest) == |r| && WellFramed(r)
      && Vlq.Decode(r) == (|s| + NUM_SPECIAL_SCRIPTS, |r| - |s|)
  {
    hide Vlq.Encode, Vlq.Decode;
    Vlq.EncodeIsShort(|s| + NUM_SPECIAL_SCRIPTS);
    Vlq.DecodeEncode(|s| + NUM_SPECIAL_SCRIPTS, s + rest);
    Vlq.DecodeEncode(|s| + NUM_SPECIAL_SCRIPTS, s);
    Vlq.Assoc(Vlq.Encode(|s| + NUM_SPECIAL_SCRIPTS), s, rest);
  }

  lemma LongKeyBack(c: Curve, s: seq<byte>)
    requires c.Sound() && IsLongPubKey(c, s)
    ensures WellFramed(CompressScript(c, s)) && DecompressScript(c, CompressScript(c, s)) == s
  {
    hide Vlq.Decode, WellFramed;
    var r, key := CompressScript(c, s), s[1..66];
    TaggedFrame(r, []);
    Inside(s, 1, 66, 1, 33);
    assert ShortKey(key) == [2 + s[65] % 2] + s[2..34];
    assert [((r[0] as int) - 2) as byte] + r[1..33] == ShortKey(key);
    Wrap(s, [OP_DATA_65], [OP_CHECKSIG]);
  }

  lemma Inside(s: seq<byte>, a: nat, b: nat, i: nat, j: nat)
    requires a <= b <= |s| && i <= j <= b - a
    ensures s[a..b][i..j] == s[a + i..a + j]
  {
    var x, y := s[a..b][i..j], s[a + i..a + j];
    forall k | 0 <= k < j - i ensures x[k] == y[k] {
      assert x[k] == s[a..b][i + k] == s[a + i + k];
    }
    assert x == y;
  }

  /** A first byte below 128 is a number of its own. */
  lemma FirstByte(r: seq<byte>, rest: seq<byte>)
    requires r != [] && r[0] < 128
    ensures Vlq.Decode(r + rest) == (r[0] as int, 1)
  {
    var n := r[0] as int;
    Vlq.DecodeEncode(n, r[1..] + rest);
    assert Vlq.Encode(n) + (r[1..] + rest) == r + rest;
  }

  /** A stand-in curve whose y coordinate is its oddness alone; it shows that `Sound` can be met. */
  function ToyCurve(): (c: Curve) {
    Curve(
      (key: seq<byte>) => |key| == 33 || (|key| == 65 && key == ToyUncompressed(ShortKey(key))),
      (key: seq<byte>) => ToyUncompressed(key))
  }

  function ToyUncompressed(key: seq<byte>): (long: seq<byte>) {
    if |key| != 33 || key[0] < 2 then [] else [4] + key[1..] + ZEROES[..31] + [(key[0] - 2) % 2]
  }

  lemma ToyCurveIsSound()
    ensures ToyCurve().Sound()
    ensures exists key :: |key| == 65 && key[0] == 4 && ToyCurve().parses(key)
  {
    var key: seq<byte> := [4] + ZEROES + ZEROES;
    assert ToyUncompressed(ShortKey(key)) == key;
    assert ToyCurve().parses(key);
  }

  // ---------------------------------------------------------------------------
  // Transaction outputs
  // ---------------------------------------------------------------------------

  /**
   What a decoder yields: a value and the bytes it took, or an error after some bytes. `Wrapped`
   stands for whatever happens after a length that overflows 64 bits.
   */
  datatype Decoded<+T> = Ok(value: T, read: nat) | Corrupt(read: nat) | Wrapped

  /** The compressed amount, as far as it fits 64 bits, and the compressed script. */
  function EncodeTxOut(c: Curve, amount: nat, script: seq<byte>): (r: seq<byte>)
    ensures |r| > 0
  {
    Vlq.Encode(CompressAmount(amount) % Vlq.TWO_64) + CompressScript(c, script)
  }

  function DecodeTxOut(c: Curve, serialized: seq<byte>): (r: Decoded<(nat, seq<byte>)>) {
    var (compressedAmount, bytesRead) := Vlq.Decode(serialized);
    if bytesRead >= |serialized| then Corrupt(bytesRead)
    else
      var scriptSize := DecodeScriptSize(serialized[bytesRead..]);
      if |serialized| - bytesRead < scriptSize then Corrupt(bytesRead)
      else if scriptSize < 0 || !WellFramed(serialized[bytesRead..bytesRead + scriptSize]) then Wrapped
      else
        Ok((DecompressAmount(compressedAmount) % Vlq.TWO_64,
            DecompressScript(c, serialized[bytesRead..bytesRead + scriptSize])), bytesRead + scriptSize)
  }

  /** The output comes back, with its amount if the compressed amount fits 64 bits, as all real ones do. */
  lemma DecodeEncodeTxOut(c: Curve, amount: nat, script: seq<byte>, rest: seq<byte>)
    requires c.Sound() && amount < Vlq.TWO_64 && |script| < MAX_SCRIPT
    ensures var read := DecodeTxOut(c, EncodeTxOut(c, amount, script) + rest);
      && read.Ok? && read.value.1 == script && read.read == |EncodeTxOut(c, amount, script)|
      && (CompressAmount(amount) < Vlq.TWO_64 ==> read.value.0 == amount)
      && (amount <= MAX_SATOSHI ==> read.value.0 == amount)
  {
    hide Vlq.Encode, Vlq.Decode, CompressAmount, DecompressAmount, CompressScript, DecompressScript, DecodeScriptSize, WellFramed;
    var compressed := CompressAmount(amount) % Vlq.TWO_64;
    var head, tail := Vlq.Encode(compressed), CompressScript(c, script);
    if amount <= MAX_SATOSHI { CompressedAmountFits(amount); }
    DecompressCompress(amount);
    Vlq.DecodeEncode(compressed, tail + rest);
    Vlq.Assoc(head, tail, rest);
    DecompressCompressScript(c, script, rest);
    var all := head + (tail + rest);
    assert all[|head|..] == tail + rest;
    assert all[|head|..|head| + |tail|] == tail;
  }

  // ---------------------------------------------------------------------------
  // Writing into a buffer
  // ---------------------------------------------------------------------------

  method CompressedScriptSize(c: Curve, s: seq<byte>) returns (size: nat)
    requires |s| < MAX_SCRIPT
    ensures size == |CompressScript(c, s)|
  {
    if IsPubKeyHash(s) || IsScriptHash(s) {
      return 21;
    }
    if IsShortPubKey(c, s) || IsLongPubKey(c, s) {
      return 33;
    }
    size := Vlq.SerializeSize(|s| + NUM_SPECIAL_SCRIPTS);
    size := size + |s|;
  }

  method PutCompressedScript(c: Curve, target: array<byte>, off: nat, s: seq<byte>) returns (size: nat)
    requires |s| < MAX_SCRIPT && off + |CompressScript(c, s)| <= target.Length
    modifies target
    ensures size == |CompressScript(c, s)|
    ensures target[..] == Vlq.Overwrite(old(target[..]), off, CompressScript(c, s))
  {
    hide Vlq.Encode, Vlq.Overwrite;
    if IsPubKeyHash(s) {
      size := PutTagged(target, off, 0, s[3..23]);
    } else if IsScriptHash(s) {
      size := PutTagged(target, off, 1, s[2..22]);
    } else if IsShortPubKey(c, s) {
      size := PutTagged(target, off, s[1], s[2..34]);
    } else if IsLongPubKey(c, s) {
      size := PutTagged(target, off, 4 + s[65] % 2, s[2..34]);
    } else {
      size := PutPlain(target, off, s);
    }
  }

  method PutPlain(target: array<byte>, off: nat, s: seq<byte>) returns (size: nat)
    requires |s| < MAX_SCRIPT && off + |Vlq.Encode(|s| + NUM_SPECIAL_SCRIPTS) + s| <= target.Length
    modifies target
    ensures size == |Vlq.Encode(|s| + NUM_SPECIAL_SCRIPTS) + s|
    ensures target[..] == Vlq.Overwrite(old(target[..]), off, Vlq.Encode(|s| + NUM_SPECIAL_SCRIPTS) + s)
  {
    hide Vlq.Encode, Vlq.Overwrite;
    ghost var was := target[..];
    var sizeLen := Vlq.Put(target, off, |s| + NUM_SPECIAL_SCRIPTS);
    Vlq.CopyInto(target, off + sizeLen, s);
    Vlq.OverwriteTwice(was, off, Vlq.Encode(|s| + NUM_SPECIAL_SCRIPTS), s);
    size := sizeLen + |s|;
  }

  method PutTagged(target: array<byte>, off: nat, tag: byte, data: seq<byte>) returns (size: nat)
    requires off + 1 + |data| <= target.Length
    modifies target
    ensures size == 1 + |data|
    ensures target[..] == Vlq.Overwrite(old(target[..]), off, [tag] + data)
  {
    ghost var was := target[..];
    target[off] := tag;
    assert target[..] == Vlq.Overwrite(was, off, [tag]);
    Vlq.CopyInto(target, off + 1, data);
    Vlq.OverwriteTwice(was, off, [tag], data);
    return 1 + |data|;
  }

  method CompressedTxOutSize(c: Curve, amount: nat, script: seq<byte>) returns (size: nat)
    requires amount < Vlq.TWO_64 && |script| < MAX_SCRIPT
    ensures size == |EncodeTxOut(c, amount, script)|
  {
    var compressed := CompressTxOutAmount(amount);
    var head := Vlq.SerializeSize(compressed);
    var tail := CompressedScriptSize(c, script);
    return head + tail;
  }

  method PutCompressedTxOut(c: Curve, target: array<byte>, off: nat, amount: nat, script: seq<byte>) returns (size: nat)
    requires amount < Vlq.TWO_64 && |script| < MAX_SCRIPT && off + |EncodeTxOut(c, amount, script)| <= target.Length
    modifies target
    ensures size == |EncodeTxOut(c, amount, script)|
    ensures target[..] == Vlq.Overwrite(old(target[..]), off, EncodeTxOut(c, amount, script))
  {
    hide Vlq.Encode, Vlq.Overwrite, CompressScript, CompressAmount;
    ghost var was := target[..];
    var compressed := CompressTxOutAmount(amount);
    var offset := Vlq.Put(target, off, compressed);
    var tail := PutCompressedScript(c, target, off + offset, script);
    Vlq.OverwriteTwice(was, off, Vlq.Encode(compressed), CompressScript(c, script));
    return offset + tail;
  }
}
