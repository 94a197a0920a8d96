/** Variable length quantities: base 128, most significant group first, with no redundant encodings. */
module Vlq {
  import opened ChainTypes

  const TWO_64: nat := 0x1_0000_0000_0000_0000

  // ---------------------------------------------------------------------------
  // The format
  // ---------------------------------------------------------------------------

  /** Encoding of a number that is followed by more bytes: the high bit of each byte is set. */
  function EncodeMore(n: nat): (bytes: seq<byte>)
    ensures |bytes| > 0
  {
    if n <= 127 then [(128 + n) as byte] else EncodeMore(n / 128 - 1) + [(128 + n % 128) as byte]
  }

  function Encode(n: nat): (bytes: seq<byte>)
    ensures |bytes| > 0
  {
    if n <= 127 then [n as byte] else EncodeMore(n / 128 - 1) + [(n % 128) as byte]
  }

  /** The value and the number of bytes read; stops after the first byte whose high bit is clear. */
  function DecodeFrom(acc: nat, s: seq<byte>): (r: (nat, nat))
    ensures r.1 <= |s|
    decreases |s|
  {
    if s == [] then (acc, 0)
    else
      var n := (acc * 128 + (s[0] as int) % 128) % TWO_64;
      if s[0] < 128 then (n, 1)
      else var rest := DecodeFrom((n + 1) % TWO_64, s[1..]); (rest.0, rest.1 + 1)
  }

  function Decode(s: seq<byte>): (r: (nat, nat))
    ensures r.1 <= |s|
  {
    DecodeFrom(0, s)
  }

  /** Reading one byte of a number that fits 64 bits. */
  lemma DecodeByte(acc: nat, digit: nat, more: bool, t: seq<byte>)
    requires digit < 128 && acc * 128 + digit + 1 < TWO_64 + (if more then 0 else 1)
    ensures var b := (if more then 128 + digit else digit) as byte;
            DecodeFrom(acc, [b] + t) ==
            if more then (DecodeFrom(acc * 128 + digit + 1, t).0, DecodeFrom(acc * 128 + digit + 1, t).1 + 1)
            else (acc * 128 + digit, 1)
  {
    var b := (if more then 128 + digit else digit) as byte;
    assert ([b] + t)[1..] == t;
    assert (b as int) % 128 == digit;
  }

  lemma {:induction false} DecodeMore(m: nat, t: seq<byte>)
    requires m + 1 < TWO_64
    ensures DecodeFrom(0, EncodeMore(m) + t) == (DecodeFrom(m + 1, t).0, DecodeFrom(m + 1, t).1 + |EncodeMore(m)|)
  {
    hide DecodeFrom;
    if m <= 127 {
      DecodeByte(0, m, true, t);
    } else {
      var m', last := m / 128 - 1, [(128 + m % 128) as byte];
      DecodeMore(m', last + t);
      DecodeByte(m' + 1, m % 128, true, t);
      Assoc(EncodeMore(m'), last, t);
    }
  }

  /** Whatever follows, a number is read back with exactly the bytes it was written in. */
  lemma DecodeEncode(n: nat, rest: seq<byte>)
    requires n < TWO_64
    ensures Decode(Encode(n) + rest) == (n, |Encode(n)|)
  {
    hide DecodeFrom;
    if n <= 127 {
      DecodeByte(0, n, false, rest);
    } else {
      var m, last := n / 128 - 1, [(n % 128) as byte];
      DecodeMore(m, last + rest);
      DecodeByte(m + 1, n % 128, false, rest);
      Assoc(EncodeMore(m), last, rest);
    }
  }

  /** Bytes that all announce another byte are the start of an encoding. */
  lemma {:induction false} EveryStartIsUsed(s: seq<byte>) returns (m: nat)
    requires s != [] && forall i :: 0 <= i < |s| ==> s[i] >= 128
    ensures EncodeMore(m) == s
  {
    var b := s[|s| - 1] as int - 128;
    if |s| == 1 {
      m := b;
    } else {
      var high := EveryStartIsUsed(s[..|s| - 1]);
      m := (high + 1) * 128 + b;
      assert m / 128 - 1 == high && m % 128 == b;
    }
  }

  /** Every complete byte string encodes a number; with `DecodeEncode`, numbers and complete strings match one to one. */
  lemma EveryStringIsUsed(s: seq<byte>) returns (n: nat)
    requires Complete(s)
    ensures Encode(n) == s
  {
    var b := s[|s| - 1] as int;
    if |s| == 1 {
      n := b;
    } else {
      var high := EveryStartIsUsed(s[..|s| - 1]);
      n := (high + 1) * 128 + b;
      assert n / 128 - 1 == high && n % 128 == b;
    }
  }

  /** Only the last byte has its high bit clear. */
  predicate Complete(s: seq<byte>) {
    s != [] && s[|s| - 1] < 128 && forall i :: 0 <= i < |s| - 1 ==> s[i] >= 128
  }

  lemma {:induction false} MoreStaysOpen(m: nat)
    ensures forall i :: 0 <= i < |EncodeMore(m)| ==> EncodeMore(m)[i] >= 128
  {
    if m > 127 {
      MoreStaysOpen(m / 128 - 1);
    }
  }

  lemma EncodeIsComplete(n: nat)
    ensures Complete(Encode(n))
  {
    if n > 127 {
      MoreStaysOpen(n / 128 - 1);
    }
  }

  lemma {:induction false} MoreIsShort(m: nat)
    ensures |EncodeMore(m)| <= m + 1
  {
    if m > 127 {
      MoreIsShort(m / 128 - 1);
    }
  }

  lemma EncodeIsShort(n: nat)
    ensures |Encode(n)| <= n + 1
  {
    if n > 127 {
      MoreIsShort(n / 128 - 1);
    }
  }

  // ---------------------------------------------------------------------------
  // The code
  // ---------------------------------------------------------------------------

  /** Counts the bytes of an encoding. */
  method SerializeSize(n: nat) returns (size: nat)
    requires n < TWO_64
    ensures size == |Encode(n)|
  {
    size := 1;
    var m := n;
    while m > 127
      invariant size + |EncodeMore(m)| == |Encode(n)| + 1
      decreases m
    {
      m := m / 128 - 1;
      size := size + 1;
    }
  }

  /** Reads a number from the front of `serialized`. */
  method Deserialize(serialized: seq<byte>) returns (n: nat, size: nat)
    ensures (n, size) == Decode(serialized)
  {
    n, size := 0, 0;
    while size < |serialized|
      invariant size <= |serialized|
      invariant Decode(serialized) == var rest := DecodeFrom(n, serialized[size..]); (rest.0, rest.1 + size)
    {
      var val := serialized[size];
      size := size + 1;
      n := (n * 128 + (val as int) % 128) % TWO_64;
      if val < 128 {
        break;
      }
      n := (n + 1) % TWO_64;
    }
  }

  function Reverse(s: seq<byte>): (r: seq<byte>)
    ensures |r| == |s|
  {
    if s == [] then [] else [s[|s| - 1]] + Reverse(s[..|s| - 1])
  }

  lemma {:induction false} ReverseAt(s: seq<byte>, i: nat)
    requires i < |s|
    ensures Reverse(s)[i] == s[|s| - 1 - i]
  {
    if i > 0 { ReverseAt(s[..|s| - 1], i - 1); }
  }

  /** Reverses `target[off..off + len]` in place. */
  method ReverseInPlace(target: array<byte>, off: nat, len: nat)
    requires off + len <= target.Length
    modifies target
    ensures target[..] == Overwrite(old(target[..]), off, Reverse(old(target[..])[off..off + len]))
  {
    hide Overwrite, Reverse;
    ghost var was := target[..];
    SwapEnds(target, off, len);
    Swapped(was, target[..], off, len);
  }

  lemma Swapped(was: seq<byte>, now: seq<byte>, off: nat, len: nat)
    requires |was| == |now| && off + len <= |was|
    requires forall k :: 0 <= k < |was| ==> now[k] == was[if off <= k < off + len then 2 * off + len - 1 - k else k]
    ensures now == Overwrite(was, off, Reverse(was[off..off + len]))
  {
    hide Reverse;
    var part := was[off..off + len];
    forall k | 0 <= k < len ensures now[off + k] == Reverse(part)[k] {
      ReverseAt(part, k);
    }
    assert now[off..off + len] == Reverse(part);
    assert now[..off] == was[..off] && now[off + len..] == was[off + len..];
  }

  /** Swaps bytes from both ends inwards. */
  method SwapEnds(target: array<byte>, off: nat, len: nat)
    requires off + len <= target.Length
    modifies target
    ensures forall k :: 0 <= k < target.Length ==> target[..][k] == old(target[..])[if off <= k < off + len then 2 * off + len - 1 - k else k]
  {
    ghost var was := target[..];
    ghost var mirror := 2 * off + len - 1;
    var i, j := off, off + len;
    while i + 1 < j
      invariant off <= i <= j <= off + len && i + j == mirror + 1
      invariant forall k :: 0 <= k < target.Length && (k < off || i <= k < j || off + len <= k) ==> target[k] == was[k]
      invariant forall k :: off <= k < off + len && !(i <= k < j) ==> target[k] == was[mirror - k]
    {
      target[i], target[j - 1] := target[j - 1], target[i];
      i, j := i + 1, j - 1;
    }
  }

  /** The bytes of `target` after `data` has been written over it at `off`. */
  function Overwrite(target: seq<byte>, off: nat, data: seq<byte>): (r: seq<byte>)
    requires off + |data| <= |target|
    ensures |r| == |target|
    ensures r[off..off + |data|] == data && r[..off] == target[..off] && r[off + |data|..] == target[off + |data|..]
  {
    target[..off] + data + target[off + |data|..]
  }

  lemma OverwriteNothing(target: seq<byte>, off: nat)
    requires off <= |target|
    ensures Overwrite(target, off, []) == target
  {
  }

  lemma OverwriteTwice(target: seq<byte>, off: nat, a: seq<byte>, b: seq<byte>)
    requires off + |a| + |b| <= |target|
    ensures Overwrite(Overwrite(target, off, a), off + |a|, b) == Overwrite(target, off, a + b)
  {
  }

  lemma OverwriteMore(target: seq<byte>, off: nat, data: seq<byte>, b: byte)
    requires off + |data| < |target|
    ensures Overwrite(target, off, data)[off + |data| := b] == Overwrite(target, off, data + [b])
  {
  }

  lemma OverwriteAgain(target: seq<byte>, off: nat, a: seq<byte>, b: seq<byte>)
    requires off + |a| <= |target| && |b| == |a|
    ensures Overwrite(Overwrite(target, off, a), off, b) == Overwrite(target, off, b)
  {
  }

  /** Copies `data` into `target` from `off` on. */
  method CopyInto(target: array<byte>, off: nat, data: seq<byte>)
    requires off + |data| <= target.Length
    modifies target
    ensures target[..] == Overwrite(old(target[..]), off, data)
  {
    forall i | 0 <= i < |data| {
      target[off + i] := data[i];
    }
  }

  /** Writes the encoding of `n` at `off`: low groups first, then reversed. */
  method Put(target: array<byte>, off: nat, n: nat) returns (size: nat)
    requires n < TWO_64 && off + |Encode(n)| <= target.Length
    modifies target
    ensures size == |Encode(n)|
    ensures target[..] == Overwrite(old(target[..]), off, Encode(n))
  {
    hide Encode, EncodeMore, Reverse, Pending, Group, Overwrite;
    ghost var was, written := target[..], [];
    OverwriteNothing(was, off);
    PendingStart(n);
    var m, offset := n, 0;
    while true
      invariant offset == |written| < |Encode(n)| && Pending(n, m, written)
      invariant target[..] == Overwrite(was, off, written)
      decreases m
    {
      PendingByte(n, m, written);
      var b := Group(m, offset == 0);
      OverwriteMore(was, off, written, b);
      target[off + offset] := b;
      written := written + [b];
      if m <= 127 {
        break;
      }
      m := m / 128 - 1;
      offset := offset + 1;
    }
    size := offset + 1;
    ReverseInPlace(target, off, size);
    OverwriteAgain(was, off, written, Reverse(written));
  }

  /** The byte of the lowest group; its high bit is set unless it is the last byte of the encoding. */
  function Group(m: nat, last: bool): byte {
    if last then (m % 128) as byte else (128 + m % 128) as byte
  }

  /** `done` holds the groups written so far, lowest first, and `m` what is left of `n`. */
  ghost predicate Pending(n: nat, m: nat, done: seq<byte>) {
    Encode(n) == (if done == [] then Encode(m) else EncodeMore(m)) + Reverse(done)
  }

  lemma PendingByte(n: nat, m: nat, done: seq<byte>)
    requires Pending(n, m, done)
    ensures |done| < |Encode(n)|
    ensures m <= 127 ==> Encode(n) == Reverse(done + [Group(m, done == [])])
    ensures m > 127 ==> Pending(n, m / 128 - 1, done + [Group(m, done == [])]) && |done| + 1 < |Encode(n)|
  {
    hide Encode, EncodeMore, Reverse, Group;
    var b := Group(m, done == []);
    EncodeUnfold(m);
    ReverseAppend(done, b);
    if m > 127 {
      Assoc(EncodeMore(m / 128 - 1), [b], Reverse(done));
    }
  }

  lemma Assoc(a: seq<byte>, b: seq<byte>, c: seq<byte>)
    ensures (a + b) + c == a + (b + c)
  {
  }

  lemma PendingStart(n: nat)
    ensures Pending(n, n, []) && |Encode(n)| > 0
  {
    assert Encode(n) + [] == Encode(n);
  }

  lemma ReverseAppend(s: seq<byte>, b: byte)
    ensures Reverse(s + [b]) == [b] + Reverse(s)
  {
    assert (s + [b])[..|s|] == s;
  }

  lemma EncodeUnfold(m: nat)
    ensures m <= 127 ==> Encode(m) == [Group(m, true)] && EncodeMore(m) == [Group(m, false)]
    ensures m > 127 ==>
              && Encode(m) == EncodeMore(m / 128 - 1) + [Group(m, true)]
              && EncodeMore(m) == EncodeMore(m / 128 - 1) + [Group(m, false)]
  {
  }
}
