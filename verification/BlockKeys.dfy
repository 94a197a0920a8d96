/** Keys of the block index bucket and the byte order its cursor follows. */
module BlockKeys {
  import opened ChainTypes

  /** Byte-wise lexicographic order. */
  predicate Less(a: seq<byte>, b: seq<byte>) {
    b != [] && (a == [] || a[0] < b[0] || (a[0] == b[0] && Less(a[1..], b[1..])))
  }

  lemma {:induction false} LessTotal(a: seq<byte>, b: seq<byte>)
    ensures a == b || Less(a, b) || Less(b, a)
    ensures !(Less(a, b) && Less(b, a)) && !Less(a, a)
  {
    if a != [] {
      LessTotal(a[1..], a[1..]);
      if b != [] {
        LessTotal(a[1..], b[1..]);
        if a[0] == b[0] && a[1..] == b[1..] { assert a == [a[0]] + a[1..] == b; }
      }
    }
  }

  lemma {:induction false} LessTransitive(a: seq<byte>, b: seq<byte>, c: seq<byte>)
    requires Less(a, b) && Less(b, c)
    ensures Less(a, c)
  {
    if a != [] && a[0] == b[0] == c[0] { LessTransitive(a[1..], b[1..], c[1..]); }
  }

  lemma {:induction false} LessExtends(a: seq<byte>, b: seq<byte>, x: seq<byte>, y: seq<byte>)
    requires |a| == |b| && Less(a, b)
    ensures Less(a + x, b + y)
  {
    if a[0] == b[0] {
      LessExtends(a[1..], b[1..], x, y);
      assert (a + x)[1..] == a[1..] + x && (b + y)[1..] == b[1..] + y;
    }
  }

  /** A non-empty bucket has a first key. */
  lemma {:induction false} LeastExists(keys: set<seq<byte>>) returns (least: seq<byte>)
    requires keys != {}
    ensures least in keys && forall k :: k in keys ==> k == least || Less(least, k)
    decreases |keys|
  {
    var some :| some in keys;
    if keys == {some} {
      return some;
    }
    var rest := keys - {some};
    assert keys == rest + {some};
    var first := LeastExists(rest);
    LessTotal(some, first);
    if Less(some, first) {
      forall k | k in rest && k != first
        ensures Less(some, k)
      {
        LessTransitive(some, first, k);
      }
      return some;
    }
    return first;
  }

  /** A height as four bytes, most significant first. */
  function BigEndian(height: uint32): (b: seq<byte>)
    ensures |b| == 4
  {
    [ (height / 0x100_0000) as byte, (height / 0x1_0000 % 256) as byte, (height / 0x100 % 256) as byte, (height % 256) as byte ]
  }

  /** The key of a block: its height, then its hash. */
  function BlockIndexKey(hash: Hash, height: uint32): (key: seq<byte>)
    ensures |key| == 36
  {
    BigEndian(height) + hash
  }

  lemma BigEndianValue(h: uint32)
    ensures var b := BigEndian(h);
            h == 0x100_0000 * (b[0] as int) + 0x1_0000 * (b[1] as int) + 0x100 * (b[2] as int) + (b[3] as int)
  {
    var high, low := h / 0x1_0000, h % 0x1_0000;
    assert h / 0x100_0000 == high / 0x100;
    assert h / 0x100 % 256 == low / 0x100;
  }

  lemma BigEndianOrder(h1: uint32, h2: uint32)
    requires h1 < h2
    ensures Less(BigEndian(h1), BigEndian(h2))
  {
    var a, b := BigEndian(h1), BigEndian(h2);
    BigEndianValue(h1);
    BigEndianValue(h2);
    hide BigEndian;
    if a[0] != b[0] {
      FirstDifference(a, b, 0);
    } else if a[1] != b[1] {
      FirstDifference(a, b, 1);
    } else if a[2] != b[2] {
      FirstDifference(a, b, 2);
    } else {
      FirstDifference(a, b, 3);
    }
  }

  lemma {:induction false} FirstDifference(a: seq<byte>, b: seq<byte>, i: nat)
    requires i < |a| == |b| && a[i] < b[i] && forall j :: 0 <= j < i ==> a[j] == b[j]
    ensures Less(a, b)
  {
    if i > 0 { FirstDifference(a[1..], b[1..], i - 1); }
  }

  /** Lower blocks come first, whatever their hashes. */
  lemma LowerHeightFirst(hash1: Hash, h1: uint32, hash2: Hash, h2: uint32)
    requires h1 < h2
    ensures Less(BlockIndexKey(hash1, h1), BlockIndexKey(hash2, h2))
  {
    BigEndianOrder(h1, h2);
    LessExtends(BigEndian(h1), BigEndian(h2), hash1, hash2);
  }
}
