/** The address manager's books as a value: the address index, the "new" buckets and the "tried" lists. */
module AddrBook {
  /** The printed form of an address, host and port. */
  datatype Key = Key(text: string)

  const TRIED_BUCKET_SIZE := 256
  const TRIED_BUCKET_COUNT := 64
  const NEW_BUCKET_SIZE := 64
  const NEW_BUCKET_COUNT := 1024
  const NEW_BUCKETS_PER_ADDRESS := 8

  /** An address; the key is its printed form, and times are in nanoseconds. */
  datatype NetAddress = NetAddress(key: Key, timestamp: int, services: set<nat>)

  datatype Known = Known(na: NetAddress, src: NetAddress, attempts: int, lastAttempt: int, lastSuccess: int,
                         tried: bool, refs: int)

  /** Keyed hashes and the address classes, which the books do not interpret. */
  datatype Rules = Rules(newHash: (Key, Key) -> nat, triedHash: Key -> nat, routable: Key -> bool)
  {
    function NewBucket(key: Key, src: Key): (b: nat)
      ensures b < NEW_BUCKET_COUNT
    {
      newHash(key, src) % NEW_BUCKET_COUNT
    }

    function TriedBucket(key: Key): (b: nat)
      ensures b < TRIED_BUCKET_COUNT
    {
      triedHash(key) % TRIED_BUCKET_COUNT
    }
  }

  datatype Book = Book(index: map<Key, Known>, addrNew: seq<set<Key>>, addrTried: seq<seq<Key>>, nNew: int, nTried: int)
  {
    /** The new buckets that hold `k`. */
    function Holders(k: Key): (r: set<int>) {
      set b | 0 <= b < |addrNew| && k in addrNew[b]
    }

    function NewKeys(): (r: set<Key>) {
      Marked(index, false)
    }

    function TriedKeys(): (r: set<Key>) {
      Marked(index, true)
    }

    predicate Shaped() {
      |addrNew| == NEW_BUCKET_COUNT && |addrTried| == TRIED_BUCKET_COUNT
    }

    /** An address counts its buckets, and is in the tried lists exactly when it is in no bucket. */
    predicate KeyOk(rules: Rules, k: Key)
      requires Shaped() && k in index
    {
      var ka := index[k];
      && ka.na.key == k
      && ka.refs == |Holders(k)| <= NEW_BUCKETS_PER_ADDRESS
      && (ka.tried <==> ka.refs == 0)
      && (ka.tried <==> k in addrTried[rules.TriedBucket(k)])
    }

    predicate NewOk(b: int)
      requires 0 <= b < |addrNew|
    {
      addrNew[b] <= index.Keys && |addrNew[b]| <= NEW_BUCKET_SIZE + 1
    }

    predicate TriedOk(rules: Rules, b: int)
      requires 0 <= b < |addrTried|
    {
      && |addrTried[b]| <= TRIED_BUCKET_SIZE
      && NoRepeats(addrTried[b])
      && forall k :: k in addrTried[b] ==> k in index && rules.TriedBucket(k) == b
    }

    /** What every operation keeps. */
    ghost predicate Healthy(rules: Rules) {
      && Shaped()
      && (forall k :: k in index ==> KeyOk(rules, k))
      && (forall b :: 0 <= b < NEW_BUCKET_COUNT ==> NewOk(b))
      && (forall b :: 0 <= b < TRIED_BUCKET_COUNT ==> TriedOk(rules, b))
      && nNew == |NewKeys()| && nTried == |TriedKeys()|
    }
  }

  function Marked(index: map<Key, Known>, tried: bool): (r: set<Key>) {
    set k | k in index && index[k].tried == tried
  }

  lemma MarkedAdd(index: map<Key, Known>, k: Key, ka: Known, tried: bool)
    requires k !in index
    ensures |Marked(index[k := ka], tried)| == |Marked(index, tried)| + if ka.tried == tried then 1 else 0
  {
    hide Marked;
    var more := index[k := ka];
    forall j ensures j in Marked(more, tried) <==> j in Marked(index, tried) || (j == k && ka.tried == tried) {
      MarkedAt(more, j, tried);
      MarkedAt(index, j, tried);
    }
    MarkedAt(index, k, tried);
    OneMore(Marked(index, tried), Marked(more, tried), k, ka.tried == tried);
  }

  lemma OneMore<T>(a: set<T>, b: set<T>, k: T, joins: bool)
    requires k !in a && forall j :: j in b <==> j in a || (joins && j == k)
    ensures |b| == |a| + if joins then 1 else 0
  {
    if joins {
      assert b == a + {k};
    } else {
      assert b == a;
    }
  }

  lemma MarkedAt(index: map<Key, Known>, k: Key, tried: bool)
    ensures k in Marked(index, tried) <==> k in index && index[k].tried == tried
  {
  }

  lemma MarkedRemove(index: map<Key, Known>, k: Key, tried: bool)
    requires k in index
    ensures |Marked(index - {k}, tried)| == |Marked(index, tried)| - if index[k].tried == tried then 1 else 0
  {
    assert Marked(index - {k}, tried) == Marked(index, tried) - {k};
  }

  lemma MarkedSame(index: map<Key, Known>, k: Key, ka: Known, tried: bool)
    requires k in index && index[k].tried == ka.tried
    ensures Marked(index[k := ka], tried) == Marked(index, tried)
  {
  }

  predicate NoRepeats(s: seq<Key>) {
    forall i, j :: 0 <= i < j < |s| ==> s[i] != s[j]
  }

  /** The books of a new address manager. */
  function Empty(): (s: Book) {
    Book(map[], seq(NEW_BUCKET_COUNT, i => {}), seq(TRIED_BUCKET_COUNT, i => []), 0, 0)
  }

  lemma EmptyHealthy(rules: Rules)
    ensures Empty().Healthy(rules)
  {
    assert Empty().NewKeys() == {} && Empty().TriedKeys() == {};
  }

  // ---------------------------------------------------------------------------
  // Steps
  // ---------------------------------------------------------------------------

  /** Replaces what is recorded about `k`. */
  function Set(s: Book, k: Key, ka: Known): (r: Book) {
    s.(index := s.index[k := ka])
  }

  /** Takes the keys of `dropped` out of bucket `b`, forgetting those no other bucket holds. */
  function DropAll(s: Book, b: int, dropped: set<Key>): (r: Book)
    requires 0 <= b < |s.addrNew|
    ensures |r.addrNew| == |s.addrNew|
  {
    Book(Thinned(s.index, dropped), s.addrNew[b := s.addrNew[b] - dropped], s.addrTried,
         s.nNew - |LastHeld(s.index, dropped)|, s.nTried)
  }

  /** The keys of `dropped` that one bucket holds. */
  function LastHeld(index: map<Key, Known>, dropped: set<Key>): (r: set<Key>) {
    set k | k in index && k in dropped && index[k].refs == 1
  }

  function Thinned(index: map<Key, Known>, dropped: set<Key>): (r: map<Key, Known>) {
    map k | k in index && k !in LastHeld(index, dropped) :: if k in dropped then OneLess(index[k]) else index[k]
  }

  function OneLess(ka: Known): (r: Known) {
    ka.(refs := ka.refs - 1)
  }

  /** Adds `k` to bucket `b`. */
  function Hold(s: Book, b: int, k: Key): (r: Book)
    requires 0 <= b < |s.addrNew| && k in s.index
  {
    s.(index := s.index[k := s.index[k].(refs := s.index[k].refs + 1)], addrNew := s.addrNew[b := s.addrNew[b] + {k}])
  }

  /** Indexes an address that no bucket holds yet. */
  function Pend(s: Book, k: Key, ka: Known): (r: Book) {
    s.(index := s.index[k := ka], nNew := s.nNew + 1)
  }

  /** Takes `k` out of the buckets below `i`. */
  function Without(buckets: seq<set<Key>>, k: Key, i: int): (r: seq<set<Key>>)
    ensures |r| == |buckets|
  {
    seq(|buckets|, b requires 0 <= b < |buckets| => if b < i then buckets[b] - {k} else buckets[b])
  }

  /** Forgets `k`, which is in new buckets only. */
  function Detach(s: Book, k: Key): (r: Book) {
    s.(index := s.index - {k}, addrNew := Without(s.addrNew, k, |s.addrNew|), nNew := s.nNew - 1)
  }

  /** Appends `k` to its tried list. */
  function AddTried(s: Book, b: int, k: Key, ka: Known): (r: Book)
    requires 0 <= b < |s.addrTried|
  {
    s.(index := s.index[k := ka], addrTried := s.addrTried[b := s.addrTried[b] + [k]], nTried := s.nTried + 1)
  }

  /** Puts `k` in the place of the entry at position `e` of a tried list, which is forgotten. */
  function ReplaceTried(s: Book, b: int, e: int, k: Key, ka: Known): (r: Book)
    requires 0 <= b < |s.addrTried| && 0 <= e < |s.addrTried[b]|
  {
    s.(index := (s.index - {s.addrTried[b][e]})[k := ka], addrTried := s.addrTried[b := s.addrTried[b][e := k]])
  }

  // ---------------------------------------------------------------------------
  // The steps keep the books healthy
  // ---------------------------------------------------------------------------

  lemma SetHealthy(rules: Rules, s: Book, k: Key, ka: Known)
    requires s.Healthy(rules) && k in s.index
    requires ka.na.key == k && ka.refs == s.index[k].refs && ka.tried == s.index[k].tried
    ensures Set(s, k, ka).Healthy(rules)
  {
    hide Marked;
    var t := Set(s, k, ka);
    forall j | j in t.index ensures t.KeyOk(rules, j) {
      assert s.KeyOk(rules, j);
      assert t.Holders(j) == s.Holders(j);
    }
    forall b | 0 <= b < NEW_BUCKET_COUNT ensures t.NewOk(b) { assert s.NewOk(b); }
    forall b | 0 <= b < TRIED_BUCKET_COUNT ensures t.TriedOk(rules, b) { assert s.TriedOk(rules, b); }
    MarkedSame(s.index, k, ka, true);
    MarkedSame(s.index, k, ka, false);
  }

  lemma DropHolders(s: Book, b: int, dropped: set<Key>, k: Key)
    requires 0 <= b < |s.addrNew| && dropped <= s.addrNew[b]
    ensures k in dropped ==> |DropAll(s, b, dropped).Holders(k)| == |s.Holders(k)| - 1
    ensures k !in dropped ==> DropAll(s, b, dropped).Holders(k) == s.Holders(k)
  {
    if k in dropped {
      assert DropAll(s, b, dropped).Holders(k) == s.Holders(k) - {b};
    }
  }

  lemma DropHealthy(rules: Rules, s: Book, b: int, dropped: set<Key>)
    requires s.Healthy(rules) && 0 <= b < NEW_BUCKET_COUNT && dropped <= s.addrNew[b]
    ensures DropAll(s, b, dropped).Healthy(rules)
  {
    var t := DropAll(s, b, dropped);
    assert s.NewOk(b);
    forall k | k in s.index ensures k in t.index ==> t.KeyOk(rules, k) {
      assert s.KeyOk(rules, k);
      DropHolders(s, b, dropped, k);
    }
    forall j | 0 <= j < NEW_BUCKET_COUNT ensures t.NewOk(j) {
      DropNewOk(rules, s, b, dropped, j);
    }
    forall j | 0 <= j < TRIED_BUCKET_COUNT ensures t.TriedOk(rules, j) {
      DropTriedOk(rules, s, b, dropped, j);
    }
    DropCounts(rules, s, b, dropped);
  }

  lemma DropNewOk(rules: Rules, s: Book, b: int, dropped: set<Key>, j: int)
    requires s.Healthy(rules) && 0 <= b < NEW_BUCKET_COUNT && dropped <= s.addrNew[b] && 0 <= j < NEW_BUCKET_COUNT
    ensures DropAll(s, b, dropped).NewOk(j)
  {
    var t := DropAll(s, b, dropped);
    assert s.NewOk(j);
    Subset(t.addrNew[j], s.addrNew[j]);
    forall k | k in t.addrNew[j] ensures k in t.index {
      assert s.KeyOk(rules, k);
      DropHolders(s, b, dropped, k);
      assert j in t.Holders(k);
    }
  }

  lemma DropTriedOk(rules: Rules, s: Book, b: int, dropped: set<Key>, j: int)
    requires s.Healthy(rules) && 0 <= b < NEW_BUCKET_COUNT && dropped <= s.addrNew[b] && 0 <= j < TRIED_BUCKET_COUNT
    ensures DropAll(s, b, dropped).TriedOk(rules, j)
  {
    assert s.TriedOk(rules, j);
    forall k | k in s.addrTried[j] ensures k in DropAll(s, b, dropped).index {
      assert s.KeyOk(rules, k);
    }
  }

  lemma DropCounts(rules: Rules, s: Book, b: int, dropped: set<Key>)
    requires s.Healthy(rules) && 0 <= b < NEW_BUCKET_COUNT && dropped <= s.addrNew[b]
    ensures var t := DropAll(s, b, dropped); t.nNew == |t.NewKeys()| && t.nTried == |t.TriedKeys()|
  {
    hide Marked, Thinned, LastHeld;
    forall k | k in s.index && s.index[k].refs == 1 ensures !s.index[k].tried {
      assert s.KeyOk(rules, k);
    }
    ThinnedMarked(s.index, dropped);
  }

  lemma ThinnedMarked(index: map<Key, Known>, dropped: set<Key>)
    requires forall k :: k in index && index[k].refs == 1 ==> !index[k].tried
    ensures |Marked(Thinned(index, dropped), false)| == |Marked(index, false)| - |LastHeld(index, dropped)|
    ensures Marked(Thinned(index, dropped), true) == Marked(index, true)
  {
    var gone := LastHeld(index, dropped);
    assert gone <= Marked(index, false);
    assert Marked(Thinned(index, dropped), false) == Marked(index, false) - gone;
    assert |Marked(index, false) - gone| == |Marked(index, false)| - |gone| by {
      assert Marked(index, false) == (Marked(index, false) - gone) + gone;
    }
  }

  lemma Subset<T>(a: set<T>, b: set<T>)
    requires a <= b
    ensures |a| <= |b|
  {
    assert b == a + (b - a);
  }

  lemma HoldHolders(s: Book, b: int, k: Key, j: Key)
    requires 0 <= b < |s.addrNew| && k in s.index && k !in s.addrNew[b]
    ensures Hold(s, b, k).Holders(j) == if j == k then s.Holders(k) + {b} else s.Holders(j)
  {
  }

  /** Adding a known address to one more bucket that has room. */
  lemma HoldHealthy(rules: Rules, s: Book, b: int, k: Key)
    requires s.Healthy(rules) && 0 <= b < NEW_BUCKET_COUNT && k in s.index && k !in s.addrNew[b]
    requires |s.addrNew[b]| <= NEW_BUCKET_SIZE && !s.index[k].tried && s.index[k].refs < NEW_BUCKETS_PER_ADDRESS
    ensures Hold(s, b, k).Healthy(rules)
  {
    hide Book.KeyOk, Book.NewOk, Book.TriedOk, Book.Holders, Marked;
    var t := Hold(s, b, k);
    forall j | j in t.index ensures t.KeyOk(rules, j) {
      HoldKeyOk(rules, s, b, k, j);
    }
    forall j | 0 <= j < NEW_BUCKET_COUNT ensures t.NewOk(j) {
      assert s.NewOk(j);
      MoreKeysNewOk(s, t, b, k, j);
    }
    forall j | 0 <= j < TRIED_BUCKET_COUNT ensures t.TriedOk(rules, j) {
      assert s.TriedOk(rules, j);
      MoreKeysTriedOk(rules, s, t, j);
    }
    MarkedSame(s.index, k, t.index[k], true);
    MarkedSame(s.index, k, t.index[k], false);
  }

  lemma HoldKeyOk(rules: Rules, s: Book, b: int, k: Key, j: Key)
    requires s.Healthy(rules) && 0 <= b < NEW_BUCKET_COUNT && k in s.index && k !in s.addrNew[b] && j in s.index
    requires !s.index[k].tried && s.index[k].refs < NEW_BUCKETS_PER_ADDRESS
    ensures Hold(s, b, k).KeyOk(rules, j)
  {
    assert s.KeyOk(rules, j);
    HoldHolders(s, b, k, j);
  }

  /** A record for an address that no bucket holds. */
  predicate Unheld(ka: Known, k: Key) {
    ka.na.key == k && !ka.tried && ka.refs == 0
  }

  /** Entering an unknown address in its first bucket. */
  lemma FreshHealthy(rules: Rules, s: Book, b: int, k: Key, ka: Known)
    requires s.Healthy(rules) && 0 <= b < NEW_BUCKET_COUNT && k !in s.index && Unheld(ka, k)
    requires |s.addrNew[b]| <= NEW_BUCKET_SIZE
    ensures k !in s.addrNew[b] && Hold(Pend(s, k, ka), b, k).Healthy(rules)
  {
    hide Book.KeyOk, Book.NewOk, Book.TriedOk, Book.Holders, Book.NewKeys, Book.TriedKeys;
    NotInBucket(rules, s, b, k);
    var t := Hold(Pend(s, k, ka), b, k);
    forall j | j in t.index ensures t.KeyOk(rules, j) {
      FreshKeyOk(rules, s, b, k, ka, j);
    }
    forall j | 0 <= j < NEW_BUCKET_COUNT ensures t.NewOk(j) {
      assert s.NewOk(j);
      MoreKeysNewOk(s, t, b, k, j);
    }
    forall j | 0 <= j < TRIED_BUCKET_COUNT ensures t.TriedOk(rules, j) {
      assert s.TriedOk(rules, j);
      MoreKeysTriedOk(rules, s, t, j);
    }
    FreshCounts(s, b, k, ka);
  }

  lemma NotInBucket(rules: Rules, s: Book, b: int, k: Key)
    requires s.Healthy(rules) && 0 <= b < NEW_BUCKET_COUNT && k !in s.index
    ensures k !in s.addrNew[b]
  {
    assert s.NewOk(b);
  }

  lemma FreshCounts(s: Book, b: int, k: Key, ka: Known)
    requires 0 <= b < |s.addrNew| && k !in s.index && Unheld(ka, k)
    ensures var t := Hold(Pend(s, k, ka), b, k); |t.NewKeys()| == |s.NewKeys()| + 1 && |t.TriedKeys()| == |s.TriedKeys()|
  {
    hide Marked;
    var once := ka.(refs := ka.refs + 1);
    assert s.index[k := ka][k := once] == s.index[k := once];
    MarkedAdd(s.index, k, once, false);
    MarkedAdd(s.index, k, once, true);
  }

  lemma MoreKeysNewOk(s: Book, t: Book, b: int, k: Key, j: int)
    requires 0 <= b < |s.addrNew| && t.addrNew == s.addrNew[b := s.addrNew[b] + {k}] && |s.addrNew[b]| <= NEW_BUCKET_SIZE
    requires s.index.Keys <= t.index.Keys && k in t.index && 0 <= j < |s.addrNew| && s.NewOk(j)
    ensures t.NewOk(j)
  {
  }

  lemma MoreKeysTriedOk(rules: Rules, s: Book, t: Book, j: int)
    requires s.addrTried == t.addrTried && s.index.Keys <= t.index.Keys && 0 <= j < |s.addrTried| && s.TriedOk(rules, j)
    ensures t.TriedOk(rules, j)
  {
  }

  lemma FreshKeyOk(rules: Rules, s: Book, b: int, k: Key, ka: Known, j: Key)
    requires s.Healthy(rules) && 0 <= b < NEW_BUCKET_COUNT && k !in s.index && Unheld(ka, k)
    requires k !in s.addrNew[b] && (j == k || j in s.index)
    ensures Hold(Pend(s, k, ka), b, k).KeyOk(rules, j)
  {
    assert s.Shaped();
    hide Book.Healthy, Book.Holders;
    var p := Pend(s, k, ka);
    SameBuckets(s, p, j);
    HoldHolders(p, b, k, j);
    if j == k {
      NoHolders(rules, s, k);
    } else {
      HealthyKey(rules, s, j);
    }
  }

  lemma SameBuckets(s: Book, t: Book, j: Key)
    requires s.addrNew == t.addrNew
    ensures s.Holders(j) == t.Holders(j)
  {
  }

  lemma HealthyKey(rules: Rules, s: Book, k: Key)
    requires s.Healthy(rules) && k in s.index
    ensures s.Shaped() && s.KeyOk(rules, k)
  {
  }

  lemma DetachHolders(s: Book, k: Key, j: Key)
    ensures Detach(s, k).Holders(j) == if j == k then {} else s.Holders(j)
  {
  }

  lemma DetachHealthy(rules: Rules, s: Book, k: Key)
    requires s.Healthy(rules) && k in s.index && !s.index[k].tried
    ensures Detach(s, k).Healthy(rules) && k !in Detach(s, k).index
  {
    hide Marked;
    var t := Detach(s, k);
    forall j | j in t.index ensures t.KeyOk(rules, j) {
      assert s.KeyOk(rules, j);
      DetachHolders(s, k, j);
    }
    forall j | 0 <= j < NEW_BUCKET_COUNT ensures t.NewOk(j) {
      assert s.NewOk(j);
      Subset(t.addrNew[j], s.addrNew[j]);
    }
    forall j | 0 <= j < TRIED_BUCKET_COUNT ensures t.TriedOk(rules, j) {
      assert s.TriedOk(rules, j);
      assert s.KeyOk(rules, k);
    }
    MarkedRemove(s.index, k, true);
    MarkedRemove(s.index, k, false);
  }

  /** A record for an address in the tried lists. */
  predicate InTried(ka: Known, k: Key) {
    ka.na.key == k && ka.tried && ka.refs == 0
  }

  lemma NoHolders(rules: Rules, s: Book, k: Key)
    requires s.Healthy(rules) && k !in s.index
    ensures s.Shaped() && s.Holders(k) == {} && k !in s.addrTried[rules.TriedBucket(k)]
  {
    forall b | 0 <= b < NEW_BUCKET_COUNT ensures k !in s.addrNew[b] {
      assert s.NewOk(b);
    }
    assert s.TriedOk(rules, rules.TriedBucket(k));
  }

  lemma AddTriedHealthy(rules: Rules, s: Book, k: Key, ka: Known)
    requires s.Healthy(rules) && k !in s.index && InTried(ka, k)
    requires |s.addrTried[rules.TriedBucket(k)]| < TRIED_BUCKET_SIZE
    ensures AddTried(s, rules.TriedBucket(k), k, ka).Healthy(rules)
  {
    hide Book.KeyOk, Book.NewOk, Book.TriedOk, Book.Holders, Book.NewKeys, Book.TriedKeys;
    var t := AddTried(s, rules.TriedBucket(k), k, ka);
    forall j | j in t.index ensures t.KeyOk(rules, j) {
      AddTriedKeyOk(rules, s, k, ka, j);
    }
    forall j | 0 <= j < NEW_BUCKET_COUNT ensures t.NewOk(j) {
      assert s.NewOk(j);
      SameBucketOk(s, t, j);
    }
    forall j | 0 <= j < TRIED_BUCKET_COUNT ensures t.TriedOk(rules, j) {
      AddTriedOk(rules, s, k, ka, j);
    }
    AddTriedCounts(s, rules.TriedBucket(k), k, ka);
  }

  lemma SameBucketOk(s: Book, t: Book, j: int)
    requires s.addrNew == t.addrNew && 0 <= j < |s.addrNew| && s.NewOk(j)
    requires forall k :: k in s.addrNew[j] && k in s.index ==> k in t.index
    ensures t.NewOk(j)
  {
  }

  lemma AddTriedKeyOk(rules: Rules, s: Book, k: Key, ka: Known, j: Key)
    requires s.Healthy(rules) && k !in s.index && InTried(ka, k) && (j == k || j in s.index)
    ensures AddTried(s, rules.TriedBucket(k), k, ka).KeyOk(rules, j)
  {
    var t := AddTried(s, rules.TriedBucket(k), k, ka);
    NoHolders(rules, s, k);
    assert t.Holders(j) == s.Holders(j);
    if j != k { assert s.KeyOk(rules, j); }
  }

  lemma AddTriedCounts(s: Book, b: int, k: Key, ka: Known)
    requires 0 <= b < |s.addrTried| && k !in s.index && InTried(ka, k)
    ensures var t := AddTried(s, b, k, ka); |t.NewKeys()| == |s.NewKeys()| && |t.TriedKeys()| == |s.TriedKeys()| + 1
  {
    hide Marked;
    MarkedAdd(s.index, k, ka, false);
    MarkedAdd(s.index, k, ka, true);
  }

  lemma AddTriedOk(rules: Rules, s: Book, k: Key, ka: Known, j: int)
    requires s.Healthy(rules) && k !in s.index && |s.addrTried[rules.TriedBucket(k)]| < TRIED_BUCKET_SIZE
    requires 0 <= j < TRIED_BUCKET_COUNT
    ensures AddTried(s, rules.TriedBucket(k), k, ka).TriedOk(rules, j)
  {
    assert s.TriedOk(rules, j);
  }

  lemma ReplaceTriedHealthy(rules: Rules, s: Book, e: int, k: Key, ka: Known)
    requires s.Healthy(rules) && k !in s.index && InTried(ka, k)
    requires 0 <= e < |s.addrTried[rules.TriedBucket(k)]|
    ensures var t := ReplaceTried(s, rules.TriedBucket(k), e, k, ka);
      t.Healthy(rules) && s.addrTried[rules.TriedBucket(k)][e] !in t.index
  {
    hide Book.KeyOk, Book.NewOk, Book.TriedOk, Book.Holders, Book.NewKeys, Book.TriedKeys;
    var b := rules.TriedBucket(k);
    var t := ReplaceTried(s, b, e, k, ka);
    TriedEntry(rules, s, b, e);
    forall j | j in t.index ensures t.KeyOk(rules, j) {
      ReplaceKeyOk(rules, s, e, k, ka, j);
    }
    forall j | 0 <= j < NEW_BUCKET_COUNT ensures t.NewOk(j) {
      assert s.NewOk(j);
      TriedNowhere(rules, s, s.addrTried[b][e], j);
      SameBucketOk(s, t, j);
    }
    forall j | 0 <= j < TRIED_BUCKET_COUNT ensures t.TriedOk(rules, j) {
      ReplaceTriedOk(rules, s, e, k, ka, j);
    }
    ReplaceCounts(s, b, e, k, ka);
  }

  /** What a tried list holds is known and marked as tried. */
  lemma TriedEntry(rules: Rules, s: Book, b: int, e: int)
    requires s.Healthy(rules) && 0 <= b < TRIED_BUCKET_COUNT && 0 <= e < |s.addrTried[b]|
    ensures var k := s.addrTried[b][e]; k in s.index && s.KeyOk(rules, k) && s.index[k].tried
  {
    assert s.TriedOk(rules, b);
    var k := s.addrTried[b][e];
    assert k in s.addrTried[b];
    assert s.KeyOk(rules, k);
  }

  lemma TriedNowhere(rules: Rules, s: Book, k: Key, j: int)
    requires s.Healthy(rules) && k in s.index && s.index[k].tried && 0 <= j < NEW_BUCKET_COUNT
    ensures k !in s.addrNew[j] && s.addrNew[j] <= s.index.Keys
  {
    assert s.KeyOk(rules, k) && s.NewOk(j);
    assert s.Holders(k) == {};
    assert j !in s.Holders(k);
  }

  lemma ReplaceKeyOk(rules: Rules, s: Book, e: int, k: Key, ka: Known, j: Key)
    requires s.Healthy(rules) && k !in s.index && InTried(ka, k) && 0 <= e < |s.addrTried[rules.TriedBucket(k)]|
    requires j == k || (j in s.index && j != s.addrTried[rules.TriedBucket(k)][e])
    ensures ReplaceTried(s, rules.TriedBucket(k), e, k, ka).KeyOk(rules, j)
  {
    var b := rules.TriedBucket(k);
    var t := ReplaceTried(s, b, e, k, ka);
    NoHolders(rules, s, k);
    assert t.Holders(j) == s.Holders(j);
    if j == k {
      assert t.addrTried[b][e] == k;
    } else {
      assert s.KeyOk(rules, j);
      ReplaceKeeps(s.addrTried[b], e, k, j);
    }
  }

  lemma ReplaceCounts(s: Book, b: int, e: int, k: Key, ka: Known)
    requires 0 <= b < |s.addrTried| && 0 <= e < |s.addrTried[b]| && k !in s.index && InTried(ka, k)
    requires var rm := s.addrTried[b][e]; rm in s.index && s.index[rm].tried
    ensures var t := ReplaceTried(s, b, e, k, ka); |t.NewKeys()| == |s.NewKeys()| && |t.TriedKeys()| == |s.TriedKeys()|
  {
    hide Marked;
    var rm := s.addrTried[b][e];
    MarkedRemove(s.index, rm, false);
    MarkedRemove(s.index, rm, true);
    MarkedAdd(s.index - {rm}, k, ka, false);
    MarkedAdd(s.index - {rm}, k, ka, true);
  }

  lemma ReplaceKeeps(list: seq<Key>, e: int, k: Key, j: Key)
    requires 0 <= e < |list| && j != k && j != list[e]
    ensures j in list <==> j in list[e := k]
  {
    if j in list {
      var i :| 0 <= i < |list| && list[i] == j;
      assert list[e := k][i] == j;
    }
  }

  lemma ReplaceTriedOk(rules: Rules, s: Book, e: int, k: Key, ka: Known, j: int)
    requires s.Healthy(rules) && k !in s.index && 0 <= e < |s.addrTried[rules.TriedBucket(k)]| && 0 <= j < TRIED_BUCKET_COUNT
    ensures ReplaceTried(s, rules.TriedBucket(k), e, k, ka).TriedOk(rules, j)
  {
    var b := rules.TriedBucket(k);
    var t := ReplaceTried(s, b, e, k, ka);
    assert s.TriedOk(rules, j) && s.TriedOk(rules, b);
    forall i | 0 <= i < |t.addrTried[j]|
      ensures t.addrTried[j][i] in t.index && rules.TriedBucket(t.addrTried[j][i]) == j
    {
      assert s.addrTried[j][i] in s.addrTried[j];
      assert s.addrTried[b][e] in s.addrTried[b];
    }
  }
}
