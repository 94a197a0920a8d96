/** The address manager: adding, expiring and promoting addresses. */
module AddrManagers {
  import opened AddrBook
  import opened ChainTypes

  // ---------------------------------------------------------------------------
  // What each operation does to the books
  // ---------------------------------------------------------------------------

  /** `o` is a good address of bucket `b` that no other good address of the bucket is older than. */
  ghost predicate Oldest(s: Book, b: int, bad: Known -> bool, o: Key)
    requires 0 <= b < |s.addrNew| && s.addrNew[b] <= s.index.Keys
  {
    && o in s.addrNew[b] && !bad(s.index[o])
    && forall k :: k in s.addrNew[b] && !bad(s.index[k]) ==> s.index[o].na.timestamp <= s.index[k].na.timestamp
  }

  function BadKeys(s: Book, b: int, bad: Known -> bool): (r: set<Key>)
    requires 0 <= b < |s.addrNew| && s.addrNew[b] <= s.index.Keys
  {
    set k | k in s.addrNew[b] && bad(s.index[k])
  }

  /** Expiry takes every bad address and, if there is a good one, an oldest good one. */
  ghost predicate Expires(s: Book, b: int, bad: Known -> bool, dropped: set<Key>) {
    && 0 <= b < |s.addrNew| && s.addrNew[b] <= s.index.Keys
    && if BadKeys(s, b, bad) == s.addrNew[b] then dropped == s.addrNew[b]
       else exists o :: Oldest(s, b, bad, o) && dropped == BadKeys(s, b, bad) + {o}
  }

  function Freshened(ka: Known, na: NetAddress): (r: Known) {
    if na.timestamp > ka.na.timestamp || !(na.services <= ka.na.services) then
      ka.(na := ka.na.(timestamp := na.timestamp, services := ka.na.services + na.services))
    else ka
  }

  function Unknown(na: NetAddress, src: NetAddress): (ka: Known) {
    Known(na, src, 0, 0, 0, false, 0)
  }

  /** Puts `k` in bucket `b` unless it is there, making room first if the bucket is over its size. */
  ghost predicate Places(s: Book, t: Book, b: int, k: Key, bad: Known -> bool)
    requires 0 <= b < |s.addrNew| && k in s.index
  {
    if k in s.addrNew[b] then t == s
    else if |s.addrNew[b]| > NEW_BUCKET_SIZE then exists d :: Expires(s, b, bad, d) && HoldsAfterDrop(s, t, b, k, d)
    else t == Hold(s, b, k)
  }

  ghost predicate HoldsAfterDrop(s: Book, t: Book, b: int, k: Key, dropped: set<Key>)
    requires 0 <= b < |s.addrNew|
  {
    var u := DropAll(s, b, dropped);
    k in u.index && t == Hold(u, b, k)
  }

  /** The effect of hearing about an address; `roll` is the random number drawn. */
  ghost predicate Updates(rules: Rules, s: Book, t: Book, na: NetAddress, src: NetAddress, roll: nat, bad: Known -> bool)
    requires s.Healthy(rules)
  {
    var k, b := na.key, rules.NewBucket(na.key, src.key);
    if !rules.routable(k) then t == s
    else if k in s.index then
      KeyFacts(rules, s, k);
      var ka, u := s.index[k], Set(s, k, Freshened(s.index[k], na));
      if ka.tried || ka.refs == NEW_BUCKETS_PER_ADDRESS || roll % (2 * ka.refs) != 0 then t == u
      else Places(u, t, b, k, bad)
    else Places(Pend(s, k, Unknown(na, src)), t, b, k, bad)
  }

  lemma KeyFacts(rules: Rules, s: Book, k: Key)
    requires s.Healthy(rules) && k in s.index
    ensures s.index[k].na.key == k && s.index[k].refs >= 0 && (s.index[k].tried <==> s.index[k].refs == 0)
    ensures s.index[k].refs == |s.Holders(k)| <= NEW_BUCKETS_PER_ADDRESS
  {
    assert s.KeyOk(rules, k);
  }

  /** The entry at `e` is the first of the eldest in tried list `b`. */
  ghost predicate Eldest(s: Book, b: int, e: int)
    requires 0 <= b < |s.addrTried| && forall k :: k in s.addrTried[b] ==> k in s.index
  {
    && 0 <= e < |s.addrTried[b]|
    && (forall i :: 0 <= i < |s.addrTried[b]| ==> Age(s, b, e) <= Age(s, b, i))
    && (forall i :: 0 <= i < e ==> Age(s, b, e) < Age(s, b, i))
  }

  function Age(s: Book, b: int, i: int): (timestamp: int)
    requires 0 <= b < |s.addrTried| && (forall k :: k in s.addrTried[b] ==> k in s.index) && 0 <= i < |s.addrTried[b]|
  {
    s.index[s.addrTried[b][i]].na.timestamp
  }

  predicate FirstHolder(s: Book, k: Key, f: int) {
    0 <= f < |s.addrNew| && k in s.addrNew[f] && forall b :: 0 <= b < f ==> k !in s.addrNew[b]
  }

  function Succeeded(ka: Known, now: int): (r: Known) {
    ka.(lastSuccess := now, lastAttempt := now, attempts := 0)
  }

  /** Promotion into a full list: the entry at `e` goes back to its own bucket, or to `f` when that is full. */
  function Evicted(rules: Rules, s: Book, k: Key, e: int, f: int): (r: Book)
    requires s.Shaped() && k in s.index && 0 <= f < |s.addrNew|
    requires var b := rules.TriedBucket(k); 0 <= e < |s.addrTried[b]| && s.addrTried[b][e] in s.index
  {
    var b, d := rules.TriedBucket(k), Detach(s, k);
    var rm := s.addrTried[b][e];
    var home := rules.NewBucket(rm, s.index[rm].src.key);
    var back := if |d.addrNew[home]| >= NEW_BUCKET_SIZE then f else home;
    var swapped := ReplaceTried(d, b, e, k, s.index[k].(tried := true, refs := 0));
    Hold(Pend(swapped, rm, s.index[rm].(tried := false)), back, rm)
  }

  /** The effect of a successful connection. */
  ghost predicate Promotes(rules: Rules, s: Book, t: Book, k: Key, now: int)
    requires s.Healthy(rules)
  {
    if k !in s.index then t == s
    else
      var u, b := Set(s, k, Succeeded(s.index[k], now)), rules.TriedBucket(k);
      TriedFacts(rules, s, b);
      if s.index[k].tried then t == u
      else if |s.addrTried[b]| < TRIED_BUCKET_SIZE then
        t == AddTried(Detach(u, k), b, k, u.index[k].(tried := true, refs := 0))
      else
        exists e, f :: Evicts(rules, u, t, k, e, f)
  }

  /** The first eldest entry makes way, and falls back on the first bucket that held `k`. */
  ghost predicate Evicts(rules: Rules, s: Book, t: Book, k: Key, e: int, f: int) {
    && s.Shaped() && k in s.index && (forall j :: j in s.addrTried[rules.TriedBucket(k)] ==> j in s.index)
    && Eldest(s, rules.TriedBucket(k), e) && FirstHolder(s, k, f) && t == Evicted(rules, s, k, e, f)
  }

  lemma TriedFacts(rules: Rules, s: Book, b: int)
    requires s.Healthy(rules) && 0 <= b < TRIED_BUCKET_COUNT
    ensures |s.addrTried[b]| <= TRIED_BUCKET_SIZE && forall k :: k in s.addrTried[b] ==> k in s.index && s.index[k].tried
  {
    assert s.TriedOk(rules, b);
    forall k | k in s.addrTried[b] ensures s.index[k].tried {
      assert s.KeyOk(rules, k);
    }
  }

  // ---------------------------------------------------------------------------
  // Every operation keeps the books healthy
  // ---------------------------------------------------------------------------

  lemma ExpireMakesRoom(s: Book, b: int, bad: Known -> bool, dropped: set<Key>)
    requires Expires(s, b, bad, dropped) && s.addrNew[b] != {}
    ensures dropped <= s.addrNew[b] && |s.addrNew[b] - dropped| < |s.addrNew[b]|
  {
    var bucket := s.addrNew[b];
    assert dropped != {};
    assert bucket == (bucket - dropped) + dropped;
  }

  lemma PlaceKnown(rules: Rules, s: Book, t: Book, b: int, k: Key, bad: Known -> bool)
    requires s.Healthy(rules) && 0 <= b < NEW_BUCKET_COUNT && k in s.index && Places(s, t, b, k, bad)
    requires !s.index[k].tried && s.index[k].refs < NEW_BUCKETS_PER_ADDRESS
    ensures t.Healthy(rules)
  {
    hide Book.Healthy, Expires;
    BucketSize(rules, s, b);
    if k !in s.addrNew[b] {
      if |s.addrNew[b]| > NEW_BUCKET_SIZE {
        var d :| Expires(s, b, bad, d) && HoldsAfterDrop(s, t, b, k, d);
        ExpireMakesRoom(s, b, bad, d);
        DropHealthy(rules, s, b, d);
        HoldHealthy(rules, DropAll(s, b, d), b, k);
      } else {
        HoldHealthy(rules, s, b, k);
      }
    }
  }

  lemma BucketSize(rules: Rules, s: Book, b: int)
    requires s.Healthy(rules) && 0 <= b < NEW_BUCKET_COUNT
    ensures s.Shaped() && |s.addrNew[b]| <= NEW_BUCKET_SIZE + 1 && s.addrNew[b] <= s.index.Keys
  {
    assert s.NewOk(b);
  }

  /** Dropping other addresses and indexing `k` can be done in either order. */
  lemma PendDrop(s: Book, b: int, k: Key, ka: Known, dropped: set<Key>)
    requires 0 <= b < |s.addrNew| && k !in s.index && k !in dropped
    ensures DropAll(Pend(s, k, ka), b, dropped) == Pend(DropAll(s, b, dropped), k, ka)
  {
    assert LastHeld(s.index[k := ka], dropped) == LastHeld(s.index, dropped);
    assert Thinned(s.index[k := ka], dropped) == Thinned(s.index, dropped)[k := ka];
  }

  lemma PlaceUnknown(rules: Rules, s: Book, t: Book, b: int, k: Key, ka: Known, bad: Known -> bool)
    requires s.Healthy(rules) && 0 <= b < NEW_BUCKET_COUNT && k !in s.index && Unheld(ka, k)
    requires Places(Pend(s, k, ka), t, b, k, bad)
    ensures t.Healthy(rules)
  {
    hide Book.Healthy, Expires, Thinned, LastHeld;
    BucketSize(rules, s, b);
    var p := Pend(s, k, ka);
    NotInBucket(rules, s, b, k);
    if |s.addrNew[b]| > NEW_BUCKET_SIZE {
      var d :| Expires(p, b, bad, d) && HoldsAfterDrop(p, t, b, k, d);
      ExpireMakesRoom(p, b, bad, d);
      PendDrop(s, b, k, ka, d);
      DropHealthy(rules, s, b, d);
      DropForgets(s, b, d, k);
      FreshHealthy(rules, DropAll(s, b, d), b, k, ka);
    } else {
      FreshHealthy(rules, s, b, k, ka);
    }
  }

  lemma DropForgets(s: Book, b: int, dropped: set<Key>, k: Key)
    requires 0 <= b < |s.addrNew| && k !in s.index
    ensures k !in DropAll(s, b, dropped).index
  {
  }

  lemma UpdateHealthy(rules: Rules, s: Book, t: Book, na: NetAddress, src: NetAddress, roll: nat, bad: Known -> bool)
    requires s.Healthy(rules) && Updates(rules, s, t, na, src, roll, bad)
    ensures t.Healthy(rules)
  {
    hide Book.Healthy, Places;
    var k, b := na.key, rules.NewBucket(na.key, src.key);
    if rules.routable(k) {
      if k in s.index {
        KeyFacts(rules, s, k);
        var ka := s.index[k];
        SetHealthy(rules, s, k, Freshened(ka, na));
        if !ka.tried && ka.refs != NEW_BUCKETS_PER_ADDRESS && roll % (2 * ka.refs) == 0 {
          PlaceKnown(rules, Set(s, k, Freshened(ka, na)), t, b, k, bad);
        }
      } else {
        PlaceUnknown(rules, s, t, b, k, Unknown(na, src), bad);
      }
    }
  }

  lemma EvictHealthy(rules: Rules, s: Book, t: Book, k: Key, e: int, f: int)
    requires s.Healthy(rules) && Evicts(rules, s, t, k, e, f) && !s.index[k].tried
    ensures t.Healthy(rules)
  {
    hide Book.Healthy, Book.KeyOk, Age;
    BucketSize(rules, s, f);
    var b, d := rules.TriedBucket(k), Detach(s, k);
    var rm := s.addrTried[b][e];
    KeyFacts(rules, s, k);
    TriedEntry(rules, s, b, e);
    KeyFacts(rules, s, rm);
    DetachHealthy(rules, s, k);
    ReplaceTriedHealthy(rules, d, e, k, s.index[k].(tried := true, refs := 0));
    var home := rules.NewBucket(rm, s.index[rm].src.key);
    var back := if |d.addrNew[home]| >= NEW_BUCKET_SIZE then f else home;
    assert d.addrNew[f] == s.addrNew[f] - {k};
    var swapped := ReplaceTried(d, b, e, k, s.index[k].(tried := true, refs := 0));
    FreshHealthy(rules, swapped, back, rm, s.index[rm].(tried := false));
  }

  lemma PromoteHealthy(rules: Rules, s: Book, t: Book, k: Key, now: int)
    requires s.Healthy(rules) && Promotes(rules, s, t, k, now)
    ensures t.Healthy(rules)
  {
    hide Book.Healthy, Evicts;
    if k in s.index {
      var u, b := Set(s, k, Succeeded(s.index[k], now)), rules.TriedBucket(k);
      KeyFacts(rules, s, k);
      SetHealthy(rules, s, k, Succeeded(s.index[k], now));
      BucketSize(rules, s, 0);
      if !s.index[k].tried {
        TriedFacts(rules, u, b);
        if |s.addrTried[b]| < TRIED_BUCKET_SIZE {
          DetachHealthy(rules, u, k);
          AddTriedHealthy(rules, Detach(u, k), k, u.index[k].(tried := true, refs := 0));
        } else {
          var e, f :| Evicts(rules, u, t, k, e, f);
          EvictHealthy(rules, u, t, k, e, f);
        }
      }
    }
  }

  /** The two counters together count the known addresses. */
  lemma CountsAddUp(rules: Rules, s: Book)
    requires s.Healthy(rules)
    ensures s.nNew + s.nTried == |s.index|
  {
    assert s.NewKeys() + s.TriedKeys() == s.index.Keys;
    assert s.NewKeys() * s.TriedKeys() == {};
  }

  /** Promotion loses no address and invents none, even when it evicts one, and it does promote. */
  lemma PromoteConserves(rules: Rules, s: Book, t: Book, k: Key, now: int)
    requires s.Healthy(rules) && Promotes(rules, s, t, k, now)
    ensures t.index.Keys == s.index.Keys && t.nNew + t.nTried == s.nNew + s.nTried
    ensures k in s.index ==> t.index[k].tried && k in t.addrTried[rules.TriedBucket(k)]
  {
    hide Evicts, Book.Healthy;
    PromoteHealthy(rules, s, t, k, now);
    CountsAddUp(rules, s);
    CountsAddUp(rules, t);
    BucketSize(rules, s, 0);
    BucketSize(rules, t, 0);
    if k in s.index {
      var u, b := Set(s, k, Succeeded(s.index[k], now)), rules.TriedBucket(k);
      TriedFacts(rules, s, b);
      if !s.index[k].tried {
        if |s.addrTried[b]| >= TRIED_BUCKET_SIZE {
          var e, f :| Evicts(rules, u, t, k, e, f);
          EvictKeeps(rules, u, t, k, e, f);
        }
      }
      TriedIsListed(rules, t, k);
    }
    assert |t.index.Keys| == |s.index.Keys|;
  }

  lemma TriedIsListed(rules: Rules, s: Book, k: Key)
    requires s.Healthy(rules) && k in s.index && s.index[k].tried
    ensures k in s.addrTried[rules.TriedBucket(k)]
  {
    assert s.KeyOk(rules, k);
  }

  lemma EvictKeeps(rules: Rules, s: Book, t: Book, k: Key, e: int, f: int)
    requires Evicts(rules, s, t, k, e, f) && !s.index[k].tried
    requires forall j :: j in s.addrTried[rules.TriedBucket(k)] ==> j in s.index && s.index[j].tried
    ensures t.index.Keys == s.index.Keys && t.index[k].tried
  {
    hide Age;
  }

  // ---------------------------------------------------------------------------
  // The code
  // ---------------------------------------------------------------------------

  /** One address leaves one bucket. */
  function DropOne(s: Book, b: int, k: Key): (r: Book)
    requires 0 <= b < |s.addrNew| && k in s.index
    ensures |r.addrNew| == |s.addrNew|
  {
    var last := s.index[k].refs == 1;
    Book(if last then s.index - {k} else s.index[k := OneLess(s.index[k])],
         s.addrNew[b := s.addrNew[b] - {k}], s.addrTried, s.nNew - (if last then 1 else 0), s.nTried)
  }

  lemma DropStep(s: Book, b: int, dropped: set<Key>, k: Key)
    requires 0 <= b < |s.addrNew| && k in s.index && k !in dropped
    ensures k in DropAll(s, b, dropped).index && DropAll(s, b, dropped).index[k] == s.index[k]
    ensures DropOne(DropAll(s, b, dropped), b, k) == DropAll(s, b, dropped + {k})
  {
    var more := dropped + {k};
    if s.index[k].refs == 1 {
      assert LastHeld(s.index, more) == LastHeld(s.index, dropped) + {k};
      assert Thinned(s.index, more) == Thinned(s.index, dropped) - {k};
    } else {
      assert LastHeld(s.index, more) == LastHeld(s.index, dropped);
      assert Thinned(s.index, more) == Thinned(s.index, dropped)[k := OneLess(s.index[k])];
    }
    assert s.addrNew[b] - dropped - {k} == s.addrNew[b] - more;
  }

  lemma DropNone(s: Book, b: int)
    requires 0 <= b < |s.addrNew|
    ensures DropAll(s, b, {}) == s
  {
    assert LastHeld(s.index, {}) == {};
    assert Thinned(s.index, {}) == s.index;
    assert s.addrNew[b] - {} == s.addrNew[b];
  }

  /** Buckets below `i` that hold `k`. */
  function HoldersBelow(s: Book, k: Key, i: int): (r: set<int>)
    requires 0 <= i <= |s.addrNew|
  {
    set b | 0 <= b < i && k in s.addrNew[b]
  }

  lemma HoldersBelowStep(s: Book, k: Key, i: int)
    requires 0 <= i < |s.addrNew|
    ensures |HoldersBelow(s, k, i + 1)| == |HoldersBelow(s, k, i)| + if k in s.addrNew[i] then 1 else 0
  {
    if k in s.addrNew[i] {
      assert HoldersBelow(s, k, i + 1) == HoldersBelow(s, k, i) + {i};
    } else {
      assert HoldersBelow(s, k, i + 1) == HoldersBelow(s, k, i);
    }
  }

  class AddrManager {
    const rules: Rules
    var addrIndex: map<Key, Known>
    var addrNew: seq<set<Key>>
    var addrTried: seq<seq<Key>>
    var nNew: int
    var nTried: int

    function State(): (s: Book)
      reads this
    {
      Book(addrIndex, addrNew, addrTried, nNew, nTried)
    }

    ghost predicate Valid()
      reads this
    {
      State().Healthy(rules)
    }

    constructor (rules: Rules)
      ensures this.rules == rules && State() == Empty() && Valid()
    {
      this.rules := rules;
      var s := Empty();
      addrIndex, addrNew, addrTried, nNew, nTried := s.index, s.addrNew, s.addrTried, s.nNew, s.nTried;
      EmptyHealthy(rules);
    }

    /** Takes `k` out of a new bucket, and forgets it when that was the last one. */
    method Release(bucket: int, k: Key)
      requires 0 <= bucket < |addrNew| && k in addrIndex
      modifies this
      ensures State() == DropOne(old(State()), bucket, k)
    {
      addrNew := addrNew[bucket := addrNew[bucket] - {k}];
      addrIndex := addrIndex[k := OneLess(addrIndex[k])];
      if addrIndex[k].refs == 0 {
        nNew := nNew - 1;
        addrIndex := addrIndex - {k};
        assert addrIndex == old(addrIndex) - {k};
      }
    }

    /** Expires the bad addresses of a bucket and looks for an oldest one among the others. */
    method ExpireBad(bucket: int, bad: Known -> bool) returns (oldest: Option<Known>, ghost dropped: set<Key>)
      requires 0 <= bucket < |addrNew| && Readable(State(), bucket)
      modifies this
      ensures Seen(old(State()), bucket, bad, old(addrNew[bucket]), dropped, oldest)
      ensures State() == DropAll(old(State()), bucket, dropped)
    {
      hide DropAll, DropOne, Seen, Readable;
      ghost var s, seen: set<Key> := State(), {};
      dropped, oldest := {}, None;
      DropNone(s, bucket);
      SeenNone(s, bucket, bad);
      var todo := addrNew[bucket];
      while todo != {}
        invariant seen + todo == s.addrNew[bucket] && seen !! todo
        invariant State() == DropAll(s, bucket, dropped)
        invariant Seen(s, bucket, bad, seen, dropped, oldest)
        decreases |todo|
      {
        var k :| k in todo;
        SeenStep(s, bucket, bad, seen, dropped, oldest, k);
        DropStep(s, bucket, dropped, k);
        todo, seen := todo - {k}, seen + {k};
        var v := addrIndex[k];
        if bad(v) {
          Release(bucket, k);
          dropped := dropped + {k};
        } else if oldest.None? || v.na.timestamp <= oldest.value.na.timestamp {
          oldest := Some(v);
        }
      }
      assert seen == s.addrNew[bucket];
    }

    /** Expires the bad addresses of a bucket and an oldest one of the others. */
    method ExpireNew(bucket: int, bad: Known -> bool) returns (ghost dropped: set<Key>)
      requires 0 <= bucket < |addrNew| && Readable(State(), bucket)
      modifies this
      ensures Expires(old(State()), bucket, bad, dropped) && State() == DropAll(old(State()), bucket, dropped)
    {
      hide DropAll, DropOne, Seen, Readable, Expires;
      ghost var s := State();
      var oldest: Option<Known>;
      oldest, dropped := ExpireBad(bucket, bad);
      SeenAll(s, bucket, bad, dropped, oldest);
      if oldest.Some? {
        ghost var o := oldest.value.na.key;
        DropStep(s, bucket, dropped, o);
        Release(bucket, oldest.value.na.key);
        dropped := dropped + {o};
      }
    }

    /** Adds `k` to a bucket, expiring others first when the bucket is over its size. */
    method Place(bucket: int, k: Key, bad: Known -> bool)
      requires 0 <= bucket < |addrNew| && Readable(State(), bucket) && k in addrIndex
      modifies this
      ensures Places(old(State()), State(), bucket, k, bad)
    {
      hide DropAll, Expires, Readable;
      ghost var s := State();
      if k in addrNew[bucket] {
        return;
      }
      if |addrNew[bucket]| > NEW_BUCKET_SIZE {
        ghost var dropped := ExpireNew(bucket, bad);
        DropKeeps(s, bucket, bad, dropped, k);
        assert HoldsAfterDrop(s, Hold(State(), bucket, k), bucket, k, dropped);
      }
      addrIndex := addrIndex[k := addrIndex[k].(refs := addrIndex[k].refs + 1)];
      addrNew := addrNew[bucket := addrNew[bucket] + {k}];
    }

    /** Hears about an address from a source; `roll` stands for the random number generator. */
    method UpdateAddress(netAddr: NetAddress, srcAddr: NetAddress, roll: nat, bad: Known -> bool)
      requires Valid()
      modifies this
      ensures Valid() && Updates(rules, old(State()), State(), netAddr, srcAddr, roll, bad)
    {
      hide Places, Book.Healthy, Readable;
      ghost var s := State();
      if !rules.routable(netAddr.key) {
        return;
      }
      var addr, bucket := netAddr.key, rules.NewBucket(netAddr.key, srcAddr.key);
      HealthyReadable(rules, s, bucket);
      if addr in addrIndex {
        KeyFacts(rules, s, addr);
        var ka := addrIndex[addr];
        if netAddr.timestamp > ka.na.timestamp || !(netAddr.services <= ka.na.services) {
          ka := ka.(na := ka.na.(timestamp := netAddr.timestamp, services := ka.na.services + netAddr.services));
        }
        addrIndex := addrIndex[addr := ka];
        SetReadable(s, bucket, addr, ka);
        if ka.tried || ka.refs == NEW_BUCKETS_PER_ADDRESS || roll % (2 * ka.refs) != 0 {
          UpdateHealthy(rules, s, State(), netAddr, srcAddr, roll, bad);
          return;
        }
      } else {
        addrIndex := addrIndex[addr := Unknown(netAddr, srcAddr)];
        nNew := nNew + 1;
        SetReadable(s, bucket, addr, Unknown(netAddr, srcAddr));
        SameReadable(Set(s, addr, Unknown(netAddr, srcAddr)), State(), bucket);
      }
      Place(bucket, addr, bad);
      UpdateHealthy(rules, s, State(), netAddr, srcAddr, roll, bad);
    }

    /** Finds the eldest entry of a tried list. */
    method PickTried(bucket: int) returns (e: int)
      requires 0 <= bucket < |addrTried| && addrTried[bucket] != []
      requires forall k :: k in addrTried[bucket] ==> k in addrIndex
      ensures Eldest(State(), bucket, e)
    {
      e := 0;
      for i := 1 to |addrTried[bucket]|
        invariant 0 <= e < i
        invariant forall j :: 0 <= j < i ==> Age(State(), bucket, e) <= Age(State(), bucket, j)
        invariant forall j :: 0 <= j < e ==> Age(State(), bucket, e) < Age(State(), bucket, j)
      {
        if Age(State(), bucket, e) > Age(State(), bucket, i) {
          e := i;
        }
      }
    }

    /** Takes `k` out of every new bucket; `oldBucket` is the first that held it, or -1. */
    method LeaveNew(k: Key) returns (oldBucket: int)
      requires k in addrIndex
      modifies this
      ensures addrNew == Without(old(addrNew), k, |old(addrNew)|)
      ensures addrIndex == old(addrIndex)[k := old(addrIndex[k]).(refs := old(addrIndex[k].refs - |State().Holders(k)|))]
      ensures addrTried == old(addrTried) && nNew == old(nNew) && nTried == old(nTried)
      ensures if old(State().Holders(k)) == {} then oldBucket == -1 else FirstHolder(old(State()), k, oldBucket)
    {
      ghost var s := State();
      var ka := addrIndex[k];
      oldBucket := -1;
      assert HoldersBelow(s, k, 0) == {};
      for i := 0 to |addrNew|
        invariant s.addrTried == addrTried && s.nNew == nNew && s.nTried == nTried && s.index == addrIndex
        invariant addrNew == Without(s.addrNew, k, i)
        invariant ka == s.index[k].(refs := s.index[k].refs - |HoldersBelow(s, k, i)|)
        invariant if oldBucket == -1 then forall b :: 0 <= b < i ==> k !in s.addrNew[b] else FirstHolder(s, k, oldBucket)
      {
        HoldersBelowStep(s, k, i);
        if k in addrNew[i] {
          addrNew := addrNew[i := addrNew[i] - {k}];
          ka := ka.(refs := ka.refs - 1);
          if oldBucket == -1 {
            oldBucket := i;
          }
        }
        assert k !in s.addrNew[i] ==> s.addrNew[i] - {k} == s.addrNew[i];
        assert addrNew == Without(s.addrNew, k, i + 1);
      }
      assert HoldersBelow(s, k, |s.addrNew|) == s.Holders(k);
      assert oldBucket != -1 ==> oldBucket in s.Holders(k);
      addrIndex := addrIndex[k := ka];
    }

    /** Moves an address to the tried lists after a successful connection. */
    method Good(addr: Key, now: int)
      requires Valid()
      modifies this
      ensures Valid() && Promotes(rules, old(State()), State(), addr, now)
    {
      hide Book.Healthy, Book.Holders, Eldest, FirstHolder, Without;
      ghost var s := State();
      if addr !in addrIndex {
        return;
      }
      var ka := addrIndex[addr].(lastSuccess := now, lastAttempt := now, attempts := 0);
      addrIndex := addrIndex[addr := ka];
      ghost var u := State();
      KeyFacts(rules, s, addr);
      SetHealthy(rules, s, addr, ka);
      if ka.tried {
        return;
      }
      KeyFacts(rules, u, addr);
      BucketSize(rules, u, 0);
      var oldBucket := LeaveNew(addr);
      nNew := nNew - 1;
      if oldBucket == -1 {
        // Never taken: the address was counted in at least one bucket.
        assert false;
        return;
      }
      var bucket := rules.TriedBucket(addr);
      TriedFacts(rules, u, bucket);
      if |addrTried[bucket]| < TRIED_BUCKET_SIZE {
        addrIndex := addrIndex[addr := addrIndex[addr].(tried := true)];
        addrTried := addrTried[bucket := addrTried[bucket] + [addr]];
        nTried := nTried + 1;
        assert addrIndex == (u.index - {addr})[addr := ka.(tried := true, refs := 0)];
        PromoteHealthy(rules, s, State(), addr, now);
        return;
      }
      Replace(addr, bucket, oldBucket, u);
      PromoteHealthy(rules, s, State(), addr, now);
    }

    /** The rest of `Good` when the tried list is full: the eldest entry goes back to a new bucket. */
    method Replace(addr: Key, bucket: int, oldBucket: int, ghost u: Book)
      requires u.Healthy(rules) && addr in u.index && !u.index[addr].tried && bucket == rules.TriedBucket(addr)
      requires State() == Detach(u, addr).(index := u.index[addr := u.index[addr].(refs := 0)])
      requires |addrTried[bucket]| >= TRIED_BUCKET_SIZE && FirstHolder(u, addr, oldBucket)
      modifies this
      ensures exists e, f :: Evicts(rules, u, State(), addr, e, f)
    {
      hide Book.Healthy, Book.KeyOk, Detach, Evicted, Eldest, Age;
      DetachFields(u, addr);
      BucketSize(rules, u, 0);
      TriedFacts(rules, u, bucket);
      var e := PickTried(bucket);
      EldestSame(u, State(), bucket, addr, e);
      var rmkey := addrTried[bucket][e];
      var rmka := addrIndex[rmkey];
      TriedEntry(rules, u, bucket, e);
      var newBucket := rules.NewBucket(rmkey, rmka.src.key);
      if |addrNew[newBucket]| >= NEW_BUCKET_SIZE {
        newBucket := oldBucket;
      }
      EvictedBook(rules, u, addr, e, oldBucket, newBucket);
      addrTried := addrTried[bucket := addrTried[bucket][e := addr]];
      addrIndex := addrIndex[addr := addrIndex[addr].(tried := true)];
      addrIndex := addrIndex[rmkey := rmka.(tried := false, refs := rmka.refs + 1)];
      addrNew := addrNew[newBucket := addrNew[newBucket] + {rmkey}];
      nNew := nNew + 1;
      assert State() == Evicted(rules, u, addr, e, oldBucket);
      assert Evicts(rules, u, State(), addr, e, oldBucket);
    }

    method Attempt(addr: Key, now: int)
      requires Valid()
      modifies this
      ensures Valid()
      ensures State() == if addr !in old(addrIndex) then old(State()) else
                Set(old(State()), addr, old(addrIndex)[addr].(attempts := old(addrIndex)[addr].attempts + 1, lastAttempt := now))
    {
      hide Book.Healthy;
      if addr in addrIndex {
        var ka := addrIndex[addr];
        KeyFacts(rules, State(), addr);
        SetHealthy(rules, State(), addr, ka.(attempts := ka.attempts + 1, lastAttempt := now));
        addrIndex := addrIndex[addr := ka.(attempts := ka.attempts + 1, lastAttempt := now)];
      }
    }
  }

  lemma DetachFields(s: Book, k: Key)
    ensures Detach(s, k).addrTried == s.addrTried && Detach(s, k).nTried == s.nTried && |Detach(s, k).addrNew| == |s.addrNew|
  {
  }

  /** Eviction, field by field. */
  lemma EvictedBook(rules: Rules, s: Book, k: Key, e: int, f: int, back: int)
    requires s.Shaped() && k in s.index && 0 <= f < |s.addrNew|
    requires var b := rules.TriedBucket(k); 0 <= e < |s.addrTried[b]| && s.addrTried[b][e] in s.index && s.addrTried[b][e] != k
    requires
      var rm := s.addrTried[rules.TriedBucket(k)][e];
      var home := rules.NewBucket(rm, s.index[rm].src.key);
      back == if |Detach(s, k).addrNew[home]| >= NEW_BUCKET_SIZE then f else home
    ensures
      var b := rules.TriedBucket(k);
      var rm := s.addrTried[b][e];
      var mine, rmka := s.index[k].(refs := 0), s.index[rm];
      Evicted(rules, s, k, e, f) ==
        Book(s.index[k := mine][k := mine.(tried := true)][rm := rmka.(tried := false, refs := rmka.refs + 1)],
             Detach(s, k).addrNew[back := Detach(s, k).addrNew[back] + {rm}],
             s.addrTried[b := s.addrTried[b][e := k]], Detach(s, k).nNew + 1, s.nTried)
  {
    hide Without;
    var rm := s.addrTried[rules.TriedBucket(k)][e];
    var mine, rmka := s.index[k].(refs := 0), s.index[rm];
    SwapIndex(s.index, k, rm, mine, mine.(tried := true), rmka.(tried := false), rmka.(tried := false, refs := rmka.refs + 1));
  }

  lemma SwapIndex(index: map<Key, Known>, k: Key, rm: Key, k0: Known, k1: Known, rm0: Known, rm1: Known)
    requires k in index && rm in index && k != rm
    ensures (index - {k} - {rm})[k := k1][rm := rm0][rm := rm1] == index[k := k0][k := k1][rm := rm1]
  {
  }

  lemma HealthyReadable(rules: Rules, s: Book, b: int)
    requires s.Healthy(rules) && 0 <= b < NEW_BUCKET_COUNT
    ensures Readable(s, b)
  {
    assert s.NewOk(b);
    forall k | k in s.addrNew[b] ensures s.index[k].na.key == k {
      assert s.KeyOk(rules, k);
    }
  }

  lemma SetReadable(s: Book, b: int, k: Key, ka: Known)
    requires Readable(s, b) && ka.na.key == k
    ensures Readable(Set(s, k, ka), b)
  {
  }

  lemma SameReadable(s: Book, t: Book, b: int)
    requires Readable(s, b) && s.index == t.index && s.addrNew == t.addrNew
    ensures Readable(t, b)
  {
  }

  lemma DropKeeps(s: Book, b: int, bad: Known -> bool, dropped: set<Key>, k: Key)
    requires Expires(s, b, bad, dropped) && k in s.index && k !in s.addrNew[b]
    ensures k in DropAll(s, b, dropped).index && |DropAll(s, b, dropped).addrNew| == |s.addrNew|
  {
  }

  /** Changing the record of an address outside the list does not change who is eldest. */
  lemma EldestSame(s: Book, t: Book, b: int, k: Key, e: int)
    requires 0 <= b < |s.addrTried| && s.addrTried == t.addrTried && k !in s.addrTried[b]
    requires (forall j :: j in s.addrTried[b] ==> j in s.index) && (forall j :: j in t.addrTried[b] ==> j in t.index)
    requires forall j :: j in s.index && j != k ==> j in t.index && t.index[j] == s.index[j]
    ensures Eldest(t, b, e) <==> Eldest(s, b, e)
  {
    forall i | 0 <= i < |s.addrTried[b]| ensures Age(s, b, i) == Age(t, b, i) {
      assert s.addrTried[b][i] in s.addrTried[b];
    }
  }

  /** What bucket `b` holds is indexed under its own key. */
  predicate Readable(s: Book, b: int) {
    0 <= b < |s.addrNew| && s.addrNew[b] <= s.index.Keys && forall k :: k in s.addrNew[b] ==> s.index[k].na.key == k
  }

  /** The state of the scan for expiry: the bad addresses among those seen, and an oldest good one. */
  ghost predicate Seen(s: Book, b: int, bad: Known -> bool, seen: set<Key>, dropped: set<Key>, oldest: Option<Known>) {
    && Readable(s, b)
    && seen <= s.addrNew[b] && dropped == seen * BadKeys(s, b, bad)
    && (oldest.None? <==> seen == dropped)
    && (oldest.Some? ==> OldestSoFar(s, b, bad, seen, oldest.value))
  }

  lemma SeenNone(s: Book, b: int, bad: Known -> bool)
    requires Readable(s, b)
    ensures Seen(s, b, bad, {}, {}, None)
  {
  }

  lemma SeenStep(s: Book, b: int, bad: Known -> bool, seen: set<Key>, dropped: set<Key>, oldest: Option<Known>, k: Key)
    requires Seen(s, b, bad, seen, dropped, oldest) && 0 <= b < |s.addrNew| && k in s.addrNew[b] && k !in seen
    ensures k in s.index && k !in dropped
    ensures var v := s.index[k];
      if bad(v) then Seen(s, b, bad, seen + {k}, dropped + {k}, oldest)
      else if oldest.None? || v.na.timestamp <= oldest.value.na.timestamp then Seen(s, b, bad, seen + {k}, dropped, Some(v))
      else Seen(s, b, bad, seen + {k}, dropped, oldest)
  {
  }

  lemma SeenAll(s: Book, b: int, bad: Known -> bool, dropped: set<Key>, oldest: Option<Known>)
    requires 0 <= b < |s.addrNew| && Seen(s, b, bad, s.addrNew[b], dropped, oldest)
    ensures oldest.None? ==> Expires(s, b, bad, dropped)
    ensures oldest.Some? ==> var o := oldest.value.na.key;
      o in s.index && o !in dropped && Expires(s, b, bad, dropped + {o})
  {
    if oldest.Some? {
      var o := oldest.value.na.key;
      assert Oldest(s, b, bad, o);
      assert dropped == BadKeys(s, b, bad);
    }
  }

  /** `v` is the record of a good address among `seen` that none of the others there is older than. */
  ghost predicate OldestSoFar(s: Book, b: int, bad: Known -> bool, seen: set<Key>, v: Known)
    requires 0 <= b < |s.addrNew| && s.addrNew[b] <= s.index.Keys
  {
    && v.na.key in seen && v.na.key in s.addrNew[b] && s.index[v.na.key] == v && !bad(v)
    && forall k :: k in seen && k in s.addrNew[b] && !bad(s.index[k]) ==> v.na.timestamp <= s.index[k].na.timestamp
  }
}
