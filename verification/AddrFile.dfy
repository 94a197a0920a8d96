/** Saving the address manager to its file and loading it again. */
module AddrFile {
  import opened AddrBook
  import opened AddrManagers
  import opened ChainTypes

  const SERIALISATION_VERSION := 2
  const NANOS := 1_000_000_000
  const SF_NODE_NETWORK: set<nat> := {0}

  /** One address in the file; times are in seconds. */
  datatype SavedAddress = SavedAddress(addr: Key, src: Key, attempts: int, timestamp: int, lastAttempt: int,
                                       lastSuccess: int, services: set<nat>, srcServices: set<nat>)

  datatype PeersFile = PeersFile(version: int, addresses: seq<SavedAddress>, newBuckets: seq<seq<Key>>,
                                 triedBuckets: seq<seq<Key>>)

  // ---------------------------------------------------------------------------
  // Saving
  // ---------------------------------------------------------------------------

  /** Neither the bucket count nor the tried flag is written. */
  function Saved(k: Key, ka: Known): (r: SavedAddress) {
    SavedAddress(k, ka.src.key, ka.attempts, ka.na.timestamp / NANOS, ka.lastAttempt / NANOS, ka.lastSuccess / NANOS,
                 ka.na.services, ka.src.services)
  }

  /** `list` names each member of `keys` once, in some order. */
  ghost predicate Lists(list: seq<Key>, keys: set<Key>) {
    NoRepeats(list) && forall k :: k in list <==> k in keys
  }

  function Addrs(addresses: seq<SavedAddress>): (r: seq<Key>)
    ensures |r| == |addresses| && forall i :: 0 <= i < |addresses| ==> r[i] == addresses[i].addr
  {
    seq(|addresses|, i requires 0 <= i < |addresses| => addresses[i].addr)
  }

  /** `file` holds the books `s`; maps are written in any order. */
  ghost predicate Saves(s: Book, file: PeersFile) {
    && file.version == SERIALISATION_VERSION
    && Lists(Addrs(file.addresses), s.index.Keys)
    && (forall a :: a in file.addresses ==> a.addr in s.index && a == Saved(a.addr, s.index[a.addr]))
    && |file.newBuckets| == |s.addrNew|
    && (forall b :: 0 <= b < |s.addrNew| ==> Lists(file.newBuckets[b], s.addrNew[b]))
    && file.triedBuckets == s.addrTried
  }

  /** Lists a set in some order. */
  method ListKeys(keys: set<Key>) returns (list: seq<Key>)
    ensures Lists(list, keys)
  {
    var todo := keys;
    list := [];
    while todo != {}
      invariant todo <= keys && Lists(list, keys - todo)
      decreases |todo|
    {
      var k :| k in todo;
      todo := todo - {k};
      list := list + [k];
    }
    assert keys - todo == keys;
  }

  method SaveAddresses(index: map<Key, Known>) returns (addresses: seq<SavedAddress>)
    ensures Lists(Addrs(addresses), index.Keys)
    ensures forall a :: a in addresses ==> a.addr in index && a == Saved(a.addr, index[a.addr])
  {
    var list := ListKeys(index.Keys);
    addresses := [];
    for i := 0 to |list|
      invariant Addrs(addresses) == list[..i]
      invariant forall a :: a in addresses ==> a.addr in index && a == Saved(a.addr, index[a.addr])
    {
      assert list[i] in list;
      addresses := addresses + [Saved(list[i], index[list[i]])];
      assert Addrs(addresses) == list[..i] + [list[i]];
    }
    assert list[..|list|] == list;
  }

  method SavePeers(m: AddrManager) returns (file: PeersFile)
    requires m.Valid()
    ensures Saves(m.State(), file)
  {
    hide Book.Healthy, Lists;
    var addresses := SaveAddresses(m.addrIndex);
    var newBuckets: seq<seq<Key>> := [];
    for i := 0 to |m.addrNew|
      invariant |newBuckets| == i && forall b :: 0 <= b < i ==> Lists(newBuckets[b], m.addrNew[b])
    {
      var list := ListKeys(m.addrNew[i]);
      newBuckets := newBuckets + [list];
    }
    var triedBuckets: seq<seq<Key>> := [];
    for i := 0 to |m.addrTried|
      invariant |triedBuckets| == i && forall b :: 0 <= b < i ==> triedBuckets[b] == m.addrTried[b]
    {
      var list: seq<Key> := [];
      for j := 0 to |m.addrTried[i]|
        invariant list == m.addrTried[i][..j]
      {
        TriedKeyed(m.rules, m.State(), i, j);
        list := list + [m.addrIndex[m.addrTried[i][j]].na.key];
      }
      triedBuckets := triedBuckets + [list];
    }
    file := PeersFile(SERIALISATION_VERSION, addresses, newBuckets, triedBuckets);
  }

  lemma TriedKeyed(rules: Rules, s: Book, b: int, e: int)
    requires s.Healthy(rules) && 0 <= b < |s.addrTried| && 0 <= e < |s.addrTried[b]|
    ensures var k := s.addrTried[b][e]; k in s.index && s.index[k].na.key == k
  {
    TriedEntry(rules, s, b, e);
  }

  // ---------------------------------------------------------------------------
  // Loading
  // ---------------------------------------------------------------------------

  /** The record read for an address: seen now, in no bucket and not tried. */
  function Read(a: SavedAddress, version: int, now: int): (ka: Known) {
    var services := if version == 1 then SF_NODE_NETWORK else a.services;
    var srcServices := if version == 1 then SF_NODE_NETWORK else a.srcServices;
    Known(NetAddress(a.addr, now, services), NetAddress(a.src, now, srcServices), a.attempts,
          a.lastAttempt * NANOS, a.lastSuccess * NANOS, false, 0)
  }

  function LoadAddresses(index: map<Key, Known>, addresses: seq<SavedAddress>, version: int, now: int,
                         parses: Key -> bool): (r: Option<map<Key, Known>>)
    decreases |addresses|
  {
    if addresses == [] then Some(index)
    else
      var a := addresses[0];
      if !parses(a.addr) || !parses(a.src) then None
      else LoadAddresses(index[a.addr := Read(a, version, now)], addresses[1..], version, now, parses)
  }

  /** The records read before the first address that cannot be parsed. */
  function ReadSoFar(index: map<Key, Known>, addresses: seq<SavedAddress>, version: int, now: int,
                     parses: Key -> bool): (r: map<Key, Known>)
    decreases |addresses|
  {
    if addresses == [] || !parses(addresses[0].addr) || !parses(addresses[0].src) then index
    else ReadSoFar(index[addresses[0].addr := Read(addresses[0], version, now)], addresses[1..], version, now, parses)
  }

  /** One more bucket that holds `k`; the first one makes it count as new. */
  function Refer(s: Book, b: int, k: Key): (r: Book)
    requires 0 <= b < |s.addrNew| && k in s.index
  {
    var ka := s.index[k];
    s.(index := s.index[k := ka.(refs := ka.refs + 1)], addrNew := s.addrNew[b := s.addrNew[b] + {k}],
       nNew := s.nNew + if ka.refs == 0 then 1 else 0)
  }

  /** The books so far, or as they were when the file was refused. */
  datatype Loading = Going(book: Book) | Refused(book: Book)

  function LoadBucket(s: Book, b: int, keys: seq<Key>): (r: Loading)
    requires 0 <= b < |s.addrNew|
    ensures |r.book.addrNew| == |s.addrNew| && r.book.addrTried == s.addrTried
    decreases |keys|
  {
    if keys == [] then Going(s)
    else if keys[0] !in s.index then Refused(s)
    else LoadBucket(Refer(s, b, keys[0]), b, keys[1..])
  }

  /** Loads the new buckets from number `b` on. */
  function LoadNew(s: Book, b: int, buckets: seq<seq<Key>>): (r: Loading)
    requires 0 <= b <= |buckets| == |s.addrNew|
    ensures |r.book.addrNew| == |s.addrNew| && r.book.addrTried == s.addrTried
    decreases |buckets| - b
  {
    if b == |buckets| then Going(s)
    else
      var r := LoadBucket(s, b, buckets[b]);
      if r.Refused? then r else LoadNew(r.book, b + 1, buckets)
  }

  function Try(s: Book, b: int, k: Key): (r: Book)
    requires 0 <= b < |s.addrTried| && k in s.index
  {
    s.(index := s.index[k := s.index[k].(tried := true)], addrTried := s.addrTried[b := s.addrTried[b] + [k]],
       nTried := s.nTried + 1)
  }

  function LoadList(s: Book, b: int, keys: seq<Key>): (r: Loading)
    requires 0 <= b < |s.addrTried|
    ensures |r.book.addrTried| == |s.addrTried|
    decreases |keys|
  {
    if keys == [] then Going(s)
    else if keys[0] !in s.index then Refused(s)
    else LoadList(Try(s, b, keys[0]), b, keys[1..])
  }

  function LoadTried(s: Book, b: int, lists: seq<seq<Key>>): (r: Loading)
    requires 0 <= b <= |lists| == |s.addrTried|
    decreases |lists| - b
  {
    if b == |lists| then Going(s)
    else
      var r := LoadList(s, b, lists[b]);
      if r.Refused? then r else LoadTried(r.book, b + 1, lists)
  }

  /** The loader's sanity check: every address is new or tried, and not both. */
  predicate Sane(s: Book) {
    forall k :: k in s.index ==> (s.index[k].refs == 0 ==> s.index[k].tried) && (s.index[k].refs > 0 ==> !s.index[k].tried)
  }

  /** A file with the right number of buckets. */
  predicate WellSized(file: PeersFile) {
    |file.newBuckets| == NEW_BUCKET_COUNT && |file.triedBuckets| == TRIED_BUCKET_COUNT
  }

  /** Reads a file into an empty address manager. */
  function Load(file: PeersFile, now: int, parses: Key -> bool): (r: Loading)
    requires WellSized(file)
  {
    if file.version > SERIALISATION_VERSION then Refused(Empty())
    else
      var index := LoadAddresses(map[], file.addresses, file.version, now, parses);
      if index.None? then Refused(Empty().(index := ReadSoFar(map[], file.addresses, file.version, now, parses)))
      else
        var withNew := LoadNew(Empty().(index := index.value), 0, file.newBuckets);
        if withNew.Refused? then withNew
        else
          var all := LoadTried(withNew.book, 0, file.triedBuckets);
          if all.Going? && !Sane(all.book) then Refused(all.book) else all
  }

  // ---------------------------------------------------------------------------
  // Loading what was saved
  // ---------------------------------------------------------------------------

  /** What a restart does to a record: times lose their fractions, and the address was seen now. */
  function Reloaded(ka: Known, now: int): (r: Known) {
    ka.(na := ka.na.(timestamp := now), src := ka.src.(timestamp := now),
        lastAttempt := ka.lastAttempt / NANOS * NANOS, lastSuccess := ka.lastSuccess / NANOS * NANOS)
  }

  function Restored(s: Book, now: int): (r: Book) {
    s.(index := map k | k in s.index :: Reloaded(s.index[k], now))
  }

  lemma {:induction false} LoadAddressesFacts(index: map<Key, Known>, addresses: seq<SavedAddress>, version: int, now: int,
                                              parses: Key -> bool)
    requires NoRepeats(Addrs(addresses)) && forall i :: 0 <= i < |addresses| ==> parses(addresses[i].addr) && parses(addresses[i].src)
    ensures var r := LoadAddresses(index, addresses, version, now, parses);
      && r.Some?
      && (forall k :: k in r.value <==> k in index || k in Addrs(addresses))
      && (forall k :: k in index && k !in Addrs(addresses) ==> r.value[k] == index[k])
      && (forall i :: 0 <= i < |addresses| ==> r.value[addresses[i].addr] == Read(addresses[i], version, now))
    decreases |addresses|
  {
    hide Read;
    if addresses != [] {
      var a, rest := addresses[0], addresses[1..];
      AddrsOfRest(addresses);
      LoadAddressesFacts(index[a.addr := Read(a, version, now)], rest, version, now, parses);
      var r := LoadAddresses(index, addresses, version, now, parses);
      forall i | 0 <= i < |addresses| ensures r.value[addresses[i].addr] == Read(addresses[i], version, now) {
        if i > 0 { assert addresses[i] == rest[i - 1]; }
      }
    }
  }

  lemma AddrsOfRest(addresses: seq<SavedAddress>)
    requires addresses != [] && NoRepeats(Addrs(addresses))
    ensures NoRepeats(Addrs(addresses[1..])) && addresses[0].addr !in Addrs(addresses[1..])
    ensures Addrs(addresses) == [addresses[0].addr] + Addrs(addresses[1..])
  {
  }

  /** The books after the buckets below `i` and the keys `done` of bucket `i` have been loaded. */
  ghost function WithNew(s: Book, now: int, i: int, done: set<Key>): (r: Book)
    requires s.Shaped() && 0 <= i <= NEW_BUCKET_COUNT
  {
    Book(map k | k in s.index :: NewSoFar(s, now, i, done, k),
         seq(NEW_BUCKET_COUNT, b => if 0 <= b < i then s.addrNew[b] else if b == i then done else {}),
         Empty().addrTried, |ReferredTo(s, i, done)|, 0)
  }

  ghost function NewSoFar(s: Book, now: int, i: int, done: set<Key>, k: Key): (r: Known)
    requires 0 <= i <= |s.addrNew| && k in s.index
  {
    Reloaded(s.index[k], now).(tried := false, refs := |HoldersBelow(s, k, i)| + if k in done then 1 else 0)
  }

  ghost function ReferredTo(s: Book, i: int, done: set<Key>): (r: set<Key>)
    requires 0 <= i <= |s.addrNew|
  {
    set k | k in s.index && (HoldersBelow(s, k, i) != {} || k in done)
  }

  lemma ReferStep(s: Book, now: int, i: int, done: set<Key>, k: Key)
    requires s.Shaped() && 0 <= i < NEW_BUCKET_COUNT && k in s.index && k !in done
    ensures Refer(WithNew(s, now, i, done), i, k) == WithNew(s, now, i, done + {k})
  {
    hide Reloaded, HoldersBelow;
    var before, after := WithNew(s, now, i, done), WithNew(s, now, i, done + {k});
    var r := Refer(before, i, k);
    assert before.addrNew[i] == done;
    assert r.addrNew == after.addrNew;
    assert r.index == after.index;
    ReferredStep(s, i, done, k);
  }

  lemma ReferredStep(s: Book, i: int, done: set<Key>, k: Key)
    requires 0 <= i <= |s.addrNew| && k in s.index && k !in done
    ensures |ReferredTo(s, i, done + {k})| == |ReferredTo(s, i, done)| + if |HoldersBelow(s, k, i)| == 0 then 1 else 0
  {
    hide HoldersBelow;
    if HoldersBelow(s, k, i) == {} {
      assert ReferredTo(s, i, done + {k}) == ReferredTo(s, i, done) + {k};
    } else {
      assert ReferredTo(s, i, done + {k}) == ReferredTo(s, i, done);
    }
  }

  lemma NextBucket(s: Book, now: int, i: int)
    requires s.Shaped() && 0 <= i < NEW_BUCKET_COUNT && s.addrNew[i] <= s.index.Keys
    ensures WithNew(s, now, i, s.addrNew[i]) == WithNew(s, now, i + 1, {})
  {
    hide Reloaded;
    var a, b := WithNew(s, now, i, s.addrNew[i]), WithNew(s, now, i + 1, {});
    forall k | k in s.index ensures NewSoFar(s, now, i, s.addrNew[i], k) == NewSoFar(s, now, i + 1, {}, k) {
      HoldersBelowStep(s, k, i);
    }
    assert a.index == b.index;
    assert a.addrNew == b.addrNew;
    forall k | k in s.index
      ensures (HoldersBelow(s, k, i) != {} || k in s.addrNew[i]) <==> HoldersBelow(s, k, i + 1) != {}
    {
      HoldersBelowStep(s, k, i);
    }
    hide HoldersBelow;
    assert ReferredTo(s, i, s.addrNew[i]) == ReferredTo(s, i + 1, {});
  }

  lemma {:induction false} LoadBucketFacts(s: Book, now: int, i: int, done: set<Key>, keys: seq<Key>)
    requires s.Shaped() && 0 <= i < NEW_BUCKET_COUNT && s.addrNew[i] <= s.index.Keys
    requires NoRepeats(keys) && forall k :: k in keys <==> k in s.addrNew[i] && k !in done
    requires done <= s.addrNew[i]
    ensures LoadBucket(WithNew(s, now, i, done), i, keys) == Going(WithNew(s, now, i, s.addrNew[i]))
    decreases |keys|
  {
    hide WithNew, Refer;
    if keys == [] {
      assert done == s.addrNew[i];
    } else {
      var k := keys[0];
      assert k in keys;
      WithNewKeys(s, now, i, done);
      ReferStep(s, now, i, done, k);
      assert forall j :: j in keys <==> j == k || j in keys[1..];
      LoadBucketFacts(s, now, i, done + {k}, keys[1..]);
    }
  }

  lemma WithNewKeys(s: Book, now: int, i: int, done: set<Key>)
    requires s.Shaped() && 0 <= i <= NEW_BUCKET_COUNT
    ensures WithNew(s, now, i, done).index.Keys == s.index.Keys && WithNew(s, now, i, done).Shaped()
  {
  }

  lemma {:induction false} LoadNewFacts(rules: Rules, s: Book, now: int, i: int, buckets: seq<seq<Key>>)
    requires s.Healthy(rules) && 0 <= i <= NEW_BUCKET_COUNT == |buckets|
    requires forall b :: 0 <= b < NEW_BUCKET_COUNT ==> Lists(buckets[b], s.addrNew[b])
    ensures WithNew(s, now, i, {}).Shaped() && LoadNew(WithNew(s, now, i, {}), i, buckets) == Going(WithNew(s, now, NEW_BUCKET_COUNT, {}))
    decreases NEW_BUCKET_COUNT - i
  {
    hide WithNew, Book.Healthy;
    BucketSize(rules, s, 0);
    WithNewKeys(s, now, i, {});
    if i < NEW_BUCKET_COUNT {
      BucketSize(rules, s, i);
      assert Lists(buckets[i], s.addrNew[i]);
      LoadBucketFacts(s, now, i, {}, buckets[i]);
      NextBucket(s, now, i);
      LoadNewFacts(rules, s, now, i + 1, buckets);
    }
  }

  /** The keys in the tried lists below `i` and in the first `j` places of list `i`. */
  ghost function Listed(rules: Rules, s: Book, i: int, j: int): (r: set<Key>)
    requires 0 <= i <= |s.addrTried| && 0 <= j && (if i < |s.addrTried| then j <= |s.addrTried[i]| else j == 0)
  {
    set k | k in s.index && (
      (rules.TriedBucket(k) < i && s.index[k].tried) ||
      (rules.TriedBucket(k) == i && i < |s.addrTried| && k in s.addrTried[i][..j]))
  }

  ghost function WithTried(rules: Rules, s: Book, now: int, i: int, j: int): (r: Book)
    requires s.Shaped() && 0 <= i <= |s.addrTried| && 0 <= j && (if i < |s.addrTried| then j <= |s.addrTried[i]| else j == 0)
  {
    Book(map k | k in s.index :: Reloaded(s.index[k], now).(tried := k in Listed(rules, s, i, j)), s.addrNew,
         seq(TRIED_BUCKET_COUNT, b => if 0 <= b < i then s.addrTried[b] else if b == i < TRIED_BUCKET_COUNT then s.addrTried[b][..j] else []),
         s.nNew, |Listed(rules, s, i, j)|)
  }

  lemma TryStep(rules: Rules, s: Book, now: int, i: int, j: int)
    requires s.Healthy(rules) && 0 <= i < TRIED_BUCKET_COUNT && 0 <= j < |s.addrTried[i]|
    ensures var k := s.addrTried[i][j];
      k in s.index && Try(WithTried(rules, s, now, i, j), i, k) == WithTried(rules, s, now, i, j + 1)
  {
    hide Book.Healthy, Reloaded, Listed;
    ListedStep(rules, s, i, j);
    var k := s.addrTried[i][j];
    var r, t := Try(WithTried(rules, s, now, i, j), i, k), WithTried(rules, s, now, i, j + 1);
    assert r.index == t.index;
    assert s.addrTried[i][..j] + [k] == s.addrTried[i][..j + 1];
    assert r.addrTried == t.addrTried;
  }

  lemma ListedStep(rules: Rules, s: Book, i: int, j: int)
    requires s.Healthy(rules) && 0 <= i < TRIED_BUCKET_COUNT && 0 <= j < |s.addrTried[i]|
    ensures s.Shaped() && var k := s.addrTried[i][j];
      k in s.index && k !in Listed(rules, s, i, j) && Listed(rules, s, i, j + 1) == Listed(rules, s, i, j) + {k}
  {
    TriedEntry(rules, s, i, j);
    var k := s.addrTried[i][j];
    assert s.TriedOk(rules, i) && k in s.addrTried[i];
    assert s.addrTried[i][..j + 1] == s.addrTried[i][..j] + [k];
    assert k !in s.addrTried[i][..j];
  }

  lemma NextList(rules: Rules, s: Book, now: int, i: int)
    requires s.Healthy(rules) && 0 <= i < TRIED_BUCKET_COUNT
    ensures WithTried(rules, s, now, i, |s.addrTried[i]|) == WithTried(rules, s, now, i + 1, 0)
  {
    hide Reloaded;
    var list := s.addrTried[i];
    assert list[..|list|] == list;
    forall k | k in s.index && rules.TriedBucket(k) == i ensures k in list <==> s.index[k].tried {
      assert s.KeyOk(rules, k);
    }
    hide Book.Healthy;
    assert Listed(rules, s, i, |list|) == Listed(rules, s, i + 1, 0);
    hide Listed;
    assert WithTried(rules, s, now, i, |list|).addrTried == WithTried(rules, s, now, i + 1, 0).addrTried;
  }

  lemma {:induction false} LoadListFacts(rules: Rules, s: Book, now: int, i: int, j: int)
    requires s.Healthy(rules) && 0 <= i < TRIED_BUCKET_COUNT && 0 <= j <= |s.addrTried[i]|
    ensures WithTried(rules, s, now, i, j).Shaped()
    ensures LoadList(WithTried(rules, s, now, i, j), i, s.addrTried[i][j..]) == Going(WithTried(rules, s, now, i, |s.addrTried[i]|))
    decreases |s.addrTried[i]| - j
  {
    hide WithTried, Book.Healthy, Try;
    BucketSize(rules, s, 0);
    WithTriedKeys(rules, s, now, i, j);
    var rest := s.addrTried[i][j..];
    if rest != [] {
      TryStep(rules, s, now, i, j);
      assert rest[1..] == s.addrTried[i][j + 1..];
      LoadListFacts(rules, s, now, i, j + 1);
    }
  }

  lemma WithTriedKeys(rules: Rules, s: Book, now: int, i: int, j: int)
    requires s.Shaped() && 0 <= i <= |s.addrTried| && 0 <= j && (if i < |s.addrTried| then j <= |s.addrTried[i]| else j == 0)
    ensures WithTried(rules, s, now, i, j).index.Keys == s.index.Keys && WithTried(rules, s, now, i, j).Shaped()
  {
  }

  lemma {:induction false} LoadTriedFacts(rules: Rules, s: Book, now: int, i: int)
    requires s.Healthy(rules) && 0 <= i <= TRIED_BUCKET_COUNT
    ensures WithTried(rules, s, now, i, 0).Shaped()
    ensures LoadTried(WithTried(rules, s, now, i, 0), i, s.addrTried) == Going(WithTried(rules, s, now, TRIED_BUCKET_COUNT, 0))
    decreases TRIED_BUCKET_COUNT - i
  {
    hide WithTried, Book.Healthy;
    BucketSize(rules, s, 0);
    WithTriedKeys(rules, s, now, i, 0);
    if i < TRIED_BUCKET_COUNT {
      assert s.addrTried[i][0..] == s.addrTried[i];
      LoadListFacts(rules, s, now, i, 0);
      NextList(rules, s, now, i);
      LoadTriedFacts(rules, s, now, i + 1);
    }
  }

  /** Once all buckets are loaded, bucket counts and the counter of new addresses are those of the saved books. */
  lemma BucketsLoaded(rules: Rules, s: Book, now: int)
    requires s.Healthy(rules)
    ensures WithNew(s, now, NEW_BUCKET_COUNT, {}) == WithTried(rules, s, now, 0, 0)
  {
    hide Reloaded;
    var a, b := WithNew(s, now, NEW_BUCKET_COUNT, {}), WithTried(rules, s, now, 0, 0);
    forall k | k in s.index
      ensures |HoldersBelow(s, k, NEW_BUCKET_COUNT)| == s.index[k].refs
      ensures (HoldersBelow(s, k, NEW_BUCKET_COUNT) == {}) == s.index[k].tried
    {
      assert s.KeyOk(rules, k);
      assert HoldersBelow(s, k, NEW_BUCKET_COUNT) == s.Holders(k);
    }
    assert s.nNew == |s.NewKeys()|;
    hide HoldersBelow, Book.Healthy;
    assert ReferredTo(s, NEW_BUCKET_COUNT, {}) == s.NewKeys();
    assert Listed(rules, s, 0, 0) == {};
    IndexesAgree(rules, s, now);
    assert a.addrNew == b.addrNew && a.addrTried == b.addrTried;
  }

  lemma IndexesAgree(rules: Rules, s: Book, now: int)
    requires s.Shaped() && Listed(rules, s, 0, 0) == {}
    requires forall k :: k in s.index ==> |HoldersBelow(s, k, NEW_BUCKET_COUNT)| == s.index[k].refs
    ensures WithNew(s, now, NEW_BUCKET_COUNT, {}).index == WithTried(rules, s, now, 0, 0).index
  {
    hide HoldersBelow, Listed;
  }

  lemma ReloadedKeeps(ka: Known, now: int)
    ensures Reloaded(ka, now).(tried := ka.tried) == Reloaded(ka, now)
  {
  }

  lemma ListsLoaded(rules: Rules, s: Book, now: int)
    requires s.Healthy(rules)
    ensures WithTried(rules, s, now, TRIED_BUCKET_COUNT, 0) == Restored(s, now)
  {
    hide Reloaded;
    assert Listed(rules, s, TRIED_BUCKET_COUNT, 0) == s.TriedKeys();
    forall k | k in s.index
      ensures Reloaded(s.index[k], now).(tried := k in Listed(rules, s, TRIED_BUCKET_COUNT, 0)) == Reloaded(s.index[k], now)
    {
      ReloadedKeeps(s.index[k], now);
    }
    hide Listed, Book.Healthy;
    var a, b := WithTried(rules, s, now, TRIED_BUCKET_COUNT, 0), Restored(s, now);
    assert a.index == b.index && a.addrTried == b.addrTried;
  }

  lemma ReadSaved(s: Book, k: Key, now: int)
    requires k in s.index && s.index[k].na.key == k
    ensures Read(Saved(k, s.index[k]), SERIALISATION_VERSION, now) == NewSoFar(s, now, 0, {}, k)
  {
    assert HoldersBelow(s, k, 0) == {};
  }

  /** Before any bucket is loaded, the index holds every saved address, in no bucket and untried. */
  lemma AddressesLoaded(rules: Rules, s: Book, file: PeersFile, now: int, parses: Key -> bool)
    requires s.Healthy(rules) && Saves(s, file)
    requires forall i :: 0 <= i < |file.addresses| ==> parses(file.addresses[i].addr) && parses(file.addresses[i].src)
    ensures var r := LoadAddresses(map[], file.addresses, file.version, now, parses);
      r.Some? && Empty().(index := r.value) == WithNew(s, now, 0, {})
  {
    hide Book.Healthy, Read, Saved, NewSoFar, LoadAddresses;
    LoadAddressesFacts(map[], file.addresses, file.version, now, parses);
    var index := LoadAddresses(map[], file.addresses, file.version, now, parses).value;
    forall k | k in s.index ensures k in index && index[k] == NewSoFar(s, now, 0, {}, k) {
      var i := AddressAt(s, file, k);
      KeyFacts(rules, s, k);
      ReadSaved(s, k, now);
    }
    BucketSize(rules, s, 0);
    NothingLoaded(s, now, index);
  }

  lemma AddressAt(s: Book, file: PeersFile, k: Key) returns (i: int)
    requires Saves(s, file) && k in s.index
    ensures 0 <= i < |file.addresses| && file.addresses[i].addr == k && file.addresses[i] == Saved(k, s.index[k])
    ensures k in Addrs(file.addresses)
  {
    hide Saved;
    i :| 0 <= i < |file.addresses| && Addrs(file.addresses)[i] == k;
    assert file.addresses[i] in file.addresses;
  }

  lemma NothingLoaded(s: Book, now: int, index: map<Key, Known>)
    requires s.Shaped() && index.Keys == s.index.Keys && forall k :: k in s.index ==> index[k] == NewSoFar(s, now, 0, {}, k)
    ensures Empty().(index := index) == WithNew(s, now, 0, {})
  {
    hide NewSoFar;
    var b := WithNew(s, now, 0, {});
    assert index == b.index;
    assert Empty().addrNew == b.addrNew;
    assert ReferredTo(s, 0, {}) == {};
  }

  lemma RestoredHealthy(rules: Rules, s: Book, now: int)
    requires s.Healthy(rules)
    ensures Restored(s, now).Healthy(rules) && Sane(Restored(s, now))
  {
    var t := Restored(s, now);
    forall k | k in t.index ensures t.KeyOk(rules, k) {
      assert s.KeyOk(rules, k);
      assert t.Holders(k) == s.Holders(k);
    }
    forall b | 0 <= b < NEW_BUCKET_COUNT ensures t.NewOk(b) { assert s.NewOk(b); }
    forall b | 0 <= b < TRIED_BUCKET_COUNT ensures t.TriedOk(rules, b) { assert s.TriedOk(rules, b); }
    assert t.NewKeys() == s.NewKeys() && t.TriedKeys() == s.TriedKeys();
    forall k | k in t.index ensures (t.index[k].refs == 0 ==> t.index[k].tried) && (t.index[k].refs > 0 ==> !t.index[k].tried) {
      assert t.KeyOk(rules, k);
    }
  }

  /**
   Loading a saved file always succeeds, passes the sanity check and gives back the same buckets,
   the same tried lists in the same order, the same counts, flags and counters.
   */
  lemma LoadSaved(rules: Rules, s: Book, file: PeersFile, now: int, parses: Key -> bool)
    requires s.Healthy(rules) && Saves(s, file)
    requires forall i :: 0 <= i < |file.addresses| ==> parses(file.addresses[i].addr) && parses(file.addresses[i].src)
    ensures WellSized(file) && Load(file, now, parses) == Going(Restored(s, now)) && Restored(s, now).Healthy(rules)
  {
    hide Book.Healthy, WithNew, WithTried, LoadNew, LoadTried, LoadAddresses, Restored, Sane;
    BucketSize(rules, s, 0);
    AddressesLoaded(rules, s, file, now, parses);
    LoadNewFacts(rules, s, now, 0, file.newBuckets);
    BucketsLoaded(rules, s, now);
    LoadTriedFacts(rules, s, now, 0);
    ListsLoaded(rules, s, now);
    RestoredHealthy(rules, s, now);
  }

  // ---------------------------------------------------------------------------
  // A refused file
  // ---------------------------------------------------------------------------

  /** What is left after a refused file: buckets and index are cleared, the counters are not. */
  function AfterReset(s: Book): (r: Book) {
    Empty().(nNew := s.nNew, nTried := s.nTried)
  }

  function FirstListed(lists: seq<seq<Key>>, b: int): (k: Option<Key>)
    requires 0 <= b <= |lists|
    decreases |lists| - b
  {
    if b == |lists| then None else if lists[b] != [] then Some(lists[b][0]) else FirstListed(lists, b + 1)
  }

  /** The first key that a bucket or list of the file names is one of the file's addresses. */
  predicate CountsSome(file: PeersFile, now: int, parses: Key -> bool) {
    && file.version <= SERIALISATION_VERSION
    && LoadAddresses(map[], file.addresses, file.version, now, parses).Some?
    && var first := FirstListed(file.newBuckets + file.triedBuckets, 0);
       first.Some? && first.value in Addrs(file.addresses)
  }

  lemma {:induction false} BucketCounts(s: Book, b: int, keys: seq<Key>)
    requires 0 <= b < |s.addrNew|
    ensures var t := LoadBucket(s, b, keys).book; t.nNew >= s.nNew && t.nTried == s.nTried
    ensures keys != [] && keys[0] in s.index && s.index[keys[0]].refs == 0 ==> LoadBucket(s, b, keys).book.nNew > s.nNew
    decreases |keys|
  {
    if keys != [] && keys[0] in s.index {
      BucketCounts(Refer(s, b, keys[0]), b, keys[1..]);
    }
  }

  lemma {:induction false} NewCounts(s: Book, b: int, buckets: seq<seq<Key>>)
    requires 0 <= b <= |buckets| == |s.addrNew|
    ensures var t := LoadNew(s, b, buckets).book; t.nNew >= s.nNew && t.nTried == s.nTried
    decreases |buckets| - b
  {
    if b < |buckets| {
      BucketCounts(s, b, buckets[b]);
      NewCounts(LoadBucket(s, b, buckets[b]).book, b + 1, buckets);
    }
  }

  lemma {:induction false} ListCounts(s: Book, b: int, keys: seq<Key>)
    requires 0 <= b < |s.addrTried|
    ensures var t := LoadList(s, b, keys).book; t.nTried >= s.nTried && t.nNew == s.nNew
    ensures keys != [] && keys[0] in s.index ==> LoadList(s, b, keys).book.nTried > s.nTried
    decreases |keys|
  {
    if keys != [] && keys[0] in s.index {
      ListCounts(Try(s, b, keys[0]), b, keys[1..]);
    }
  }

  lemma {:induction false} TriedCounts(s: Book, b: int, lists: seq<seq<Key>>)
    requires 0 <= b <= |lists| == |s.addrTried|
    ensures var t := LoadTried(s, b, lists).book; t.nTried >= s.nTried && t.nNew == s.nNew
    decreases |lists| - b
  {
    if b < |lists| {
      ListCounts(s, b, lists[b]);
      TriedCounts(LoadList(s, b, lists[b]).book, b + 1, lists);
    }
  }

  /** Loading the new buckets counts something exactly when the first key they name is known. */
  lemma {:induction false} FirstNew(s: Book, b: int, buckets: seq<seq<Key>>)
    requires 0 <= b <= |buckets| == |s.addrNew| && forall k :: k in s.index ==> s.index[k].refs == 0
    ensures var first, r := FirstListed(buckets, b), LoadNew(s, b, buckets);
      && (first.None? ==> r == Going(s))
      && (first.Some? && first.value !in s.index ==> r == Refused(s))
      && (first.Some? && first.value in s.index ==> r.book.nNew > s.nNew)
    decreases |buckets| - b
  {
    if b < |buckets| {
      if buckets[b] == [] {
        FirstNew(s, b + 1, buckets);
      } else {
        BucketCounts(s, b, buckets[b]);
        NewCounts(LoadBucket(s, b, buckets[b]).book, b + 1, buckets);
      }
    }
  }

  lemma {:induction false} FirstTried(s: Book, b: int, lists: seq<seq<Key>>)
    requires 0 <= b <= |lists| == |s.addrTried|
    ensures var first, r := FirstListed(lists, b), LoadTried(s, b, lists);
      && (first.None? ==> r == Going(s))
      && (first.Some? && first.value !in s.index ==> r == Refused(s))
      && (first.Some? && first.value in s.index ==> r.book.nTried > s.nTried)
    decreases |lists| - b
  {
    if b < |lists| {
      if lists[b] == [] {
        FirstTried(s, b + 1, lists);
      } else {
        ListCounts(s, b, lists[b]);
        TriedCounts(LoadList(s, b, lists[b]).book, b + 1, lists);
      }
    }
  }

  lemma {:induction false} FirstOfBoth(a: seq<seq<Key>>, c: seq<seq<Key>>, b: int)
    requires 0 <= b <= |a|
    ensures FirstListed(a + c, b) == if FirstListed(a, b).Some? then FirstListed(a, b) else FirstListed(c, 0)
    decreases |a| - b
  {
    if b < |a| {
      FirstOfBoth(a, c, b + 1);
    } else {
      FirstOfRest(a, c, 0);
    }
  }

  lemma {:induction false} FirstOfRest(a: seq<seq<Key>>, c: seq<seq<Key>>, b: int)
    requires 0 <= b <= |c|
    ensures FirstListed(a + c, |a| + b) == FirstListed(c, b)
    decreases |c| - b
  {
    if b < |c| {
      FirstOfRest(a, c, b + 1);
    }
  }

  /** The keys of the loaded index, and that nothing is in a bucket yet. */
  lemma {:induction false} LoadedIndex(index: map<Key, Known>, addresses: seq<SavedAddress>, version: int, now: int, parses: Key -> bool)
    requires LoadAddresses(index, addresses, version, now, parses).Some? && forall k :: k in index ==> index[k].refs == 0
    ensures var r := LoadAddresses(index, addresses, version, now, parses).value;
      (forall k :: k in r <==> k in index || k in Addrs(addresses)) && (forall k :: k in r ==> r[k].refs == 0)
    decreases |addresses|
  {
    if addresses != [] {
      var a := addresses[0];
      assert Addrs(addresses) == [a.addr] + Addrs(addresses[1..]);
      LoadedIndex(index[a.addr := Read(a, version, now)], addresses[1..], version, now, parses);
    }
  }

  /** The counters after reading a file are zero unless it counts some address before it is refused. */
  lemma LoadCounts(file: PeersFile, now: int, parses: Key -> bool)
    requires WellSized(file)
    ensures var s := Load(file, now, parses).book; (s.nNew == 0 && s.nTried == 0) <==> !CountsSome(file, now, parses)
  {
    hide LoadNew, LoadTried, LoadAddresses, FirstListed, Sane;
    var index := LoadAddresses(map[], file.addresses, file.version, now, parses);
    if file.version <= SERIALISATION_VERSION && index.Some? {
      LoadedIndex(map[], file.addresses, file.version, now, parses);
      var s := Empty().(index := index.value);
      FirstOfBoth(file.newBuckets, file.triedBuckets, 0);
      FirstNew(s, 0, file.newBuckets);
      NewCounts(s, 0, file.newBuckets);
      var t := LoadNew(s, 0, file.newBuckets);
      if t.Going? {
        FirstTried(t.book, 0, file.triedBuckets);
        TriedCounts(t.book, 0, file.triedBuckets);
      }
    }
  }

  /** A refused file leaves usable books exactly when nothing had been counted yet. */
  lemma RefusedFile(rules: Rules, file: PeersFile, now: int, parses: Key -> bool)
    requires WellSized(file) && Load(file, now, parses).Refused?
    ensures AfterReset(Load(file, now, parses).book).Healthy(rules) <==> !CountsSome(file, now, parses)
  {
    hide Load, CountsSome;
    var s := Load(file, now, parses).book;
    LoadCounts(file, now, parses);
    EmptyHealthy(rules);
    assert AfterReset(s).NewKeys() == {} && AfterReset(s).TriedKeys() == {};
    if s.nNew == 0 && s.nTried == 0 {
      assert AfterReset(s) == Empty();
    }
  }

  /** A file whose first bucket names a known and then an unknown address leaves a wrong counter. */
  lemma RefusedFileExample(rules: Rules, a: SavedAddress, stranger: Key, now: int)
    requires a.addr != stranger
    ensures
      var file := PeersFile(SERIALISATION_VERSION, [a], seq(NEW_BUCKET_COUNT, b => if b == 0 then [a.addr, stranger] else []),
                            seq(TRIED_BUCKET_COUNT, b => []));
      var r := Load(file, now, k => true);
      r.Refused? && !AfterReset(r.book).Healthy(rules)
  {
    var file := PeersFile(SERIALISATION_VERSION, [a], seq(NEW_BUCKET_COUNT, b => if b == 0 then [a.addr, stranger] else []),
                          seq(TRIED_BUCKET_COUNT, b => []));
    var parses: Key -> bool := k => true;
    var index := map[a.addr := Read(a, file.version, now)];
    assert LoadAddresses(map[], [a], file.version, now, parses) == LoadAddresses(index, [], file.version, now, parses);
    var s := Empty().(index := index);
    assert file.newBuckets[0][1..] == [stranger];
    assert LoadBucket(s, 0, file.newBuckets[0]) == LoadBucket(Refer(s, 0, a.addr), 0, [stranger]);
    assert LoadNew(s, 0, file.newBuckets).Refused?;
    assert (file.newBuckets + file.triedBuckets)[0] == file.newBuckets[0];
    assert Addrs([a])[0] == a.addr;
    RefusedFile(rules, file, now, parses);
  }

  // ---------------------------------------------------------------------------
  // The loader
  // ---------------------------------------------------------------------------

  method LoadIndex(m: AddrManager, file: PeersFile, now: int, parses: Key -> bool) returns (ok: bool)
    requires m.State() == Empty()
    modifies m
    ensures var r := LoadAddresses(map[], file.addresses, file.version, now, parses);
      && ok == r.Some? && (ok ==> m.State() == Empty().(index := r.value))
      && (!ok ==> m.State() == Empty().(index := ReadSoFar(map[], file.addresses, file.version, now, parses)))
  {
    hide Read;
    ghost var sofar := ReadSoFar(map[], file.addresses, file.version, now, parses);
    ghost var all := LoadAddresses(map[], file.addresses, file.version, now, parses);
    assert file.addresses[0..] == file.addresses;
    for i := 0 to |file.addresses|
      invariant LoadAddresses(m.addrIndex, file.addresses[i..], file.version, now, parses) == all
      invariant ReadSoFar(m.addrIndex, file.addresses[i..], file.version, now, parses) == sofar
      invariant m.State() == Empty().(index := m.addrIndex)
    {
      var a := file.addresses[i];
      assert file.addresses[i..][1..] == file.addresses[i + 1..];
      if !parses(a.addr) || !parses(a.src) {
        return false;
      }
      m.addrIndex := m.addrIndex[a.addr := Read(a, file.version, now)];
    }
    return true;
  }

  method LoadBuckets(m: AddrManager, buckets: seq<seq<Key>>) returns (ok: bool)
    requires |buckets| == |m.addrNew|
    modifies m
    ensures LoadNew(old(m.State()), 0, buckets) == if ok then Going(m.State()) else Refused(m.State())
  {
    hide Refer;
    ghost var all := LoadNew(m.State(), 0, buckets);
    for i := 0 to |buckets|
      invariant |m.addrNew| == |buckets| && LoadNew(m.State(), i, buckets) == all
    {
      ghost var r := LoadBucket(m.State(), i, buckets[i]);
      assert buckets[i][0..] == buckets[i];
      for j := 0 to |buckets[i]|
        invariant |m.addrNew| == |buckets| && LoadBucket(m.State(), i, buckets[i][j..]) == r
      {
        var k := buckets[i][j];
        assert buckets[i][j..][1..] == buckets[i][j + 1..];
        if k !in m.addrIndex {
          return false;
        }
        ReferOne(m, i, k);
      }
    }
    return true;
  }

  method ReferOne(m: AddrManager, b: int, k: Key)
    requires 0 <= b < |m.addrNew| && k in m.addrIndex
    modifies m
    ensures m.State() == Refer(old(m.State()), b, k) && |m.addrNew| == old(|m.addrNew|)
  {
    var ka := m.addrIndex[k];
    if ka.refs == 0 {
      m.nNew := m.nNew + 1;
    }
    m.addrIndex := m.addrIndex[k := ka.(refs := ka.refs + 1)];
    m.addrNew := m.addrNew[b := m.addrNew[b] + {k}];
  }

  method LoadLists(m: AddrManager, lists: seq<seq<Key>>) returns (ok: bool)
    requires |lists| == |m.addrTried|
    modifies m
    ensures LoadTried(old(m.State()), 0, lists) == if ok then Going(m.State()) else Refused(m.State())
  {
    hide Try;
    ghost var all := LoadTried(m.State(), 0, lists);
    for i := 0 to |lists|
      invariant |m.addrTried| == |lists| && LoadTried(m.State(), i, lists) == all
    {
      ghost var r := LoadList(m.State(), i, lists[i]);
      assert lists[i][0..] == lists[i];
      for j := 0 to |lists[i]|
        invariant |m.addrTried| == |lists| && LoadList(m.State(), i, lists[i][j..]) == r
      {
        var k := lists[i][j];
        assert lists[i][j..][1..] == lists[i][j + 1..];
        if k !in m.addrIndex {
          return false;
        }
        TryOne(m, i, k);
      }
    }
    return true;
  }

  method TryOne(m: AddrManager, b: int, k: Key)
    requires 0 <= b < |m.addrTried| && k in m.addrIndex
    modifies m
    ensures m.State() == Try(old(m.State()), b, k) && |m.addrTried| == old(|m.addrTried|)
  {
    m.addrIndex := m.addrIndex[k := m.addrIndex[k].(tried := true)];
    m.nTried := m.nTried + 1;
    m.addrTried := m.addrTried[b := m.addrTried[b] + [k]];
  }

  method CheckSane(index: map<Key, Known>) returns (ok: bool)
    ensures ok <==> forall k :: k in index ==> (index[k].refs == 0 ==> index[k].tried) && (index[k].refs > 0 ==> !index[k].tried)
  {
    var todo := index.Keys;
    while todo != {}
      invariant todo <= index.Keys
      invariant forall k :: k in index && k !in todo ==> (index[k].refs == 0 ==> index[k].tried) && (index[k].refs > 0 ==> !index[k].tried)
      decreases |todo|
    {
      var k :| k in todo;
      todo := todo - {k};
      var v := index[k];
      if (v.refs == 0 && !v.tried) || (v.refs > 0 && v.tried) {
        return false;
      }
    }
    return true;
  }

  method DeserializePeers(m: AddrManager, file: PeersFile, now: int, parses: Key -> bool) returns (ok: bool)
    requires m.State() == Empty() && WellSized(file)
    modifies m
    ensures var r := Load(file, now, parses);
      ok == r.Going? && m.State() == r.book
  {
    hide LoadNew, LoadTried, LoadAddresses, ReadSoFar;
    if file.version > SERIALISATION_VERSION {
      return false;
    }
    ok := LoadIndex(m, file, now, parses);
    if !ok {
      return;
    }
    ok := LoadBuckets(m, file.newBuckets);
    if !ok {
      return;
    }
    ok := LoadLists(m, file.triedBuckets);
    if !ok {
      return;
    }
    ok := CheckSane(m.addrIndex);
  }

  /** Loads a file, or starts afresh when it is refused. */
  method LoadPeers(m: AddrManager, file: PeersFile, now: int, parses: Key -> bool)
    requires m.State() == Empty() && WellSized(file)
    modifies m
    ensures var r := Load(file, now, parses); m.State() == if r.Going? then r.book else AfterReset(r.book)
  {
    hide Load;
    var ok := DeserializePeers(m, file, now, parses);
    if !ok {
      m.addrIndex := map[];
      m.addrNew, m.addrTried := Empty().addrNew, Empty().addrTried;
    }
  }

  /** Saving one address manager and loading the file into a new one. */
  method Restart(m: AddrManager, now: int, parses: Key -> bool) returns (n: AddrManager)
    requires m.Valid() && forall k :: k in m.addrIndex ==> parses(k) && parses(m.addrIndex[k].src.key)
    ensures fresh(n) && n.rules == m.rules && n.Valid() && n.State() == Restored(m.State(), now)
  {
    hide Load, Restored, Book.Healthy;
    var file := SavePeers(m);
    SavedParse(m.State(), file, parses);
    LoadSaved(m.rules, m.State(), file, now, parses);
    n := new AddrManager(m.rules);
    LoadPeers(n, file, now, parses);
  }

  lemma SavedParse(s: Book, file: PeersFile, parses: Key -> bool)
    requires Saves(s, file) && forall k :: k in s.index ==> parses(k) && parses(s.index[k].src.key)
    ensures forall i :: 0 <= i < |file.addresses| ==> parses(file.addresses[i].addr) && parses(file.addresses[i].src)
  {
    forall i | 0 <= i < |file.addresses| ensures parses(file.addresses[i].addr) && parses(file.addresses[i].src) {
      assert file.addresses[i] in file.addresses;
    }
  }
}
