/** The cache of checkpoint filter headers, whatever the hashes are. */
module CheckptCache {
  import opened ChainTypes

  datatype Entry<H> = Entry(blockHash: H, filterHeader: H)

  /** The filter header of a block, if the index has it. */
  type Lookup<!H> = H -> Option<H>

  predicate AllFound<H>(hashes: seq<H>, lookup: Lookup<H>) {
    forall i :: 0 <= i < |hashes| ==> lookup(hashes[i]).Some?
  }

  /** Whatever the index has for a block is the filter header of that block. */
  ghost predicate Sound<H(!new)>(lookup: Lookup<H>, header: H -> H) {
    forall h :: lookup(h).Some? ==> lookup(h).value == header(h)
  }

  /** The answer without a cache. */
  function Direct<H>(hashes: seq<H>, header: H -> H): (headers: seq<H>)
    ensures |headers| == |hashes|
  {
    seq(|hashes|, i requires 0 <= i < |hashes| => header(hashes[i]))
  }

  function Headers<H>(entries: seq<Entry<H>>): (headers: seq<H>)
    ensures |headers| == |entries|
  {
    seq(|entries|, i requires 0 <= i < |entries| => entries[i].filterHeader)
  }

  /** The cache with room for `n` entries; new ones are zero. */
  function Grown<H>(cache: seq<Entry<H>>, n: nat, zero: H): (r: seq<Entry<H>>)
    ensures |r| == if n > |cache| then n else |cache|
  {
    if n > |cache| then cache + seq(n - |cache|, _ => Entry(zero, zero)) else cache
  }

  /** The largest number of entries, at most `f`, whose last one matches. */
  function Fork<H(==)>(cache: seq<Entry<H>>, hashes: seq<H>, f: nat): (r: nat)
    requires f <= |hashes| <= |cache|
    ensures r <= f
  {
    if f == 0 || cache[f - 1].blockHash == hashes[f - 1] then f else Fork(cache, hashes, f - 1)
  }

  /** How far lookups from `i` on succeed. */
  function FoundUpTo<H>(hashes: seq<H>, lookup: Lookup<H>, i: nat): (r: nat)
    requires i <= |hashes|
    ensures i <= r <= |hashes|
    decreases |hashes| - i
  {
    if i == |hashes| || lookup(hashes[i]).None? then i else FoundUpTo(hashes, lookup, i + 1)
  }

  /** Entries from `from` up to `to` are overwritten with what was looked up. */
  function Fill<H>(cache: seq<Entry<H>>, hashes: seq<H>, lookup: Lookup<H>, from: nat, to: nat): (r: seq<Entry<H>>)
    requires from <= to <= |hashes| <= |cache|
    ensures |r| == |cache|
  {
    seq(|cache|, j requires 0 <= j < |cache| =>
      if from <= j < to && lookup(hashes[j]).Some? then Entry(hashes[j], lookup(hashes[j]).value) else cache[j])
  }

  /**
   The answer to one request and the cache after it. `reused` says whether growing the cache
   reused its memory: then entries written before a failed lookup stay visible.
   */
  function Serve<H(==)>(cache: seq<Entry<H>>, hashes: seq<H>, zero: H, lookup: Lookup<H>, reused: bool)
    : (r: (Option<seq<H>>, seq<Entry<H>>))
  {
    var grown := Grown(cache, |hashes|, zero);
    var fork := Fork(grown, hashes, |hashes|);
    var found := FoundUpTo(hashes, lookup, fork);
    var filled := Fill(grown, hashes, lookup, fork, found);
    if found == |hashes| then
      (Some(Headers(grown[..fork]) + Headers(filled[fork..found])), if |hashes| > |cache| then filled else cache)
    else (None, if |hashes| > |cache| && reused then filled[..|cache|] else cache)
  }

  lemma GrownAt<H>(cache: seq<Entry<H>>, n: nat, zero: H, i: nat)
    requires i < |Grown(cache, n, zero)|
    ensures Grown(cache, n, zero)[i] == if i < |cache| then cache[i] else Entry(zero, zero)
  {
  }

  lemma {:induction false} ForkFacts<H>(cache: seq<Entry<H>>, hashes: seq<H>, f: nat)
    requires f <= |hashes| <= |cache|
    ensures var r := Fork(cache, hashes, f);
      (r > 0 ==> cache[r - 1].blockHash == hashes[r - 1]) && (r < f ==> cache[r].blockHash != hashes[r])
  {
    if f > 0 && cache[f - 1].blockHash != hashes[f - 1] {
      ForkFacts(cache, hashes, f - 1);
    }
  }

  lemma {:induction false} FoundFacts<H>(hashes: seq<H>, lookup: Lookup<H>, i: nat)
    requires i <= |hashes|
    ensures var r := FoundUpTo(hashes, lookup, i);
      (forall j :: i <= j < r ==> lookup(hashes[j]).Some?) && (r < |hashes| ==> lookup(hashes[r]).None?)
    decreases |hashes| - i
  {
    if i < |hashes| && lookup(hashes[i]).Some? {
      FoundFacts(hashes, lookup, i + 1);
    }
  }

  /** The entries of `a` between `from` and `to` are those for `hashes`. */
  predicate Right<H(==)>(a: seq<Entry<H>>, hashes: seq<H>, header: H -> H, from: nat, to: nat) {
    && to <= |hashes| && to <= |a|
    && forall i :: from <= i < to ==> a[i] == Entry(hashes[i], header(hashes[i]))
  }

  lemma RightHeaders<H>(a: seq<Entry<H>>, b: seq<Entry<H>>, hashes: seq<H>, header: H -> H, f: nat)
    requires f <= |hashes| <= |a| == |b|
    requires Right(a, hashes, header, 0, f) && Right(b, hashes, header, f, |hashes|)
    ensures Headers(a[..f]) + Headers(b[f..|hashes|]) == Direct(hashes, header)
  {
  }

  lemma FillAt<H>(cache: seq<Entry<H>>, hashes: seq<H>, lookup: Lookup<H>, from: nat, to: nat, j: nat)
    requires from <= to <= |hashes| <= |cache| && j < |cache|
    ensures Fill(cache, hashes, lookup, from, to)[j] ==
            if from <= j < to && lookup(hashes[j]).Some? then Entry(hashes[j], lookup(hashes[j]).value) else cache[j]
  {
  }

  lemma AllFoundUpTo<H>(hashes: seq<H>, lookup: Lookup<H>, i: nat)
    requires AllFound(hashes, lookup) && i <= |hashes|
    ensures FoundUpTo(hashes, lookup, i) == |hashes|
  {
    FoundFacts(hashes, lookup, i);
  }

  /** Where a request's own hashes begin to differ from the cache, and where its lookups end. */
  function ForkOf<H(==)>(cache: seq<Entry<H>>, hashes: seq<H>, zero: H): (fork: nat)
    ensures fork <= |hashes|
  {
    Fork(Grown(cache, |hashes|, zero), hashes, |hashes|)
  }

  function FoundOf<H(==)>(cache: seq<Entry<H>>, hashes: seq<H>, zero: H, lookup: Lookup<H>): (found: nat)
    ensures ForkOf(cache, hashes, zero) <= found <= |hashes|
  {
    FoundUpTo(hashes, lookup, ForkOf(cache, hashes, zero))
  }

  /** What is known about the fork when no hash is zero. */
  lemma ForkOfFacts<H>(cache: seq<Entry<H>>, hashes: seq<H>, zero: H)
    requires forall i :: 0 <= i < |hashes| ==> hashes[i] != zero
    ensures var fork := ForkOf(cache, hashes, zero);
      && fork <= |cache|
      && (fork > 0 ==> cache[fork - 1].blockHash == hashes[fork - 1])
      && (fork < |hashes| && fork < |cache| ==> cache[fork].blockHash != hashes[fork])
  {
    hide Fork, Grown;
    var grown, fork := Grown(cache, |hashes|, zero), ForkOf(cache, hashes, zero);
    ForkFacts(grown, hashes, |hashes|);
    if fork > 0 { GrownAt(cache, |hashes|, zero, fork - 1); }
    if fork < |hashes| { GrownAt(cache, |hashes|, zero, fork); }
  }

  /** The filled entries of a request: its own between fork and end of the lookups, the old ones elsewhere. */
  lemma FilledAt<H(!new)>(cache: seq<Entry<H>>, hashes: seq<H>, zero: H, lookup: Lookup<H>, header: H -> H, j: nat)
    requires Sound(lookup, header)
    ensures var grown := Grown(cache, |hashes|, zero);
      var fork, found := ForkOf(cache, hashes, zero), FoundOf(cache, hashes, zero, lookup);
      j < |grown| ==>
        Fill(grown, hashes, lookup, fork, found)[j] == if fork <= j < found then Entry(hashes[j], header(hashes[j])) else grown[j]
  {
    hide Fork, Grown, FoundUpTo, Fill;
    var grown, fork := Grown(cache, |hashes|, zero), ForkOf(cache, hashes, zero);
    FoundFacts(hashes, lookup, fork);
    if j < |grown| { FillAt(grown, hashes, lookup, fork, FoundOf(cache, hashes, zero, lookup), j); }
  }

  /** A cache that is right below the fork gives the direct answer as soon as the rest is found. */
  lemma ServeAnswer<H(!new)>(cache: seq<Entry<H>>, hashes: seq<H>, zero: H, lookup: Lookup<H>, header: H -> H, reused: bool)
    requires Sound(lookup, header) && Right(cache, hashes, header, 0, ForkOf(cache, hashes, zero))
    ensures Serve(cache, hashes, zero, lookup, reused).0 ==
            if FoundOf(cache, hashes, zero, lookup) == |hashes| then Some(Direct(hashes, header)) else None
  {
    hide Fork, Grown, FoundUpTo, Fill, Headers, Direct;
    var grown, fork, found := Grown(cache, |hashes|, zero), ForkOf(cache, hashes, zero), FoundOf(cache, hashes, zero, lookup);
    if found == |hashes| {
      var filled := Fill(grown, hashes, lookup, fork, found);
      forall i | 0 <= i < |hashes|
        ensures i < fork ==> grown[i] == cache[i]
        ensures fork <= i ==> filled[i] == Entry(hashes[i], header(hashes[i]))
      {
        GrownAt(cache, |hashes|, zero, i);
        FilledAt(cache, hashes, zero, lookup, header, i);
      }
      RightHeaders(grown, filled, hashes, header, fork);
    }
  }

  /** The entries that a request leaves in the cache. */
  lemma ServeEntry<H(!new)>(cache: seq<Entry<H>>, hashes: seq<H>, zero: H, lookup: Lookup<H>, header: H -> H, reused: bool, j: nat)
    requires Sound(lookup, header)
    ensures var after := Serve(cache, hashes, zero, lookup, reused).1;
      var fork, found := ForkOf(cache, hashes, zero), FoundOf(cache, hashes, zero, lookup);
      && |after| == (if |hashes| > |cache| && found == |hashes| then |hashes| else |cache|)
      && (j < |after| && |hashes| > |cache| && (reused || found == |hashes|) && fork <= j < found ==>
            after[j] == Entry(hashes[j], header(hashes[j])))
      && (j < |after| && j < |cache| && !(|hashes| > |cache| && (reused || found == |hashes|) && fork <= j < found) ==>
            after[j] == cache[j])
  {
    hide Fork, Grown, FoundUpTo, Fill, Headers;
    FilledAt(cache, hashes, zero, lookup, header, j);
    if j < |Grown(cache, |hashes|, zero)| { GrownAt(cache, |hashes|, zero, j); }
  }

  // ---------------------------------------------------------------------------
  // Failed lookups
  // ---------------------------------------------------------------------------

  /**
   The request grows the cache in its own memory, replaces entries, and its lookups end before
   they reach the old end of the cache.
   */
  predicate Damages<H(==)>(cache: seq<Entry<H>>, hashes: seq<H>, zero: H, lookup: Lookup<H>, reused: bool) {
    reused && |hashes| > |cache| && ForkOf(cache, hashes, zero) < FoundOf(cache, hashes, zero, lookup) < |cache|
  }

  lemma {:induction false} ForkAtLeast<H>(cache: seq<Entry<H>>, hashes: seq<H>, f: nat, k: nat)
    requires 0 < k <= f <= |hashes| <= |cache| && cache[k - 1].blockHash == hashes[k - 1]
    ensures Fork(cache, hashes, f) >= k
  {
    if cache[f - 1].blockHash != hashes[f - 1] {
      ForkAtLeast(cache, hashes, f - 1, k);
    }
  }

  /** If the last entry of the cache matches, all its headers go into the answer and only the rest is looked up. */
  lemma ServedFromCache<H>(cache: seq<Entry<H>>, hashes: seq<H>, zero: H, lookup: Lookup<H>, reused: bool, j: nat)
    requires j < |cache| <= |hashes| && cache[|cache| - 1].blockHash == hashes[|cache| - 1]
    requires forall i :: |cache| <= i < |hashes| ==> lookup(hashes[i]).Some?
    ensures var answer := Serve(cache, hashes, zero, lookup, reused).0;
      answer.Some? && |answer.value| == |hashes| && answer.value[j] == cache[j].filterHeader
  {
    hide Fork, Grown, FoundUpTo, Fill;
    var grown, fork := Grown(cache, |hashes|, zero), ForkOf(cache, hashes, zero);
    GrownAt(cache, |hashes|, zero, |cache| - 1);
    ForkAtLeast(grown, hashes, |hashes|, |cache|);
    FoundFacts(hashes, lookup, fork);
    GrownAt(cache, |hashes|, zero, j);
    assert Headers(grown[..fork])[j] == grown[j].filterHeader;
  }

  // ---------------------------------------------------------------------------
  // The code
  // ---------------------------------------------------------------------------

  class CheckptServer<H(==)> {
    const zero: H
    var cache: seq<Entry<H>>

    constructor (zero: H)
      ensures cache == [] && this.zero == zero
    {
      this.zero := zero;
      cache := [];
    }

    /** Serves a request for the checkpoints `blockHashes`. */
    method OnGetCFCheckpt(blockHashes: seq<H>, lookup: Lookup<H>, reused: bool) returns (reply: Option<seq<H>>)
      modifies this
      ensures (reply, cache) == Serve(old(cache), blockHashes, zero, lookup, reused)
    {
      hide Fork, FoundUpTo, Fill, Grown, Headers;
      var updateCache := |blockHashes| > |cache|;
      var checkptCache := Grown(cache, |blockHashes|, zero);
      ghost var grown := checkptCache;
      var forkIdx := FindFork(checkptCache, blockHashes);
      var headers := Headers(checkptCache[..forkIdx]);
      var i := forkIdx;
      FillNone(grown, blockHashes, lookup, forkIdx);
      while i < |blockHashes|
        invariant forkIdx <= i <= |blockHashes|
        invariant FoundUpTo(blockHashes, lookup, i) == FoundUpTo(blockHashes, lookup, forkIdx)
        invariant |checkptCache| == |grown| && cache == old(cache)
        invariant updateCache ==> checkptCache == Fill(grown, blockHashes, lookup, forkIdx, i)
        invariant headers == Headers(grown[..forkIdx]) + Headers(Fill(grown, blockHashes, lookup, forkIdx, i)[forkIdx..i])
      {
        FoundStep(blockHashes, lookup, i);
        var header := lookup(blockHashes[i]);
        if header.None? {
          if updateCache && reused {
            cache := checkptCache[..|cache|];
          }
          return None;
        }
        FillStep(grown, blockHashes, lookup, forkIdx, i);
        headers := headers + [header.value];
        if updateCache {
          checkptCache := checkptCache[i := Entry(blockHashes[i], header.value)];
        }
        i := i + 1;
      }
      FoundEnd(blockHashes, lookup);
      if updateCache {
        cache := checkptCache;
      }
      return Some(headers);
    }
  }

  /** Walks back from the end to the last entry that matches. */
  method FindFork<H(==)>(cache: seq<Entry<H>>, hashes: seq<H>) returns (forkIdx: nat)
    requires |hashes| <= |cache|
    ensures forkIdx == Fork(cache, hashes, |hashes|)
  {
    forkIdx := |hashes|;
    while forkIdx > 0 && cache[forkIdx - 1].blockHash != hashes[forkIdx - 1]
      invariant forkIdx <= |hashes| && Fork(cache, hashes, forkIdx) == Fork(cache, hashes, |hashes|)
    {
      forkIdx := forkIdx - 1;
    }
  }

  lemma FoundStep<H>(hashes: seq<H>, lookup: Lookup<H>, i: nat)
    requires i < |hashes|
    ensures FoundUpTo(hashes, lookup, i) == if lookup(hashes[i]).None? then i else FoundUpTo(hashes, lookup, i + 1)
  {
  }

  lemma FoundEnd<H>(hashes: seq<H>, lookup: Lookup<H>)
    ensures FoundUpTo(hashes, lookup, |hashes|) == |hashes|
  {
  }

  lemma FillNone<H>(cache: seq<Entry<H>>, hashes: seq<H>, lookup: Lookup<H>, from: nat)
    requires from <= |hashes| <= |cache|
    ensures Fill(cache, hashes, lookup, from, from) == cache
    ensures Headers(cache[..from]) == Headers(cache[..from]) + Headers(cache[from..from])
  {
  }

  lemma FillStep<H>(cache: seq<Entry<H>>, hashes: seq<H>, lookup: Lookup<H>, from: nat, to: nat)
    requires from <= to < |hashes| <= |cache| && lookup(hashes[to]).Some?
    ensures var done, more := Fill(cache, hashes, lookup, from, to), Fill(cache, hashes, lookup, from, to + 1);
      && more == done[to := Entry(hashes[to], lookup(hashes[to]).value)]
      && (forall front: seq<H> :: front + Headers(more[from..to + 1]) == (front + Headers(done[from..to])) + [lookup(hashes[to]).value])
  {
    var done, more := Fill(cache, hashes, lookup, from, to), Fill(cache, hashes, lookup, from, to + 1);
    assert more[from..to + 1] == done[from..to] + [Entry(hashes[to], lookup(hashes[to]).value)];
    assert Headers(more[from..to + 1]) == Headers(done[from..to]) + [lookup(hashes[to]).value];
  }
}
