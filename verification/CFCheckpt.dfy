/** Answers to getcfcheckpt requests (BIP 157): checkpoint filter headers and their cache. */
module CFCheckpt {
  import opened ChainTypes
  import opened BlockTree
  import opened ChainViews
  import opened CheckptCache

  const INTERVAL := 1000

  // ---------------------------------------------------------------------------
  // The checkpoints of a branch
  // ---------------------------------------------------------------------------

  /** Hashes of the ancestors of `end` at positive multiples of the interval. */
  ghost function Checkpoints(end: BlockNode): (hashes: seq<Hash>)
    requires end.Linked()
  {
    BranchShape(end);
    seq(end.height / INTERVAL, k requires 0 <= k < end.height / INTERVAL => end.Branch()[(k + 1) * INTERVAL].hash)
  }

  /** The best chain is used for the lookups as soon as the walk meets it. */
  method IntervalBlockHashes(end: BlockNode?, bestChain: ChainView) returns (hashes: Option<seq<Hash>>)
    requires bestChain.Consistent() && (end != null ==> end.Linked())
    ensures hashes.Some? <==> end != null && end.status & STATUS_VALID != 0
    ensures hashes.Some? ==> hashes.value == Checkpoints(end)
  {
    hide BlockNode.Linked, BlockNode.Branch, ChainView.Consistent;
    if end == null {
      return None;
    }
    if end.status & STATUS_VALID == 0 {
      return None;
    }
    BranchShape(end);
    var list: seq<Hash> := [];
    var blockNode: BlockNode, index := end, end.height / INTERVAL;
    while index > 0
      invariant 0 <= index * INTERVAL <= blockNode.height <= end.height && blockNode == end.Branch()[blockNode.height]
      invariant list == Checkpoints(end)[index..]
    {
      var height := index * INTERVAL;
      BranchPrefix(end, blockNode.height);
      if bestChain.Contains(blockNode) {
        OnBestChain(bestChain, blockNode, height);
        blockNode := bestChain.NodeByHeight(height);
      } else {
        var ancestor := blockNode.Ancestor(height);
        blockNode := ancestor;
      }
      list := [blockNode.hash] + list;
      index := index - 1;
      assert Checkpoints(end)[index] == blockNode.hash;
    }
    return Some(list);
  }

  lemma OnBestChain(view: ChainView, node: BlockNode, height: nat)
    requires view.Consistent() && view.Contains(node) && node.Linked() && height <= node.height
    ensures height < |node.Branch()| && view.NodeByHeight(height) == node.Branch()[height]
  {
    hide BlockNode.Linked, BlockNode.Branch;
    BranchShape(node);
    BranchShape(view.Tip());
    BranchPrefix(view.Tip(), node.height);
  }

  /** Hashes identify the nodes of both branches. */
  ghost predicate NoCollision(a: BlockNode, b: BlockNode) {
    forall x, y :: x in a.Branch() && y in b.Branch() && x.hash == y.hash ==> x == y
  }

  /** Branches that agree at one checkpoint agree at all earlier ones. */
  lemma AgreeBelow(a: BlockNode, b: BlockNode, k: nat)
    requires a.Linked() && b.Linked() && NoCollision(a, b)
    requires k < |Checkpoints(a)| && k < |Checkpoints(b)| && Checkpoints(a)[k] == Checkpoints(b)[k]
    ensures Checkpoints(a)[..k + 1] == Checkpoints(b)[..k + 1]
  {
    hide BlockNode.Linked, BlockNode.Branch;
    BranchShape(a);
    BranchShape(b);
    var h := (k + 1) * INTERVAL;
    assert a.Branch()[h] in a.Branch() && b.Branch()[h] in b.Branch();
    assert a.Branch()[h] == b.Branch()[h];
    BranchPrefix(a, h);
    BranchPrefix(b, h);
    forall i | 0 <= i <= k ensures Checkpoints(a)[i] == Checkpoints(b)[i] {
      var j := (i + 1) * INTERVAL;
      assert a.Branch()[..h + 1][j] == b.Branch()[..h + 1][j];
    }
  }

  // ---------------------------------------------------------------------------
  // Answers from the cache
  // ---------------------------------------------------------------------------

  /** The cache lists the first checkpoints of one block of the tree. */
  ghost predicate OnOneBranch(cache: seq<Entry<Hash>>, tree: set<BlockNode>, header: Hash -> Hash) {
    cache == [] || exists n :: n in tree && OnBranch(cache, n, header)
  }

  ghost predicate OnBranch(cache: seq<Entry<Hash>>, n: BlockNode, header: Hash -> Hash) {
    n.Linked() && Right(cache, Checkpoints(n), header, 0, |cache|)
  }

  /** Blocks whose hashes identify them and are not all zero. */
  ghost predicate Identified(tree: set<BlockNode>) {
    && (forall n :: n in tree ==> n.Linked())
    && (forall a, b :: a in tree && b in tree ==> NoCollision(a, b))
    && (forall n, x :: n in tree && x in n.Branch() ==> x.hash != ZERO_HASH)
  }

  /** Different blocks of the tree have different filter headers. */
  ghost predicate Told(tree: set<BlockNode>, header: Hash -> Hash) {
    forall a, b, x, y :: a in tree && b in tree && x in a.Branch() && y in b.Branch() && x.hash != y.hash ==>
      header(x.hash) != header(y.hash)
  }

  lemma CheckpointNode(n: BlockNode, k: nat)
    requires n.Linked() && k < |Checkpoints(n)|
    ensures exists x :: x in n.Branch() && x.hash == Checkpoints(n)[k]
  {
    hide BlockNode.Linked, BlockNode.Branch;
    BranchShape(n);
    assert n.Branch()[(k + 1) * INTERVAL] in n.Branch();
  }

  lemma NotZero(tree: set<BlockNode>, n: BlockNode)
    requires Identified(tree) && n in tree && n.Linked()
    ensures forall k :: 0 <= k < |Checkpoints(n)| ==> Checkpoints(n)[k] != ZERO_HASH
  {
    hide BlockNode.Linked, BlockNode.Branch, Checkpoints, NoCollision;
    forall k | 0 <= k < |Checkpoints(n)| ensures Checkpoints(n)[k] != ZERO_HASH {
      CheckpointNode(n, k);
    }
  }

  lemma ToldApart(tree: set<BlockNode>, header: Hash -> Hash, a: BlockNode, b: BlockNode, j: nat, k: nat)
    requires Told(tree, header) && a in tree && b in tree && a.Linked() && b.Linked()
    requires j < |Checkpoints(a)| && k < |Checkpoints(b)| && Checkpoints(a)[j] != Checkpoints(b)[k]
    ensures header(Checkpoints(a)[j]) != header(Checkpoints(b)[k])
  {
    hide BlockNode.Linked, BlockNode.Branch, Checkpoints;
    CheckpointNode(a, j);
    CheckpointNode(b, k);
  }

  /** Two branches that match at the last of `k` checkpoints are the same for the cache up to there. */
  lemma SameBelow(cache: seq<Entry<Hash>>, tree: set<BlockNode>, m: BlockNode, n: BlockNode, header: Hash -> Hash, k: nat)
    requires Identified(tree) && m in tree && n in tree && OnBranch(cache, m, header) && n.Linked()
    requires k <= |cache| && k <= |Checkpoints(n)| && (k > 0 ==> cache[k - 1].blockHash == Checkpoints(n)[k - 1])
    ensures Right(cache, Checkpoints(n), header, 0, k)
  {
    hide BlockNode.Linked, BlockNode.Branch, NoCollision, Checkpoints;
    if k > 0 {
      AgreeBelow(m, n, k - 1);
      forall i | 0 <= i < k ensures cache[i] == Entry(Checkpoints(n)[i], header(Checkpoints(n)[i])) {
        assert Checkpoints(m)[..k][i] == Checkpoints(n)[..k][i];
      }
    }
  }

  /** Below the fork the cache already holds the answer. */
  lemma CachedPart(cache: seq<Entry<Hash>>, tree: set<BlockNode>, n: BlockNode, header: Hash -> Hash)
    requires Identified(tree) && n in tree && n.Linked() && OnOneBranch(cache, tree, header)
    ensures Right(cache, Checkpoints(n), header, 0, ForkOf(cache, Checkpoints(n), ZERO_HASH))
    ensures ForkOf(cache, Checkpoints(n), ZERO_HASH) <= |cache|
  {
    hide Checkpoints, ForkOf, Identified, OnBranch, Right;
    var hashes, fork := Checkpoints(n), ForkOf(cache, Checkpoints(n), ZERO_HASH);
    NotZero(tree, n);
    ForkOfFacts(cache, hashes, ZERO_HASH);
    if fork > 0 {
      var m :| m in tree && OnBranch(cache, m, header);
      SameBelow(cache, tree, m, n, header, fork);
    } else {
      assert Right(cache, hashes, header, 0, 0) by { NoneRight(cache, hashes, header); }
    }
  }

  lemma NoneRight(cache: seq<Entry<Hash>>, hashes: seq<Hash>, header: Hash -> Hash)
    ensures Right(cache, hashes, header, 0, 0)
  {
  }

  /** The answer for the branch of `n` is the direct one, and there is one if every filter header is there. */
  ghost predicate RightAnswer(cache: seq<Entry<Hash>>, n: BlockNode, lookup: Lookup<Hash>, header: Hash -> Hash, reused: bool)
    requires n.Linked()
  {
    var answer := Serve(cache, Checkpoints(n), ZERO_HASH, lookup, reused).0;
    && (answer.Some? ==> answer.value == Direct(Checkpoints(n), header))
    && (AllFound(Checkpoints(n), lookup) ==> answer.Some?)
  }

  /** Whatever is asked next about the tree is answered right, with whatever the index has by then. */
  ghost predicate Faithful(cache: seq<Entry<Hash>>, tree: set<BlockNode>, header: Hash -> Hash)
    requires forall n :: n in tree ==> n.Linked()
  {
    forall n, lookup, reused :: n in tree && Sound(lookup, header) ==> RightAnswer(cache, n, lookup, header, reused)
  }

  /** A cache along one branch answers every request right. */
  lemma ServeRight(cache: seq<Entry<Hash>>, tree: set<BlockNode>, header: Hash -> Hash)
    requires Identified(tree) && OnOneBranch(cache, tree, header)
    ensures Faithful(cache, tree, header)
  {
    hide BlockNode.Linked, BlockNode.Branch, NoCollision, Checkpoints, Serve, ForkOf, FoundOf, Right, OnOneBranch, Sound;
    forall n, lookup, reused | n in tree && Sound(lookup, header) ensures RightAnswer(cache, n, lookup, header, reused) {
      var hashes := Checkpoints(n);
      CachedPart(cache, tree, n, header);
      ServeAnswer(cache, hashes, ZERO_HASH, lookup, header, reused);
      if AllFound(hashes, lookup) { EverythingFound(cache, hashes, lookup); }
    }
  }

  lemma EverythingFound(cache: seq<Entry<Hash>>, hashes: seq<Hash>, lookup: Lookup<Hash>)
    requires AllFound(hashes, lookup)
    ensures FoundOf(cache, hashes, ZERO_HASH, lookup) == |hashes|
  {
    hide ForkOf, FoundUpTo;
    AllFoundUpTo(hashes, lookup, ForkOf(cache, hashes, ZERO_HASH));
  }

  // ---------------------------------------------------------------------------
  // What a request does to the cache
  // ---------------------------------------------------------------------------

  /** A request that does no damage leaves the cache along one branch: the old one, or its own. */
  lemma HarmlessRequest(cache: seq<Entry<Hash>>, tree: set<BlockNode>, n: BlockNode, lookup: Lookup<Hash>, header: Hash -> Hash, reused: bool)
    requires Identified(tree) && n in tree && n.Linked() && Sound(lookup, header) && OnOneBranch(cache, tree, header)
    requires !Damages(cache, Checkpoints(n), ZERO_HASH, lookup, reused)
    ensures OnOneBranch(Serve(cache, Checkpoints(n), ZERO_HASH, lookup, reused).1, tree, header)
  {
    hide BlockNode.Linked, BlockNode.Branch, NoCollision, Checkpoints, Serve, ForkOf, FoundOf, Sound;
    var hashes := Checkpoints(n);
    var after := Serve(cache, hashes, ZERO_HASH, lookup, reused).1;
    var fork, found := ForkOf(cache, hashes, ZERO_HASH), FoundOf(cache, hashes, ZERO_HASH, lookup);
    CachedPart(cache, tree, n, header);
    ServeEntry(cache, hashes, ZERO_HASH, lookup, header, reused, 0);
    forall j | 0 <= j < |after|
      ensures |hashes| > |cache| && (reused || found == |hashes|) && fork <= j < found ==> after[j] == Entry(hashes[j], header(hashes[j]))
      ensures j < |cache| && !(|hashes| > |cache| && (reused || found == |hashes|) && fork <= j < found) ==> after[j] == cache[j]
    {
      ServeEntry(cache, hashes, ZERO_HASH, lookup, header, reused, j);
    }
    if |hashes| > |cache| && (reused || found == |hashes|) && fork < found {
      assert Right(after, hashes, header, 0, |after|);
      assert OnBranch(after, n, header);
    } else {
      assert after == cache;
    }
  }

  predicate FoundFrom(hashes: seq<Hash>, k: nat, lookup: Lookup<Hash>) {
    forall i :: k <= i < |hashes| ==> lookup(hashes[i]).Some?
  }

  /**
   A request that does damage leaves one entry of its own below the last entry of the old branch,
   so that asking for the old branch gives a wrong answer, if the part beyond the cache is found.
   */
  lemma DamagingRequest(cache: seq<Entry<Hash>>, tree: set<BlockNode>, m: BlockNode, n: BlockNode, lookup: Lookup<Hash>, header: Hash -> Hash, reused: bool)
    requires Identified(tree) && Told(tree, header) && m in tree && n in tree && n.Linked() && Sound(lookup, header)
    requires OnBranch(cache, m, header) && Damages(cache, Checkpoints(n), ZERO_HASH, lookup, reused)
    ensures var after := Serve(cache, Checkpoints(n), ZERO_HASH, lookup, reused).1;
      forall later, again :: FoundFrom(Checkpoints(m), |cache|, later) ==> !RightAnswer(after, m, later, header, again)
  {
    hide BlockNode.Linked, BlockNode.Branch, NoCollision, Checkpoints, Serve, ForkOf, FoundOf, Sound, AllFound, Identified, Told;
    var hashes, last := Checkpoints(n), |cache| - 1;
    var after := Serve(cache, hashes, ZERO_HASH, lookup, reused).1;
    var fork := ForkOf(cache, hashes, ZERO_HASH);
    NotZero(tree, n);
    ForkOfFacts(cache, hashes, ZERO_HASH);
    ServeEntry(cache, hashes, ZERO_HASH, lookup, header, reused, fork);
    ServeEntry(cache, hashes, ZERO_HASH, lookup, header, reused, last);
    ToldApart(tree, header, m, n, fork, fork);
    forall later, again | FoundFrom(Checkpoints(m), |cache|, later) ensures !RightAnswer(after, m, later, header, again) {
      ServedFromCache(after, Checkpoints(m), ZERO_HASH, later, again, fork);
    }
  }

  function Complete(header: Hash -> Hash): Lookup<Hash> {
    h => Some(header(h))
  }

  /**
   After a request on a cache along one branch all later answers are right exactly unless it
   did damage, that is, grew the cache in place, wrote something and failed before its old end.
   */
  lemma FailedRequest(cache: seq<Entry<Hash>>, tree: set<BlockNode>, n: BlockNode, lookup: Lookup<Hash>, header: Hash -> Hash, reused: bool)
    requires Identified(tree) && Told(tree, header) && n in tree && n.Linked() && Sound(lookup, header) && OnOneBranch(cache, tree, header)
    ensures var after := Serve(cache, Checkpoints(n), ZERO_HASH, lookup, reused).1;
      && (Faithful(after, tree, header) <==> !Damages(cache, Checkpoints(n), ZERO_HASH, lookup, reused))
      && (OnOneBranch(after, tree, header) <==> !Damages(cache, Checkpoints(n), ZERO_HASH, lookup, reused))
  {
    hide BlockNode.Linked, BlockNode.Branch, NoCollision, Checkpoints, Serve, Told, RightAnswer, OnBranch;
    var after := Serve(cache, Checkpoints(n), ZERO_HASH, lookup, reused).1;
    if Damages(cache, Checkpoints(n), ZERO_HASH, lookup, reused) {
      var m :| m in tree && OnBranch(cache, m, header);
      DamagingRequest(cache, tree, m, n, lookup, header, reused);
      assert !RightAnswer(after, m, Complete(header), header, false);
      if OnOneBranch(after, tree, header) { ServeRight(after, tree, header); }
    } else {
      HarmlessRequest(cache, tree, n, lookup, header, reused);
      ServeRight(after, tree, header);
    }
  }

  /**
   The cache holds a branch of two or more checkpoints; a request on a longer one finds its first
   filter header and not its second; then the first branch is answered with the first header of
   the second.  The lengths are arbitrary, because it depends on the capacity that earlier growth
   has left whether memory is reused; three and four checkpoints, after two and three, are a case.
   */
  lemma DamagedCache(a: BlockNode, b: BlockNode, lookup: Lookup<Hash>, header: Hash -> Hash)
    requires Identified({a, b}) && a.Linked() && b.Linked() && 2 <= |Checkpoints(a)| < |Checkpoints(b)|
    requires Checkpoints(a)[0] != Checkpoints(b)[0] && Sound(lookup, header)
    requires lookup(Checkpoints(b)[0]).Some? && lookup(Checkpoints(b)[1]).None?
    ensures
      var run := [Request(a, Complete(header), false), Request(b, lookup, true)];
      Serve(CacheAfter(run), Checkpoints(a), ZERO_HASH, lookup, false).0
      == Some([header(Checkpoints(b)[0])] + Direct(Checkpoints(a)[1..], header))
  {
    hide BlockNode.Linked, BlockNode.Branch, NoCollision, Checkpoints, Serve, ForkOf, Identified, Sound;
    var run := [Request(a, Complete(header), false), Request(b, lookup, true)];
    var first, second := Checkpoints(a), Checkpoints(b);
    var cache, after := CacheAfter(run[..1]), CacheAfter(run[..2]);
    assert run[..0] == [] && run[..2] == run;
    StepAt(run, 0);
    StepAt(run, 1);
    assert Sound(Complete(header), header) by { CompleteSound(header); }
    CachedBranch({a, b}, a, header);
    assert OnBranch(cache, a, header);
    CachedPart(cache, {a, b}, b, header);
    assert FoundUpTo(second, lookup, 1) == 1;
    var answer := Serve(after, first, ZERO_HASH, lookup, false).0;
    forall j | 0 <= j < |first|
      ensures answer.Some? && |answer.value| == |first|
      ensures answer.value[j] == if j == 0 then header(second[0]) else header(first[j])
    {
      ServeEntry(cache, second, ZERO_HASH, lookup, header, true, |first| - 1);
      ServeEntry(cache, second, ZERO_HASH, lookup, header, true, j);
      ServedFromCache(after, first, ZERO_HASH, lookup, false, j);
    }
    assert answer.value == [header(second[0])] + Direct(first[1..], header);
  }

  /** A request that finds everything fills an empty cache with its branch. */
  lemma CachedBranch(tree: set<BlockNode>, a: BlockNode, header: Hash -> Hash)
    requires Identified(tree) && a in tree && a.Linked() && Checkpoints(a) != []
    ensures var cache := Serve([], Checkpoints(a), ZERO_HASH, Complete(header), false).1;
      |cache| == |Checkpoints(a)| && OnBranch(cache, a, header)
  {
    hide BlockNode.Linked, BlockNode.Branch, Checkpoints, Serve, ForkOf, FoundOf, Sound, Identified;
    var hashes := Checkpoints(a);
    var cache := Serve([], hashes, ZERO_HASH, Complete(header), false).1;
    CompleteSound(header);
    NoCache(tree, header);
    CachedPart([], tree, a, header);
    EverythingFound([], hashes, Complete(header));
    ServeEntry([], hashes, ZERO_HASH, Complete(header), header, false, 0);
    forall j | 0 <= j < |cache| ensures cache[j] == Entry(hashes[j], header(hashes[j])) {
      ServeEntry([], hashes, ZERO_HASH, Complete(header), header, false, j);
    }
  }

  lemma CompleteSound(header: Hash -> Hash)
    ensures Sound(Complete(header), header)
  {
  }

  // ---------------------------------------------------------------------------
  // Runs of requests
  // ---------------------------------------------------------------------------

  /** A request for the branch of a block, what the index has at that time, and whether growing reuses memory. */
  datatype Request = Request(end: BlockNode, lookup: Lookup<Hash>, reused: bool)

  ghost predicate RequestsOk(requests: seq<Request>, tree: set<BlockNode>, header: Hash -> Hash) {
    forall i :: 0 <= i < |requests| ==> requests[i].end in tree && requests[i].end.Linked() && Sound(requests[i].lookup, header)
  }

  /** The cache after a sequence of requests. */
  ghost function CacheAfter(requests: seq<Request>): (cache: seq<Entry<Hash>>)
    requires forall i :: 0 <= i < |requests| ==> requests[i].end.Linked()
  {
    if requests == [] then []
    else
      var front, last := requests[..|requests| - 1], requests[|requests| - 1];
      Serve(CacheAfter(front), Checkpoints(last.end), ZERO_HASH, last.lookup, last.reused).1
  }

  ghost predicate HarmlessAt(requests: seq<Request>, i: nat)
    requires i < |requests| && forall i :: 0 <= i < |requests| ==> requests[i].end.Linked()
  {
    !Damages(CacheAfter(requests[..i]), Checkpoints(requests[i].end), ZERO_HASH, requests[i].lookup, requests[i].reused)
  }

  ghost predicate FaithfulAt(requests: seq<Request>, i: nat, tree: set<BlockNode>, header: Hash -> Hash)
    requires i <= |requests| && forall i :: 0 <= i < |requests| ==> requests[i].end.Linked()
    requires forall n :: n in tree ==> n.Linked()
  {
    Faithful(CacheAfter(requests[..i]), tree, header)
  }

  lemma StepAt(requests: seq<Request>, i: nat)
    requires i < |requests| && forall i :: 0 <= i < |requests| ==> requests[i].end.Linked()
    ensures var r := requests[i];
      CacheAfter(requests[..i + 1]) == Serve(CacheAfter(requests[..i]), Checkpoints(r.end), ZERO_HASH, r.lookup, r.reused).1
  {
    hide BlockNode.Linked, Checkpoints, Serve;
    assert requests[..i + 1][..i] == requests[..i];
  }

  /** As long as no request does damage, the cache lies along one branch. */
  lemma {:induction false} HarmlessRun(tree: set<BlockNode>, requests: seq<Request>, header: Hash -> Hash, i: nat)
    requires Identified(tree) && RequestsOk(requests, tree, header) && i <= |requests|
    requires forall j :: 0 <= j < i ==> HarmlessAt(requests, j)
    ensures OnOneBranch(CacheAfter(requests[..i]), tree, header)
  {
    hide BlockNode.Linked, BlockNode.Branch, NoCollision, Checkpoints, Serve, OnOneBranch, Damages, Sound;
    if i == 0 {
      assert requests[..0] == [];
      NoCache(tree, header);
    } else {
      HarmlessRun(tree, requests, header, i - 1);
      var r := requests[i - 1];
      StepAt(requests, i - 1);
      assert HarmlessAt(requests, i - 1);
      HarmlessRequest(CacheAfter(requests[..i - 1]), tree, r.end, r.lookup, header, r.reused);
    }
  }

  /** As long as all answers are right, no request has done damage. */
  lemma {:induction false} FaithfulRun(tree: set<BlockNode>, requests: seq<Request>, header: Hash -> Hash, i: nat)
    requires Identified(tree) && Told(tree, header) && RequestsOk(requests, tree, header) && i <= |requests|
    requires forall j :: 0 <= j <= i ==> FaithfulAt(requests, j, tree, header)
    ensures forall j :: 0 <= j < i ==> HarmlessAt(requests, j)
  {
    hide BlockNode.Linked, BlockNode.Branch, NoCollision, Checkpoints, Serve, Told, Faithful, OnOneBranch, Damages, Sound;
    if i > 0 {
      FaithfulRun(tree, requests, header, i - 1);
      HarmlessRun(tree, requests, header, i - 1);
      var r := requests[i - 1];
      StepAt(requests, i - 1);
      FailedRequest(CacheAfter(requests[..i - 1]), tree, r.end, r.lookup, header, r.reused);
      assert FaithfulAt(requests, i, tree, header);
    }
  }

  lemma NoCache(tree: set<BlockNode>, header: Hash -> Hash)
    ensures OnOneBranch([], tree, header)
  {
  }

  lemma HarmlessAnswers(tree: set<BlockNode>, requests: seq<Request>, header: Hash -> Hash)
    requires Identified(tree) && RequestsOk(requests, tree, header)
    requires forall i :: 0 <= i < |requests| ==> HarmlessAt(requests, i)
    ensures forall i :: 0 <= i <= |requests| ==> FaithfulAt(requests, i, tree, header)
  {
    hide BlockNode.Linked, BlockNode.Branch, NoCollision, Checkpoints, Serve, OnOneBranch, Damages, Sound, Faithful;
    forall i | 0 <= i <= |requests| ensures FaithfulAt(requests, i, tree, header) {
      HarmlessRun(tree, requests, header, i);
      ServeRight(CacheAfter(requests[..i]), tree, header);
    }
  }

  /**
   Over a run of requests, on whatever branches and with whatever the index had at the time,
   every answer at every moment is the direct one exactly if no request did damage.
   */
  lemma AnswersAreDirect(tree: set<BlockNode>, requests: seq<Request>, header: Hash -> Hash)
    requires Identified(tree) && Told(tree, header) && RequestsOk(requests, tree, header)
    ensures (forall i :: 0 <= i <= |requests| ==> FaithfulAt(requests, i, tree, header))
            <==> (forall i :: 0 <= i < |requests| ==> HarmlessAt(requests, i))
  {
    hide BlockNode.Linked, Identified, Told, RequestsOk, FaithfulAt, HarmlessAt;
    assert forall i :: 0 <= i < |requests| ==> requests[i].end.Linked() by { RequestsLinked(requests, tree, header); }
    assert forall n :: n in tree ==> n.Linked() by { TreeLinked(tree); }
    if forall i :: 0 <= i <= |requests| ==> FaithfulAt(requests, i, tree, header) {
      FaithfulRun(tree, requests, header, |requests|);
    } else if forall i :: 0 <= i < |requests| ==> HarmlessAt(requests, i) {
      HarmlessAnswers(tree, requests, header);
    }
  }

  lemma TreeLinked(tree: set<BlockNode>)
    requires Identified(tree)
    ensures forall n :: n in tree ==> n.Linked()
  {
  }

  lemma RequestsLinked(requests: seq<Request>, tree: set<BlockNode>, header: Hash -> Hash)
    requires RequestsOk(requests, tree, header)
    ensures forall i :: 0 <= i < |requests| ==> requests[i].end.Linked()
  {
  }

  /** In particular when every filter header was there, or growing never reused memory. */
  lemma NothingMissing(tree: set<BlockNode>, requests: seq<Request>, header: Hash -> Hash)
    requires Identified(tree) && RequestsOk(requests, tree, header)
    requires forall i :: 0 <= i < |requests| ==> !requests[i].reused || AllFound(Checkpoints(requests[i].end), requests[i].lookup)
    ensures forall i :: 0 <= i <= |requests| ==> FaithfulAt(requests, i, tree, header)
  {
    hide BlockNode.Linked, BlockNode.Branch, NoCollision, Checkpoints, Serve, OnOneBranch, Sound, Faithful, ForkOf, FoundOf, AllFound;
    forall i | 0 <= i < |requests| ensures HarmlessAt(requests, i) {
      if requests[i].reused { EverythingFound(CacheAfter(requests[..i]), Checkpoints(requests[i].end), requests[i].lookup); }
    }
    HarmlessAnswers(tree, requests, header);
  }
}
