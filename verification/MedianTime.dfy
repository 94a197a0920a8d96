/** The median-time-past of a block: the median timestamp of the block and up to ten ancestors. */
module MedianTime {
  import opened BlockTree

  const MEDIAN_TIME_BLOCKS: nat := 11

  // ---------------------------------------------------------------------------
  // Medians, without sorting
  // ---------------------------------------------------------------------------

  function CountBelow(s: seq<int>, v: int): (n: nat)
    ensures n <= |s|
  {
    if s == [] then 0 else (if s[0] < v then 1 else 0) + CountBelow(s[1..], v)
  }

  /** `m` is the upper median: at most half the values are below it and more than half are not above it. */
  predicate IsMedian(s: seq<int>, m: int) {
    s != [] && m in s && CountBelow(s, m) <= |s| / 2 < CountBelow(s, m + 1)
  }

  lemma {:induction false} CountBelowMonotone(s: seq<int>, v: int, w: int)
    requires v <= w
    ensures CountBelow(s, v) <= CountBelow(s, w)
  {
    if s != [] { CountBelowMonotone(s[1..], v, w); }
  }

  lemma {:induction false} CountBelowAppend(s: seq<int>, t: seq<int>, v: int)
    ensures CountBelow(s + t, v) == CountBelow(s, v) + CountBelow(t, v)
  {
    if s == [] {
      assert s + t == t;
    } else {
      assert (s + t)[1..] == s[1..] + t;
      CountBelowAppend(s[1..], t, v);
    }
  }

  /** A window that gained no value below the old median has a median that is no lower. */
  lemma MedianDoesNotDrop(s: seq<int>, m: int, s': seq<int>, m': int)
    requires IsMedian(s, m) && IsMedian(s', m')
    requires |s| <= |s'| && CountBelow(s', m) <= CountBelow(s, m)
    ensures m <= m'
  {
    if m' < m {
      CountBelowMonotone(s', m' + 1, m);
    }
  }

  // ---------------------------------------------------------------------------
  // Sorting, as the library does it
  // ---------------------------------------------------------------------------

  function Insert(x: int, s: seq<int>): (r: seq<int>) {
    if s == [] || x <= s[0] then [x] + s else [s[0]] + Insert(x, s[1..])
  }

  function Sort(s: seq<int>): (r: seq<int>) {
    if s == [] then [] else Insert(s[0], Sort(s[1..]))
  }

  predicate Sorted(s: seq<int>) {
    forall i, j :: 0 <= i < j < |s| ==> s[i] <= s[j]
  }

  lemma {:induction false} InsertPermutes(x: int, s: seq<int>)
    ensures multiset(Insert(x, s)) == multiset(s) + multiset{x}
  {
    if s != [] && x > s[0] {
      InsertPermutes(x, s[1..]);
      assert s == [s[0]] + s[1..];
    }
  }

  lemma {:induction false} InsertIsSorted(x: int, s: seq<int>)
    requires Sorted(s)
    ensures Sorted(Insert(x, s))
  {
    if s != [] && x > s[0] {
      InsertIsSorted(x, s[1..]);
      InsertPermutes(x, s[1..]);
      var rest := Insert(x, s[1..]);
      forall i | 0 <= i < |rest|
        ensures s[0] <= rest[i]
      {
        assert rest[i] in multiset(rest);
      }
    }
  }

  lemma {:induction false} InsertCount(x: int, s: seq<int>, v: int)
    ensures CountBelow(Insert(x, s), v) == CountBelow([x], v) + CountBelow(s, v)
  {
    if s != [] && x > s[0] {
      InsertCount(x, s[1..], v);
      assert Insert(x, s)[1..] == Insert(x, s[1..]);
    } else {
      assert ([x] + s)[1..] == s;
    }
  }

  lemma {:induction false} SortIsSorted(s: seq<int>)
    ensures Sorted(Sort(s)) && multiset(Sort(s)) == multiset(s)
  {
    if s != [] {
      SortIsSorted(s[1..]);
      InsertIsSorted(s[0], Sort(s[1..]));
      InsertPermutes(s[0], Sort(s[1..]));
      assert s == [s[0]] + s[1..];
    }
  }

  lemma {:induction false} SortCount(s: seq<int>, v: int)
    ensures CountBelow(Sort(s), v) == CountBelow(s, v)
  {
    if s != [] {
      SortCount(s[1..], v);
      InsertCount(s[0], Sort(s[1..]), v);
    }
  }

  lemma {:induction false} SortedCount(s: seq<int>, k: nat, v: int)
    requires Sorted(s) && k < |s|
    ensures s[k] >= v <==> CountBelow(s, v) <= k
  {
    if s[0] >= v {
      AllAbove(s, v);
    } else if k > 0 {
      SortedCount(s[1..], k - 1, v);
    }
  }

  lemma {:induction false} AllAbove(s: seq<int>, v: int)
    requires forall i :: 0 <= i < |s| ==> s[i] >= v
    ensures CountBelow(s, v) == 0
  {
    if s != [] { AllAbove(s[1..], v); }
  }

  lemma SameMembers(s: seq<int>, t: seq<int>, m: int)
    requires multiset(s) == multiset(t) && m in t
    ensures m in s
  {
    assert m in multiset(t);
  }

  lemma SameLength(s: seq<int>, t: seq<int>)
    requires multiset(s) == multiset(t)
    ensures |s| == |t|
  {
    assert |multiset(s)| == |s| && |multiset(t)| == |t|;
  }

  /** The middle of the sorted window is its upper median. */
  lemma MiddleIsMedian(s: seq<int>)
    requires s != []
    ensures |Sort(s)| == |s| && IsMedian(s, Sort(s)[|s| / 2])
  {
    hide Sort, CountBelow, Sorted;
    SortIsSorted(s);
    var t := Sort(s);
    SameLength(s, t);
    var m := t[|s| / 2];
    assert m in t;
    SameMembers(s, t, m);
    SortCount(s, m);
    SortCount(s, m + 1);
    SortedCount(t, |s| / 2, m);
    SortedCount(t, |s| / 2, m + 1);
  }

  // ---------------------------------------------------------------------------
  // Median-time-past along a chain
  // ---------------------------------------------------------------------------

  /** The last `MEDIAN_TIME_BLOCKS` timestamps, or all of them near the root. */
  function Window(times: seq<int>): (w: seq<int>) {
    if |times| <= MEDIAN_TIME_BLOCKS then times else times[|times| - MEDIAN_TIME_BLOCKS..]
  }

  function PastMedianTime(times: seq<int>): (m: int)
    requires times != []
    ensures IsMedian(Window(times), m)
  {
    MiddleIsMedian(Window(times));
    Sort(Window(times))[|Window(times)| / 2]
  }

  /** Each header is later than the median-time-past of its parent. */
  ghost predicate ObeysTimeRule(times: seq<int>) {
    forall i :: 0 < i < |times| ==> times[i] > PastMedianTime(times[..i])
  }

  lemma OneBlockLater(times: seq<int>, t: int)
    requires times != [] && t > PastMedianTime(times)
    ensures PastMedianTime(times) <= PastMedianTime(times + [t])
  {
    var m := PastMedianTime(times);
    var w, w' := Window(times), Window(times + [t]);
    CountBelowAppend(w, [t], m);
    if |times| < MEDIAN_TIME_BLOCKS {
      assert w' == w + [t];
    } else {
      assert w' == w[1..] + [t];
      CountBelowAppend(w[1..], [t], m);
    }
    assert CountBelow([t], m) == 0;
    MedianDoesNotDrop(w, m, w', PastMedianTime(times + [t]));
  }

  /** Under the time rule the median-time-past never decreases along a chain, from the root on. */
  lemma {:induction false} MedianTimeNeverDecreases(times: seq<int>, i: nat, j: nat)
    requires ObeysTimeRule(times) && i <= j < |times|
    ensures PastMedianTime(times[..i + 1]) <= PastMedianTime(times[..j + 1])
    decreases j
  {
    hide PastMedianTime, IsMedian, Window, CountBelow;
    if i < j {
      MedianTimeNeverDecreases(times, i, j - 1);
      assert times[..j + 1] == times[..j] + [times[j]];
      OneBlockLater(times[..j], times[j]);
    }
  }

  /** Timestamps of a node's branch, root first. */
  ghost function Times(node: BlockNode): (times: seq<int>)
    ensures |times| == |node.Branch()|
    ensures forall i :: 0 <= i < |times| ==> times[i] == node.Branch()[i].timestamp
  {
    seq(|node.Branch()|, i requires 0 <= i < |node.Branch()| => node.Branch()[i].timestamp)
  }

  /** The past median time of the blocks of a branch never decreases from the root up. */
  lemma ChainMedianTime(node: BlockNode, i: nat, j: nat)
    requires node.Linked() && ObeysTimeRule(Times(node)) && i <= j < |node.Branch()|
    ensures PastMedianTime(Times(node.Branch()[i])) <= PastMedianTime(Times(node.Branch()[j]))
  {
    hide PastMedianTime, ObeysTimeRule;
    TimesBelow(node, i);
    TimesBelow(node, j);
    MedianTimeNeverDecreases(Times(node), i, j);
  }

  lemma TimesBelow(node: BlockNode, i: nat)
    requires node.Linked() && i < |node.Branch()|
    ensures Times(node.Branch()[i]) == Times(node)[..i + 1]
  {
    hide BlockNode.Linked, BlockNode.Branch;
    BranchShape(node);
    BranchPrefix(node, i);
  }

  /** Collects the timestamps by walking parents, sorts them and takes the middle one. */
  method CalcPastMedianTime(node: BlockNode) returns (median: int)
    requires node.Linked()
    ensures IsMedian(Window(Times(node)), median)
    ensures Times(node) != [] && median == PastMedianTime(Times(node))
  {
    hide *;
    var timestamps := new int[MEDIAN_TIME_BLOCKS];
    var numNodes := 0;
    var iterNode: BlockNode? := node;
    ghost var times := Times(node);
    BranchShape(node);
    while numNodes < MEDIAN_TIME_BLOCKS && iterNode != null
      invariant 0 <= numNodes <= MEDIAN_TIME_BLOCKS && numNodes <= |times|
      invariant iterNode == null <==> numNodes == |times|
      invariant iterNode != null ==> iterNode == node.Branch()[|times| - 1 - numNodes]
      invariant forall i :: 0 <= i < numNodes ==> timestamps[i] == times[|times| - 1 - i]
    {
      StepBack(node, |times| - 1 - numNodes);
      timestamps[numNodes] := iterNode.timestamp;
      numNodes := numNodes + 1;
      iterNode := iterNode.parent;
    }
    var window := timestamps[..numNodes];
    var sorted := Sort(window);
    WindowReversed(times, window);
    MiddleIsMedian(window);
    median := sorted[numNodes / 2];
    SameMedian(window, Window(times), median);
    PastMedianTimeIs(times, median);
  }

  lemma StepBack(node: BlockNode, i: nat)
    requires node.Linked() && i < |node.Branch()|
    ensures node.Branch()[i].timestamp == Times(node)[i]
    ensures node.Branch()[i].parent == null <==> i == 0
    ensures i > 0 ==> node.Branch()[i].parent == node.Branch()[i - 1]
  {
    BranchShape(node);
    if i > 0 { SkipPointer(node.Branch()[i]); }
  }

  lemma WindowReversed(times: seq<int>, w: seq<int>)
    requires times != [] && |w| == if |times| < MEDIAN_TIME_BLOCKS then |times| else MEDIAN_TIME_BLOCKS
    requires forall i :: 0 <= i < |w| ==> w[i] == times[|times| - 1 - i]
    ensures 0 < |w| == |Window(times)| && forall i :: 0 <= i < |w| ==> w[i] == Window(times)[|w| - 1 - i]
  {
  }

  lemma PastMedianTimeIs(times: seq<int>, m: int)
    requires times != [] && IsMedian(Window(times), m)
    ensures PastMedianTime(times) == m
  {
    MedianDoesNotDrop(Window(times), m, Window(times), PastMedianTime(times));
    MedianDoesNotDrop(Window(times), PastMedianTime(times), Window(times), m);
  }

  /** Reading the window backwards does not change its median. */
  lemma SameMedian(s: seq<int>, t: seq<int>, m: int)
    requires s != [] && |s| == |t| && forall i :: 0 <= i < |s| ==> s[i] == t[|s| - 1 - i]
    requires IsMedian(s, m)
    ensures IsMedian(t, m)
  {
    ReverseCount(s, t, m);
    ReverseCount(s, t, m + 1);
    var i :| 0 <= i < |s| && s[i] == m;
    assert t[|s| - 1 - i] == m;
  }

  lemma {:induction false} ReverseCount(s: seq<int>, t: seq<int>, v: int)
    requires |s| == |t| && forall i :: 0 <= i < |s| ==> s[i] == t[|s| - 1 - i]
    ensures CountBelow(s, v) == CountBelow(t, v)
  {
    if s != [] {
      var last := |t| - 1;
      ReverseCount(s[1..], t[..last], v);
      assert t == t[..last] + [s[0]];
      CountBelowAppend(t[..last], [s[0]], v);
    }
  }
}
