/** A flat view of one branch of the block tree, from its tip back to the root. */
module ChainViews {
  import opened ChainTypes
  import opened BlockTree

  class ChainView {
    var nodes: seq<BlockNode?>

    /** The view is empty or exactly the branch of its tip. */
    ghost predicate Consistent()
      reads this
    {
      nodes != [] ==> nodes[|nodes| - 1] != null && nodes[|nodes| - 1].Linked() && nodes == nodes[|nodes| - 1].Branch()
    }

    constructor (tip: BlockNode?)
      requires tip != null ==> tip.Linked()
      ensures Consistent() && nodes == (if tip == null then [] else tip.Branch())
    {
      nodes := [];
      new;
      SetTip(tip);
    }

    function Tip(): (tip: BlockNode?)
      reads this
    {
      if nodes == [] then null else nodes[|nodes| - 1]
    }

    function NodeByHeight(height: int): (node: BlockNode?)
      reads this
    {
      if height < 0 || height >= |nodes| then null else nodes[height]
    }

    predicate Contains(node: BlockNode)
      reads this
    {
      NodeByHeight(node.height) == node
    }

    /**
     Makes `tip` the tip.  The view is resized and rewritten downwards only until a node that
     is already in place; the rest is left as it was.
     */
    method SetTip(tip: BlockNode?)
      requires Consistent() && (tip != null ==> tip.Linked())
      modifies this
      ensures Consistent() && nodes == (if tip == null then [] else tip.Branch())
    {
      hide BlockNode.Linked, BlockNode.Branch, Rewritten;
      if tip == null {
        nodes := [];
        return;
      }
      BranchShape(tip);
      ghost var before, branch := nodes, tip.Branch();
      var needed := tip.height + 1;
      if |nodes| < needed {
        nodes := nodes + seq(needed - |nodes|, _ => null);
      } else {
        nodes := nodes[..needed];
      }
      RewriteNone(before, branch, nodes);
      var node: BlockNode? := tip;
      while node != null && nodes[node.height] != node
        invariant |nodes| == needed
        invariant node != null ==> node.height < needed && node == branch[node.height]
        invariant Rewritten(before, branch, nodes, if node == null then 0 else node.height + 1)
        decreases if node == null then 0 else node.height + 1
      {
        StepDown(tip, node.height);
        RewriteOne(before, branch, nodes, node.height);
        nodes := nodes[node.height := node];
        node := node.parent;
      }
      RewriteRest(before, tip, nodes, node);
    }

    /** The last block the view and the node's branch have in common. */
    method FindFork(node: BlockNode?) returns (fork: BlockNode?)
      requires Consistent() && (node != null ==> node.Linked())
      ensures node == null ==> fork == null
      ensures fork != null ==> node != null && fork in nodes && fork in node.Branch()
      ensures fork != null ==> forall n :: n in nodes && n in node.Branch() ==> n.height <= fork.height
      ensures fork == null ==> node == null || forall n :: n in nodes ==> n !in node.Branch()
    {
      hide BlockNode.Linked, BlockNode.Branch, Apart, Consistent;
      if node == null {
        return null;
      }
      fork := WalkToView(node);
      BranchShape(node);
      ViewShape();
      ApartEnd(nodes, node.Branch(), if fork == null then 0 else fork.height + 1);
    }

    /** Walks down from the node, or from its ancestor at the height of the view, until the view is met. */
    method WalkToView(node: BlockNode) returns (n: BlockNode?)
      requires Consistent() && node.Linked()
      ensures n != null ==> n.height < |node.Branch()| && n == node.Branch()[n.height] && Contains(n)
      ensures Apart(nodes, node.Branch(), if n == null then 0 else n.height + 1)
    {
      hide BlockNode.Linked, BlockNode.Branch, Apart, Consistent;
      BranchShape(node);
      ghost var branch := node.Branch();
      n := node;
      var chainHeight := |nodes| - 1;
      if node.height > chainHeight {
        var back := node.Ancestor(chainHeight);
        n := back;
      }
      ApartBeyond(nodes, branch);
      while n != null && !Contains(n)
        invariant n != null ==> n.height < |branch| && n == branch[n.height]
        invariant Apart(nodes, branch, if n == null then 0 else n.height + 1)
        decreases if n == null then 0 else n.height + 1
      {
        StepDown(node, n.height);
        ApartStep(nodes, branch, n.height);
        n := n.parent;
      }
    }

    lemma ViewShape()
      requires Consistent()
      ensures forall i :: 0 <= i < |nodes| ==> nodes[i] != null && nodes[i].height == i && nodes[i].Linked()
    {
      if nodes != [] { BranchShape(nodes[|nodes| - 1]); }
    }
  }

  /** At height `k` and above the view and the branch have nothing in common. */
  ghost predicate Apart(view: seq<BlockNode?>, branch: seq<BlockNode>, k: nat) {
    forall i :: k <= i < |view| && i < |branch| ==> view[i] != branch[i]
  }

  lemma ApartBeyond(view: seq<BlockNode?>, branch: seq<BlockNode>)
    ensures Apart(view, branch, |view|) && Apart(view, branch, |branch|)
  {
  }

  lemma ApartStep(view: seq<BlockNode?>, branch: seq<BlockNode>, k: nat)
    requires Apart(view, branch, k + 1) && k < |branch| && (k < |view| ==> view[k] != branch[k])
    ensures Apart(view, branch, k)
  {
  }

  lemma ApartEnd(view: seq<BlockNode?>, branch: seq<BlockNode>, k: nat)
    requires Apart(view, branch, k)
    requires forall i :: 0 <= i < |view| ==> view[i] != null && view[i].height == i
    requires forall i :: 0 <= i < |branch| ==> branch[i].height == i
    ensures forall m :: m in view && m in branch ==> m.height < k
  {
    forall m | m in view && m in branch
      ensures m.height < k
    {
      var i :| 0 <= i < |view| && view[i] == m;
      var j :| 0 <= j < |branch| && branch[j] == m;
    }
  }

  /** From height `k` up the view is the new branch; below it still is what it was before, or empty. */
  ghost predicate Rewritten(before: seq<BlockNode?>, branch: seq<BlockNode>, view: seq<BlockNode?>, k: nat) {
    && k <= |view| == |branch|
    && (forall i :: k <= i < |view| ==> view[i] == branch[i])
    && (forall i :: 0 <= i < k ==> view[i] == if i < |before| then before[i] else null)
  }

  lemma RewriteNone(before: seq<BlockNode?>, branch: seq<BlockNode>, view: seq<BlockNode?>)
    requires |view| == |branch|
    requires forall i :: 0 <= i < |view| ==> view[i] == if i < |before| then before[i] else null
    ensures Rewritten(before, branch, view, |view|)
  {
  }

  lemma RewriteOne(before: seq<BlockNode?>, branch: seq<BlockNode>, view: seq<BlockNode?>, k: nat)
    requires Rewritten(before, branch, view, k + 1)
    ensures Rewritten(before, branch, view[k := branch[k]], k)
  {
  }

  /** Where the rewriting stops, nothing is left to do. */
  lemma RewriteRest(before: seq<BlockNode?>, tip: BlockNode, view: seq<BlockNode?>, node: BlockNode?)
    requires before != [] ==>
               before[|before| - 1] != null && before[|before| - 1].Linked() && before == before[|before| - 1].Branch()
    requires tip.Linked() && |tip.Branch()| == tip.height + 1
    requires Rewritten(before, tip.Branch(), view, if node == null then 0 else node.height + 1)
    requires node != null ==> node.height <= tip.height && node == tip.Branch()[node.height] && view[node.height] == node
    ensures view == tip.Branch() && view[|view| - 1] == tip
  {
    hide BlockNode.Linked, BlockNode.Branch;
    if node != null {
      SharedPrefix(before, tip, node);
    }
    BranchLast(tip);
  }

  lemma BranchLast(tip: BlockNode)
    ensures tip.Branch() != [] && tip.Branch()[|tip.Branch()| - 1] == tip
  {
  }

  /** Two branches that share a node share everything below it. */
  lemma SharedPrefix(view: seq<BlockNode?>, tip: BlockNode, node: BlockNode)
    requires view != [] && view[|view| - 1] != null && view[|view| - 1].Linked() && view == view[|view| - 1].Branch()
    requires tip.Linked() && node.height <= tip.height && node.height < |view|
    requires view[node.height] == node && |tip.Branch()| == tip.height + 1 && tip.Branch()[node.height] == node
    ensures forall i :: 0 <= i <= node.height ==> view[i] == tip.Branch()[i]
  {
    hide BlockNode.Linked, BlockNode.Branch;
    BranchShape(view[|view| - 1]);
    BranchPrefix(view[|view| - 1], node.height);
    BranchPrefix(tip, node.height);
    assert forall i :: 0 <= i <= node.height ==> view[i] == node.Branch()[i] && tip.Branch()[i] == node.Branch()[i];
  }

  lemma StepDown(tip: BlockNode, i: nat)
    requires tip.Linked() && i <= tip.height
    ensures |tip.Branch()| == tip.height + 1 && tip.Branch()[i].height == i
    ensures i == 0 ==> tip.Branch()[i].parent == null
    ensures i > 0 ==>
              && tip.Branch()[i].parent != null && tip.Branch()[i].parent == tip.Branch()[i - 1]
              && tip.Branch()[i].parent.Linked() && tip.Branch()[i].parent.height == i - 1
  {
    BranchShape(tip);
    if i > 0 { SkipPointer(tip.Branch()[i]); }
  }
}
