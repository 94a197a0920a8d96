/** The tips of side branches. */
module InactiveTips {
  import opened ChainTypes
  import opened BlockTree
  import opened ChainViews
  import opened BlockIndexes
  import opened Accept

  /** The known blocks outside the best chain. */
  ghost function Outside(index: Nodes, bestChain: ChainView): (r: set<Hash>)
    reads bestChain
  {
    set h | h in index && !bestChain.Contains(index[h])
  }

  /** Outside the best chain, and no known block builds on it. */
  ghost predicate IsTip(index: Nodes, bestChain: ChainView, n: BlockNode)
    reads bestChain
  {
    Known(index, n) && !bestChain.Contains(n) && forall h :: h in index ==> index[h].parent != n
  }

  /** The parent of a block in the best chain is in the best chain. */
  lemma ParentInView(view: ChainView, n: BlockNode)
    requires view.Consistent() && view.Contains(n) && n.parent != null && n.Linked()
    ensures view.Contains(n.parent)
  {
    hide BlockNode.Branch, BlockNode.Linked;
    BranchShape(view.Tip());
    BranchPrefix(view.Tip(), n.height);
    BranchShape(n);
    SkipPointer(n);
    assert n.Branch()[n.height - 1] == view.Tip().Branch()[n.height - 1];
  }

  /** `orphans` are the nodes seen so far outside the best chain, and `parents` the hashes of their parents. */
  ghost predicate Gathered(index: Nodes, outside: set<Hash>, seen: set<Hash>, orphans: Nodes, parents: set<Hash>) {
    && orphans.Keys == seen * outside && outside <= index.Keys && (forall h :: h in orphans ==> orphans[h] == index[h])
    && (forall h :: h in orphans ==> orphans[h].parent != null && orphans[h].parent.hash in parents)
    && (forall p :: p in parents ==> exists h :: h in orphans && orphans[h].parent != null && orphans[h].parent.hash == p)
  }

  lemma GatherStep(index: Nodes, outside: set<Hash>, seen: set<Hash>, orphans: Nodes, parents: set<Hash>, h: Hash)
    requires Gathered(index, outside, seen, orphans, parents) && h in index && h !in seen
    requires h in outside ==> index[h].parent != null
    ensures if h in outside then Gathered(index, outside, seen + {h}, orphans[h := index[h]], parents + {index[h].parent.hash})
            else Gathered(index, outside, seen + {h}, orphans, parents)
  {
    if h in outside {
      var more, bigger := orphans[h := index[h]], parents + {index[h].parent.hash};
      forall p | p in bigger ensures exists k :: k in more && more[k].parent != null && more[k].parent.hash == p {
        if p in parents {
          var k :| k in orphans && orphans[k].parent != null && orphans[k].parent.hash == p;
          assert k in more && more[k] == orphans[k];
        } else {
          assert more[h].parent.hash == p;
        }
      }
    }
  }

  method FindOrphans(index: BlockIndex, bestChain: ChainView) returns (orphans: Nodes, parents: set<Hash>)
    requires index.Valid() && index.params.genesis in index.index && bestChain.Contains(index.index[index.params.genesis])
    ensures Gathered(index.index, Outside(index.index, bestChain), index.index.Keys, orphans, parents)
  {
    hide IndexState.Healthy, Gathered;
    orphans, parents := map[], {};
    ghost var outside, seen: set<Hash> := Outside(index.index, bestChain), {};
    GatherNone(index.index, outside);
    var todo := index.index.Keys;
    while todo != {}
      invariant seen + todo == index.index.Keys && seen !! todo && Gathered(index.index, outside, seen, orphans, parents)
      decreases |todo|
    {
      var h :| h in todo;
      if h in outside { HasParent(index.State(), bestChain, h); }
      GatherStep(index.index, outside, seen, orphans, parents, h);
      todo, seen := todo - {h}, seen + {h};
      var node := index.index[h];
      if !bestChain.Contains(node) {
        orphans := orphans[h := node];
        parents := parents + {node.parent.hash};
      }
    }
    assert seen == index.index.Keys;
  }

  lemma GatherNone(index: Nodes, outside: set<Hash>)
    requires outside <= index.Keys
    ensures Gathered(index, outside, {}, map[], {})
  {
  }

  lemma HasParent(s: IndexState, bestChain: ChainView, h: Hash)
    requires s.Healthy() && h in s.index && s.params.genesis in s.index
    requires bestChain.Contains(s.index[s.params.genesis]) && !bestChain.Contains(s.index[h])
    ensures s.index[h].parent != null
  {
    hide IndexState.Healthy, IndexState.InTree, HaveData, HaveHeader, ChainView.Contains;
    HealthyNode(s, h);
    OnlyGenesis(s, h);
  }

  lemma OnlyGenesis(s: IndexState, h: Hash)
    requires h in s.index && s.index[h].hash == h && s.InTree(s.index[h])
    ensures s.index[h].parent == null ==> h == s.params.genesis
  {
    hide BlockNode.Linked, BlockNode.Header;
  }

  /** The blocks outside the best chain that are not the parent of another one are the tips. */
  method FindTips(orphans: Nodes, orphanParent: set<Hash>) returns (tips: set<BlockNode>)
    ensures forall n :: n in tips <==> exists h :: h in orphans && orphans[h] == n && h !in orphanParent
  {
    tips := {};
    var todo, parents := orphans.Keys, orphanParent;
    while todo != {}
      invariant todo <= orphans.Keys && orphanParent * todo <= parents <= orphanParent
      invariant forall n :: n in tips <==> exists h :: h in orphans && h !in todo && orphans[h] == n && h !in orphanParent
      decreases |todo|
    {
      var h :| h in todo;
      todo := todo - {h};
      if h !in parents {
        tips := tips + {orphans[h]};
      }
      parents := parents - {h};
    }
  }

  /** Every tip of a side branch, and nothing else. */
  method FindInactiveTips(index: BlockIndex, bestChain: ChainView) returns (tips: set<BlockNode>)
    requires index.Valid() && bestChain.Consistent()
    requires index.params.genesis in index.index && bestChain.Contains(index.index[index.params.genesis])
    ensures forall n :: n in tips <==> IsTip(index.index, bestChain, n)
  {
    hide IndexState.Healthy, Gathered, IsTip, ChainView.Consistent;
    var orphans, parents := FindOrphans(index, bestChain);
    tips := FindTips(orphans, parents);
    forall n ensures n in tips <==> IsTip(index.index, bestChain, n) {
      TipMeans(index.State(), bestChain, orphans, parents, n);
    }
  }

  lemma TipMeans(s: IndexState, bestChain: ChainView, orphans: Nodes, parents: set<Hash>, n: BlockNode)
    requires s.Healthy() && bestChain.Consistent() && Gathered(s.index, Outside(s.index, bestChain), s.index.Keys, orphans, parents)
    ensures IsTip(s.index, bestChain, n) <==> exists h :: h in orphans && orphans[h] == n && h !in parents
  {
    hide IndexState.Healthy, ChainView.Consistent, IndexState.InTree, HaveData, HaveHeader;
    if IsTip(s.index, bestChain, n) {
      assert n.hash in orphans;
      if n.hash in parents {
        var h :| h in orphans && orphans[h].parent != null && orphans[h].parent.hash == n.hash;
        HealthyNode(s, h);
      }
    }
    if h :| h in orphans && orphans[h] == n && h !in parents {
      HealthyNode(s, h);
      forall k | k in s.index ensures s.index[k].parent != n {
        HealthyNode(s, k);
        NotParent(s, bestChain, k, n);
      }
    }
  }

  /** A known block on top of `n` would be outside the best chain too. */
  lemma NotParent(s: IndexState, bestChain: ChainView, k: Hash, n: BlockNode)
    requires k in s.index && s.InTree(s.index[k]) && bestChain.Consistent() && !bestChain.Contains(n)
    ensures s.index[k].parent == n ==> !bestChain.Contains(s.index[k])
  {
    hide ChainView.Consistent, ChainView.Contains, BlockNode.Linked;
    if s.index[k].parent == n && bestChain.Contains(s.index[k]) {
      ParentInView(bestChain, s.index[k]);
    }
  }
}
