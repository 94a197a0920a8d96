/** Accepting blocks and headers into the index, and choosing the best header chain. */
module Accept {
  import opened ChainTypes
  import opened BlockTree
  import opened BlockIndexes
  import opened ChainViews

  datatype Error =
    | PreviousBlockUnknown
    | InvalidAncestorBlock
    | KnownInvalidBlock
    | DuplicateBlock
    | RuleViolation
    | DatabaseError

  /** `inBest` is the boolean the source returns when there is no error. */
  datatype Outcome = Accepted(inBest: bool) | Rejected(error: Error)

  /** What became of a submitted block. */
  datatype Processed = Kept | Orphan | Refused(error: Error)

  ghost predicate Known(index: Nodes, node: BlockNode) {
    node.hash in index && index[node.hash] == node
  }

  /** The header's parent is known and not known to be invalid. */
  predicate ParentGood(index: Nodes, status: map<Hash, bv8>, header: Header) {
    header.prevBlock in index && header.prevBlock in status && !KnownInvalid(status[header.prevBlock])
  }

  // ---------------------------------------------------------------------------
  // What a submission does to the index, on values
  // ---------------------------------------------------------------------------

  /** At most the header's own node is new, it is stored as a header, and nothing else changes but rows. */
  ghost predicate HeaderAdded(s: IndexState, s': IndexState, hash: Hash) {
    && s'.params == s.params && Extends(s.index, s'.index) && s'.index.Keys <= s.index.Keys + {hash}
    && s.status.Keys <= s'.status.Keys && (forall h :: h in s.status ==> s'.status[h] == s.status[h])
    && (hash in s'.index && hash !in s.index ==> hash in s'.status && s'.status[hash] == STATUS_HEADER_STORED)
    && s.Rowed() <= s'.Rowed()
  }

  /** The block's own node is there and stored as data, and nothing else changes but rows. */
  ghost predicate BlockAdded(s: IndexState, s': IndexState, hash: Hash) {
    && s'.params == s.params && Extends(s.index, s'.index) && s'.index.Keys == s.index.Keys + {hash}
    && s.status.Keys <= s'.status.Keys && (forall h :: h in s.status && h != hash ==> s'.status[h] == s.status[h])
    && hash in s'.status
    && s'.status[hash] == (if hash in s.status then Raised(s.status[hash], STATUS_DATA_STORED) else STATUS_DATA_STORED | STATUS_HEADER_STORED)
    && s.Rowed() <= s'.Rowed()
  }

  lemma HeaderStored(s: IndexState, s': IndexState, hash: Hash)
    requires HeaderAdded(s, s', hash) && s.status.Keys == s.index.Keys && s'.status.Keys == s'.index.Keys
    ensures s'.Stored() == s.Stored()
  {
    hide HaveData, HasRow;
    StatusFacts();
  }

  lemma BlockStored(s: IndexState, s': IndexState, hash: Hash)
    requires BlockAdded(s, s', hash) && s.status.Keys == s.index.Keys && s'.status.Keys == s'.index.Keys
    ensures s'.Stored() == s.Stored() + {hash}
  {
    hide HaveData, HasRow;
    StatusFacts();
    if hash in s.status { SetBits(s.status[hash], STATUS_DATA_STORED); }
  }

  lemma HeaderUnchanged(s: IndexState, hash: Hash)
    ensures HeaderAdded(s, s, hash)
  {
  }

  lemma HeaderByAdd(s: IndexState, node: BlockNode)
    requires node.hash !in s.index && node.hash !in s.status
    ensures HeaderAdded(s, s.Add(node, STATUS_HEADER_STORED), node.hash)
  {
    StoredAfterAdd(s, node, STATUS_HEADER_STORED);
  }

  lemma BlockByAdd(s: IndexState, node: BlockNode)
    requires node.hash !in s.index && node.hash !in s.status
    ensures BlockAdded(s, s.Add(node, STATUS_DATA_STORED | STATUS_HEADER_STORED), node.hash)
  {
    StoredAfterAdd(s, node, STATUS_DATA_STORED | STATUS_HEADER_STORED);
  }

  lemma BlockByStatus(s: IndexState, hash: Hash)
    requires hash in s.index && hash in s.status
    ensures BlockAdded(s, s.SetStatus(hash, Raised(s.status[hash], STATUS_DATA_STORED)), hash)
  {
    SetBits(s.status[hash], STATUS_DATA_STORED);
    StatusFacts();
    StoredAfterStatus(s, hash, Raised(s.status[hash], STATUS_DATA_STORED));
  }

  // ---------------------------------------------------------------------------
  // The best-header view, on values
  // ---------------------------------------------------------------------------

  /** The view is the branch of a known, accepted node that no accepted header has more work than. */
  ghost predicate BestOk(index: Nodes, view: seq<BlockNode?>, accepted: set<BlockNode>) {
    && view != [] && view[|view| - 1] != null
    && var tip := view[|view| - 1];
       && tip.Linked() && view == tip.Branch() && Known(index, tip) && tip in accepted
       && forall node :: node in accepted ==> Known(index, node) && node.workSum <= tip.workSum
  }

  ghost predicate Extends(index: Nodes, index': Nodes) {
    forall h :: h in index ==> h in index' && index'[h] == index[h]
  }

  lemma BestAfterGrowth(index: Nodes, view: seq<BlockNode?>, accepted: set<BlockNode>, index': Nodes)
    requires BestOk(index, view, accepted) && Extends(index, index')
    ensures BestOk(index', view, accepted)
  {
    hide BlockNode.Linked, BlockNode.Branch;
  }

  lemma BestAfterSwitch(index: Nodes, view: seq<BlockNode?>, accepted: set<BlockNode>, node: BlockNode)
    requires BestOk(index, view, accepted) && node.Linked() && Known(index, node)
    requires view[|view| - 1].workSum <= node.workSum
    ensures BestOk(index, node.Branch(), accepted + {node})
  {
    hide BlockNode.Linked, BlockNode.Branch;
    BranchShape(node);
    assert node.Branch()[|node.Branch()| - 1] == node;
  }

  lemma BestAfterStay(index: Nodes, view: seq<BlockNode?>, accepted: set<BlockNode>, node: BlockNode)
    requires BestOk(index, view, accepted) && Known(index, node)
    requires node.workSum <= view[|view| - 1].workSum
    ensures BestOk(index, view, accepted + {node})
  {
    hide BlockNode.Linked, BlockNode.Branch;
  }

  /** A child carries at least its parent's work. */
  lemma ChildWork(node: BlockNode)
    requires node.Linked() && node.parent != null
    ensures node.parent.workSum <= node.workSum
  {
    hide CalcWork;
  }

  /** Every known branch starts at the genesis node, and all of it is known. */
  lemma {:induction false} BranchKnown(s: IndexState, node: BlockNode)
    requires s.Healthy() && Known(s.index, node)
    ensures node.Linked() && node.Branch()[0] == s.index[s.params.genesis]
    ensures forall n :: n in node.Branch() ==> Known(s.index, n)
    decreases node.height
  {
    hide IndexState.NodeHealthy, IndexState.RowHealthy, HaveData, HaveHeader;
    HealthyNode(s, node.hash);
    if node.parent != null { BranchKnown(s, node.parent); }
  }

  class BlockChain {
    const index: BlockIndex
    const bestHeader: ChainView
    /** Every node a header submission has been accepted for. */
    ghost var accepted: set<BlockNode>

    ghost predicate Valid()
      reads this, index, index.index.Values, bestHeader
    {
      index.Valid() && BestOk(index.index, bestHeader.nodes, accepted)
    }

    constructor (index: BlockIndex, tip: BlockNode)
      requires index.Valid() && Known(index.index, tip)
      ensures Valid() && this.index == index && bestHeader.nodes == tip.Branch() && accepted == {tip} && fresh(bestHeader)
    {
      hide IndexState.Healthy, IndexState.InTree;
      BranchKnown(index.State(), tip);
      BranchShape(tip);
      this.index := index;
      bestHeader := new ChainView(tip);
      accepted := {tip};
    }

    /** The header does not share its hash with a different header that is already known. */
    ghost predicate NoCollision(header: Header)
      reads index
    {
      var hash := index.params.blockHash(header);
      hash in index.index ==> index.index[hash].Header() == header
    }

    /** The chain has not reached the largest height that fits 32 bits. */
    ghost predicate HasRoom(header: Header)
      reads index
    {
      header.prevBlock in index.index ==> index.index[header.prevBlock].height < MAX_INT32
    }

    /**
     Picks the best header chain once `node` is known: a child of the tip becomes the tip, and
     so does any node with strictly more work.
     */
    method ChooseBestHeader(node: BlockNode) returns (isMainChain: bool)
      requires Valid() && Known(index.index, node) && node.parent != null && !bestHeader.Contains(node)
      modifies this`accepted, bestHeader
      ensures Valid() && accepted == old(accepted) + {node}
      ensures isMainChain <==> bestHeader.Contains(node)
      ensures isMainChain <==> node.parent == old(bestHeader.Tip()) || old(bestHeader.Tip()).workSum < node.workSum
      ensures bestHeader.nodes == if isMainChain then node.Branch() else old(bestHeader.nodes)
    {
      hide IndexState.Healthy, BlockNode.Linked, BlockNode.Branch, BlockNode.Header, Known;
      ghost var view := bestHeader.nodes;
      ghost var s := index.State();
      ChooseFacts(s, view, accepted, node);
      if node.parent.hash == bestHeader.Tip().hash {
        BestAfterSwitch(index.index, view, accepted, node);
        bestHeader.SetTip(node);
        accepted := accepted + {node};
        return true;
      }
      if node.workSum <= bestHeader.Tip().workSum {
        var fork := bestHeader.FindFork(node);
        assert fork != null;
        BestAfterStay(index.index, view, accepted, node);
        accepted := accepted + {node};
        return false;
      }
      BestAfterSwitch(index.index, view, accepted, node);
      bestHeader.SetTip(node);
      accepted := accepted + {node};
      return true;
    }

    /** Makes a node for a header whose parent is known and adds it to the index. */
    method AddChild(header: Header, prevNode: BlockNode, status: bv8) returns (node: BlockNode)
      requires index.Valid() && Known(index.index, prevNode) && prevNode.hash == header.prevBlock
      requires index.params.blockHash(header) !in index.index && prevNode.height < MAX_INT32
      requires HaveData(status) || HaveHeader(status)
      requires HaveData(status) ==> HaveData(index.State().status[prevNode.hash])
      modifies index`index, index`dirty
      ensures index.Valid() && fresh(node) && node.status == status
      ensures node.hash == index.params.blockHash(header) && node.Header() == header && node.parent == prevNode
      ensures index.State() == old(index.State()).Add(node, status)
    {
      hide IndexState.Healthy, BlockNode.Linked, HaveData, HaveHeader;
      ghost var s := index.State();
      BranchKnown(s, prevNode);
      node := new BlockNode(index.params.blockHash, header, prevNode);
      node.status := status;
      ChildInTree(s, node);
      assert index.State() == s;
      assert index.Addable(node);
      index.AddNode(node);
    }

    /** The node of a header, added to the index if it is not there; it is not in the best view. */
    method NodeFor(header: Header, prevNode: BlockNode, known: BlockNode?) returns (node: BlockNode)
      requires Valid() && NoCollision(header) && HasRoom(header)
      requires header.prevBlock in index.index && index.index[header.prevBlock] == prevNode
      requires known == index.LookupNode(index.params.blockHash(header))
      requires known != null ==> !bestHeader.Contains(known)
      modifies index`index, index`dirty
      ensures Valid() && Extends(old(index.index), index.index) && bestHeader.nodes == old(bestHeader.nodes)
      ensures Known(index.index, node) && node.parent != null && !bestHeader.Contains(node)
      ensures node.hash == index.params.blockHash(header) && node.Header() == header
      ensures if known == null then fresh(node) && node.status == STATUS_HEADER_STORED && index.State() == old(index.State()).Add(node, STATUS_HEADER_STORED)
              else node == known && index.State() == old(index.State())
    {
      hide IndexState.Healthy, BlockNode.Linked, BlockNode.Branch, BlockNode.Header, HaveData, HaveHeader, BestOk;
      ghost var before, view := index.index, bestHeader.nodes;
      TipKnown(before, view, accepted);
      HealthyNode(index.State(), header.prevBlock);
      StatusFacts();
      if known == null {
        node := AddChild(header, prevNode, STATUS_HEADER_STORED);
      } else {
        node := known;
        HealthyNode(index.State(), index.params.blockHash(header));
        RootInView(index.State(), view, accepted, node);
      }
      BestAfterGrowth(before, view, accepted, index.index);
    }

    /** No stored block waits to be written, so that flushing opens no transaction. */
    ghost predicate NothingToWrite()
      reads index, index.dirty
    {
      forall node :: node in index.dirty ==> !HaveData(node.status)
    }

    /** Adds a node for the header if there is none, and flushes. */
    method KeepHeader(header: Header, prevNode: BlockNode, known: BlockNode?, flushOk: bool) returns (node: BlockNode, flushed: bool)
      requires Valid() && NoCollision(header) && HasRoom(header)
      requires header.prevBlock in index.index && index.index[header.prevBlock] == prevNode
      requires known == index.LookupNode(index.params.blockHash(header))
      requires known != null ==> !bestHeader.Contains(known)
      modifies index
      ensures Valid() && HeaderAdded(old(index.State()), index.State(), index.params.blockHash(header))
      ensures Known(index.index, node) && node.parent != null && !bestHeader.Contains(node)
      ensures node.hash == index.params.blockHash(header) && node.Header() == header && (known == null ==> fresh(node))
      ensures flushed <==> flushOk || old(NothingToWrite())
      ensures flushed ==> index.dirty == {}
    {
      hide IndexState.Healthy, BlockNode.Linked, BlockNode.Branch, BlockNode.Header, HaveData, HaveHeader, BestOk, HeaderAdded, Extends;
      ghost var s := index.State();
      node := NodeFor(header, prevNode, known);
      assert HeaderAdded(s, index.State(), node.hash) by {
        if known == null { HeaderByAdd(s, node); } else { HeaderUnchanged(s, node.hash); }
      }
      assert NothingToWrite() <==> old(NothingToWrite()) by {
        StatusFacts();
        assert index.dirty == s.dirty + if known == null then {node} else {};
      }
      ghost var added := index.State();
      flushed := index.FlushToDB(flushOk);
      FlushKeepsHeader(s, added, index.State(), node.hash);
    }

    /** The last part of accepting a header: add a node if there is none, flush, and choose the best chain. */
    method StoreHeader(header: Header, prevNode: BlockNode, known: BlockNode?, flushOk: bool) returns (r: Outcome)
      requires Valid() && NoCollision(header) && HasRoom(header)
      requires header.prevBlock in index.index && index.index[header.prevBlock] == prevNode
      requires known == index.LookupNode(index.params.blockHash(header))
      requires known != null ==> !bestHeader.Contains(known)
      modifies this`accepted, index, bestHeader
      ensures Valid() && HeaderAdded(old(index.State()), index.State(), index.params.blockHash(header))
      ensures index.params.blockHash(header) in index.index && NoCollision(header)
      ensures known == null ==> fresh(index.index[index.params.blockHash(header)])
      ensures r.Accepted? ==> AcceptedAs(old(bestHeader.nodes), old(accepted), header, r.inBest) && index.dirty == {}
      ensures r.Rejected? ==> accepted == old(accepted) && bestHeader.nodes == old(bestHeader.nodes)
      ensures r.Accepted? <==> flushOk || old(NothingToWrite())
      ensures r.Rejected? ==> r.error == DatabaseError
    {
      hide IndexState.Healthy, BlockNode.Linked, BlockNode.Branch, BlockNode.Header, HaveData, HaveHeader, BestOk, HeaderAdded, NothingToWrite;
      TipKnown(index.index, bestHeader.nodes, accepted);
      var node, flushed := KeepHeader(header, prevNode, known, flushOk);
      if !flushed {
        return Rejected(DatabaseError);
      }
      ghost var kept := index.State();
      var inBest := ChooseBestHeader(node);
      assert index.State() == kept;
      return Accepted(inBest);
    }

    /**
     The header is known and counted as accepted, the result says whether the view now holds it,
     and the view moved only to more work or to a child of the old tip.
     */
    ghost predicate AcceptedAs(view: seq<BlockNode?>, before: set<BlockNode>, header: Header, inBest: bool)
      reads this, index, bestHeader
    {
      && index.params.blockHash(header) in index.index
      && var node := index.index[index.params.blockHash(header)];
         && node.Header() == header && accepted == before + {node}
         && (inBest <==> bestHeader.Contains(node))
         && (bestHeader.nodes == view
             || (bestHeader.nodes == node.Branch() && view != [] && view[|view| - 1] != null
                 && (view[|view| - 1].workSum < node.workSum || node.parent == view[|view| - 1])))
    }

    /**
     What it takes to accept a header: a good parent, no bad mark of its own, and either a place
     in the best view already or both kinds of checks passed and a flush that goes through.
     */
    ghost predicate Acceptable(header: Header, sane: bool, inContext: bool, flushOk: bool)
      reads this, index, index.index.Values, index.dirty, bestHeader
    {
      && ParentGood(index.index, index.State().status, header)
      && var hash := index.params.blockHash(header);
         && (hash in index.index ==> !KnownInvalid(index.index[hash].status))
         && ((hash in index.index && bestHeader.Contains(index.index[hash]))
             || (sane && inContext && (flushOk || NothingToWrite())))
    }

    /**
     Accepts a header: its parent must be known and valid, and it must pass the context-free
     checks (`sane`) and the contextual ones (`inContext`).
     */
    method MaybeAcceptBlockHeader(header: Header, sane: bool, inContext: bool, flushOk: bool) returns (r: Outcome)
      requires Valid() && NoCollision(header) && HasRoom(header)
      modifies this`accepted, index, bestHeader
      ensures Valid() && HeaderAdded(old(index.State()), index.State(), index.params.blockHash(header))
      ensures NoCollision(header) && forall h :: h in index.index && h !in old(index.index) ==> fresh(index.index[h])
      ensures r.Accepted? <==> old(Acceptable(header, sane, inContext, flushOk))
      ensures r.Accepted? ==> AcceptedAs(old(bestHeader.nodes), old(accepted), header, r.inBest)
      ensures r.Accepted? && old(index.dirty) == {} ==> index.dirty == {}
      ensures r.Rejected? ==> accepted == old(accepted) && bestHeader.nodes == old(bestHeader.nodes)
      ensures r.Rejected? && r.error != DatabaseError ==> index.State() == old(index.State())
      ensures r == Rejected(PreviousBlockUnknown) <==> header.prevBlock !in old(index.index)
      ensures r == Rejected(KnownInvalidBlock) <==>
                && ParentGood(old(index.index), old(index.State().status), header)
                && var hash := index.params.blockHash(header);
                   hash in old(index.index) && old(index.index[hash].status) & STATUS_VALIDATE_FAILED != 0
    {
      hide IndexState.Healthy, BlockNode.Linked, BlockNode.Branch, BlockNode.Header, HaveData, HaveHeader, BestOk, KnownInvalid;
      TipKnown(index.index, bestHeader.nodes, accepted);
      HeaderUnchanged(index.State(), index.params.blockHash(header));
      var prevNode := index.LookupNode(header.prevBlock);
      if prevNode == null {
        return Rejected(PreviousBlockUnknown);
      }
      if KnownInvalid(prevNode.status) {
        return Rejected(InvalidAncestorBlock);
      }

      var hash := index.params.blockHash(header);
      var node := index.LookupNode(hash);
      if node != null {
        InvalidBits(node.status);
        if node.status & STATUS_VALIDATE_FAILED != 0 {
          return Rejected(KnownInvalidBlock);
        } else if node.status & STATUS_INVALID_ANCESTOR != 0 {
          return Rejected(InvalidAncestorBlock);
        }
        if bestHeader.Contains(node) {
          HealthyNode(index.State(), hash);
          InView(index.State(), bestHeader.nodes, accepted, node);
          BestAfterStay(index.index, bestHeader.nodes, accepted, node);
          accepted := accepted + {node};
          return Accepted(true);
        }
      }

      if !sane || !inContext {
        return Rejected(RuleViolation);
      }

      r := StoreHeader(header, prevNode, node, flushOk);
    }

    /**
     Accepts a block: it is stored and its node is created, or, if its header is known already,
     that very node is upgraded.  The caller has made sure that the parent's data is stored.
     */
    method MaybeAcceptBlock(header: Header, inContext: bool, storeOk: bool, flushOk: bool) returns (error: Option<Error>)
      requires Valid() && NoCollision(header) && HasRoom(header)
      requires header.prevBlock in index.index ==> index.HaveBlock(header.prevBlock)
      modifies index, if index.params.blockHash(header) in index.index then {index.index[index.params.blockHash(header)]} else {}
      ensures Valid()
      ensures error.None? <==> ParentGood(old(index.index), old(index.State().status), header) && inContext && storeOk && flushOk
      ensures error.Some? ==> error.value in {PreviousBlockUnknown, InvalidAncestorBlock, RuleViolation, DatabaseError}
      ensures error == Some(PreviousBlockUnknown) <==> header.prevBlock !in old(index.index)
      ensures error == Some(InvalidAncestorBlock) <==>
                header.prevBlock in old(index.index) && KnownInvalid(old(index.index[header.prevBlock].status))
      ensures error == Some(RuleViolation) <==> ParentGood(old(index.index), old(index.State().status), header) && !inContext
      ensures error.None? ==> index.dirty == {}
      ensures error.None? || (error == Some(DatabaseError) && storeOk) ==>
                var hash := index.params.blockHash(header);
                && BlockAdded(old(index.State()), index.State(), hash) && index.index[hash].Header() == header
                && (hash !in old(index.index) ==> fresh(index.index[hash]))
      ensures error.Some? && !(error == Some(DatabaseError) && storeOk) ==> index.State() == old(index.State())
    {
      hide IndexState.Healthy, BlockNode.Linked, BlockNode.Branch, BlockNode.Header, HaveData, HaveHeader, BestOk, KnownInvalid, BlockAdded, Extends;
      var prevNode := index.LookupNode(header.prevBlock);
      if prevNode == null {
        return Some(PreviousBlockUnknown);
      } else if KnownInvalid(prevNode.status) {
        return Some(InvalidAncestorBlock);
      }
      if !inContext {
        return Some(RuleViolation);
      }
      if !storeOk {
        return Some(DatabaseError);
      }

      ghost var s := index.State();
      StoreBlockNode(header, prevNode);
      BestAfterGrowth(s.index, bestHeader.nodes, accepted, index.index);
      ghost var added := index.State();
      var flushed := index.FlushToDB(flushOk);
      FlushKeepsBlock(s, added, index.State(), index.params.blockHash(header));
      if !flushed {
        return Some(DatabaseError);
      }
      return None;
    }

    /** Upgrades the node of a known header, or creates one. */
    method StoreBlockNode(header: Header, prevNode: BlockNode)
      requires index.Valid() && NoCollision(header) && HasRoom(header)
      requires index.HaveBlock(header.prevBlock) && index.index[header.prevBlock] == prevNode
      modifies index`index, index`dirty,
        if index.params.blockHash(header) in index.index then {index.index[index.params.blockHash(header)]} else {}
      ensures index.Valid() && BlockAdded(old(index.State()), index.State(), index.params.blockHash(header))
      ensures Extends(old(index.index), index.index) && index.params.blockHash(header) in index.index
      ensures var hash := index.params.blockHash(header);
              && index.index[hash].Header() == header && (hash !in old(index.index) ==> fresh(index.index[hash]))
              && index.index[hash] in index.dirty && HaveData(index.index[hash].status)
    {
      hide IndexState.Healthy, BlockNode.Linked, BlockNode.Branch, BlockNode.Header, HaveData, HaveHeader;
      StatusFacts();
      ghost var s := index.State();
      HealthyNode(s, header.prevBlock);
      var hash := index.params.blockHash(header);
      var newNode := index.LookupNode(hash);
      if newNode != null {
        HealthyNode(s, hash);
        PrevOf(newNode);
        SetBits(newNode.status, STATUS_DATA_STORED);
        BlockByStatus(s, hash);
        index.SetStatusFlags(newNode, STATUS_DATA_STORED);
      } else {
        newNode := AddChild(header, prevNode, STATUS_DATA_STORED | STATUS_HEADER_STORED);
        BlockByAdd(s, newNode);
      }
    }

    /**
     Processes a submitted block: one that is stored or waits as an orphan already (`inPool`) is
     refused, and one whose parent's data is not stored becomes an orphan.
     */
    method ProcessBlock(header: Header, inPool: bool, sane: bool, inContext: bool, storeOk: bool, flushOk: bool)
      returns (r: Processed)
      requires Valid() && NoCollision(header) && HasRoom(header)
      modifies index, if index.params.blockHash(header) in index.index then {index.index[index.params.blockHash(header)]} else {}
      ensures Valid()
      ensures r.Kept? <==>
                && !old(index.HaveBlock(index.params.blockHash(header))) && !inPool && sane && old(index.HaveBlock(header.prevBlock))
                && ParentGood(old(index.index), old(index.State().status), header) && inContext && storeOk && flushOk
      ensures r.Orphan? <==>
                !old(index.HaveBlock(index.params.blockHash(header))) && !inPool && sane && !old(index.HaveBlock(header.prevBlock))
      ensures r == Refused(DuplicateBlock) <==> old(index.HaveBlock(index.params.blockHash(header))) || inPool
      ensures r.Kept? ==> index.dirty == {}
      ensures r.Kept? || (r == Refused(DatabaseError) && storeOk) ==>
                var hash := index.params.blockHash(header);
                && BlockAdded(old(index.State()), index.State(), hash) && index.index[hash].Header() == header
                && (hash !in old(index.index) ==> fresh(index.index[hash]))
      ensures !r.Kept? && !(r == Refused(DatabaseError) && storeOk) ==> index.State() == old(index.State())
    {
      hide IndexState.Healthy, BlockNode.Linked, BlockNode.Branch, BlockNode.Header, HaveData, HaveHeader, BestOk, KnownInvalid, BlockAdded;
      if index.HaveBlock(index.params.blockHash(header)) || inPool {
        return Refused(DuplicateBlock);
      }
      if !sane {
        return Refused(RuleViolation);
      }
      if !index.HaveBlock(header.prevBlock) {
        return Orphan;
      }
      var error := MaybeAcceptBlock(header, inContext, storeOk, flushOk);
      r := if error.None? then Kept else Refused(error.value);
    }
  }

  /** Flushing changes rows only. */
  lemma FlushKeepsHeader(s: IndexState, added: IndexState, s': IndexState, hash: Hash)
    requires HeaderAdded(s, added, hash) && s'.params == added.params && s'.index == added.index && s'.status == added.status
    requires added.Rowed() <= s'.Rowed()
    ensures HeaderAdded(s, s', hash)
  {
  }

  lemma FlushKeepsBlock(s: IndexState, added: IndexState, s': IndexState, hash: Hash)
    requires BlockAdded(s, added, hash) && s'.params == added.params && s'.index == added.index && s'.status == added.status
    requires added.Rowed() <= s'.Rowed()
    ensures BlockAdded(s, s', hash)
  {
  }

  /** What chain selection relies on: linked branches with a common root, and hashes that name nodes. */
  lemma ChooseFacts(s: IndexState, view: seq<BlockNode?>, accepted: set<BlockNode>, node: BlockNode)
    requires s.Healthy() && BestOk(s.index, view, accepted) && Known(s.index, node) && node.parent != null
    ensures node.Linked() && |node.Branch()| == node.height + 1 && node.Branch()[node.height] == node
    ensures view != [] && view[|view| - 1] != null && view[|view| - 1].Linked() && view == view[|view| - 1].Branch()
    ensures node.parent.hash == view[|view| - 1].hash <==> node.parent == view[|view| - 1]
    ensures node.parent.workSum <= node.workSum
    ensures view[0] in node.Branch()
  {
    hide IndexState.Healthy, BlockNode.Linked, BlockNode.Branch, BlockNode.Header;
    var tip := view[|view| - 1];
    BranchKnown(s, node);
    BranchKnown(s, tip);
    BranchShape(node);
    ChildWork(node);
    HealthyNode(s, node.hash);
  }

  lemma TipKnown(index: Nodes, view: seq<BlockNode?>, accepted: set<BlockNode>)
    requires BestOk(index, view, accepted)
    ensures view != [] && view[|view| - 1] != null
  {
  }

  /** The genesis node is in every view, so a known node outside the view has a parent. */
  lemma RootInView(s: IndexState, view: seq<BlockNode?>, accepted: set<BlockNode>, node: BlockNode)
    requires s.Healthy() && BestOk(s.index, view, accepted) && Known(s.index, node)
    requires node.height < |view| ==> view[node.height] != node
    ensures node.parent != null
  {
    hide IndexState.Healthy;
    BranchKnown(s, node);
    BranchKnown(s, view[|view| - 1]);
  }

  lemma ChildInTree(s: IndexState, node: BlockNode)
    requires s.Healthy() && node.Linked() && node.parent != null && Known(s.index, node.parent)
    requires node.hash == s.params.blockHash(node.Header()) && node.hash !in s.index && node.parent.height < MAX_INT32
    ensures s.InTree(node)
  {
    hide IndexState.NodeHealthy, IndexState.RowHealthy, HaveData, HaveHeader, BlockNode.Header;
  }

  /** A node of the view has at most the tip's work. */
  lemma InView(s: IndexState, view: seq<BlockNode?>, accepted: set<BlockNode>, node: BlockNode)
    requires BestOk(s.index, view, accepted) && node in view
    ensures node.workSum <= view[|view| - 1].workSum
  {
    BranchWork(view[|view| - 1], node);
  }

  lemma {:induction false} BranchWork(tip: BlockNode, node: BlockNode)
    requires tip.Linked() && node in tip.Branch()
    ensures node.workSum <= tip.workSum
    decreases tip.height
  {
    hide CalcWork;
    if node != tip { BranchWork(tip.parent, node); }
  }

  lemma StatusFacts()
    ensures HaveHeader(STATUS_HEADER_STORED) && !HaveData(STATUS_HEADER_STORED)
    ensures HaveData(STATUS_DATA_STORED) && HaveData(STATUS_DATA_STORED | STATUS_HEADER_STORED)
  {
  }

  lemma PrevOf(node: BlockNode)
    ensures node.parent != null ==> node.Header().prevBlock == node.parent.hash
  {
  }

  lemma InvalidBits(status: bv8)
    ensures KnownInvalid(status) <==> status & STATUS_VALIDATE_FAILED != 0 || status & STATUS_INVALID_ANCESTOR != 0
  {
  }
}
