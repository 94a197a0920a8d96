/** Rebuilding the block index from its bucket when the node starts. */
module Restart {
  import opened ChainTypes
  import opened BlockTree
  import opened BlockKeys
  import opened BlockIndexes

  datatype LoadResult = Loaded(index: BlockIndex) | Failed(reason: string)

  /** `node` was rebuilt from the row that `was` wrote for the node of the same hash. */
  ghost predicate Rebuilt(was: IndexState, key: seq<byte>, node: BlockNode) {
    && key in was.rows && |key| == 36 && HashOfKey(key) in was.index
    && node.hash == HashOfKey(key) && node.Linked()
    && node.Path() == was.index[HashOfKey(key)].Path()
  }

  /** Every row read so far has its node. */
  ghost predicate AllRead(was: IndexState, pending: set<seq<byte>>, index: Nodes) {
    forall key :: key in was.rows && key !in pending ==>
      |key| == 36 && HashOfKey(key) in index && Rebuilt(was, key, index[HashOfKey(key)])
  }

  /** Every node comes from a row that was read. */
  ghost predicate OnlyRead(was: IndexState, pending: set<seq<byte>>, index: Nodes) {
    forall h :: h in index ==> h in was.index && HasRow(was.rows, was.index[h]) && KeyOf(was.index[h]) !in pending
  }

  /** What was read comes before what was not. */
  ghost predicate InOrder(was: IndexState, pending: set<seq<byte>>) {
    forall key, later :: key in was.rows && key !in pending && later in pending ==> Less(key, later)
  }

  ghost predicate Progress(was: IndexState, pending: set<seq<byte>>, index: Nodes) {
    && pending <= was.rows.Keys
    && AllRead(was, pending, index) && OnlyRead(was, pending, index) && InOrder(was, pending)
  }

  // ---------------------------------------------------------------------------
  // What the order of the keys gives
  // ---------------------------------------------------------------------------

  lemma RowNode(s: IndexState, key: seq<byte>)
    requires s.Healthy() && key in s.rows
    ensures |key| == 36 && HashOfKey(key) in s.index && HashOfKey(key) in s.status
    ensures var node := s.index[HashOfKey(key)];
            node.height <= MAX_INT32 && key == KeyOf(node) && s.rows[key].header == node.Header()
  {
    hide BlockNode.Linked, IndexState.NodeHealthy, HaveData, HaveHeader;
    assert s.RowHealthy(key);
  }

  lemma RowParent(s: IndexState, h: Hash)
    requires s.Healthy() && h in s.index && HasRow(s.rows, s.index[h]) && s.index[h].parent != null
    ensures HasRow(s.rows, s.index[h].parent)
  {
    hide BlockNode.Linked, IndexState.RowHealthy, HaveData, HaveHeader;
    assert s.NodeHealthy(h);
  }

  /** The parent's row is there and comes before the child's. */
  lemma ParentFirst(s: IndexState, key: seq<byte>)
    requires s.Healthy() && key in s.rows && |key| == 36 && HashOfKey(key) in s.index
    requires s.index[HashOfKey(key)].parent != null
    ensures var parent := s.index[HashOfKey(key)].parent;
            && HasRow(s.rows, parent) && Less(KeyOf(parent), key)
            && parent.hash == s.rows[key].header.prevBlock && parent.hash in s.index && s.index[parent.hash] == parent
  {
    hide IndexState.Healthy, HaveData, HaveHeader;
    RowNode(s, key);
    var node := s.index[HashOfKey(key)];
    HealthyNode(s, node.hash);
    RowParent(s, node.hash);
    LowerHeightFirst(node.parent.hash, node.parent.height, node.hash, node.height);
  }

  lemma TreeCases(s: IndexState, h: Hash)
    requires s.Healthy() && h in s.index
    ensures s.params.genesis in s.index && s.index[h].Linked() && s.index[h].hash == h && s.index[h].height <= MAX_INT32
    ensures s.index[h].hash == s.params.blockHash(s.index[h].Header())
    ensures s.index[h].parent == null <==> h == s.params.genesis
    ensures s.index[h].parent != null ==> s.index[h].parent.height == s.index[h].height - 1 && s.index[h].parent.Linked()
  {
    hide IndexState.NodeHealthy, IndexState.RowHealthy, HaveData, HaveHeader;
    NodeParent(s, h);
  }

  /** The genesis row comes first. */
  lemma GenesisRow(s: IndexState, key: seq<byte>)
    requires s.Healthy() && key in s.rows && |key| == 36 && HashOfKey(key) in s.index
    ensures HasRow(s.rows, s.index[s.params.genesis])
    ensures key == KeyOf(s.index[s.params.genesis]) || Less(KeyOf(s.index[s.params.genesis]), key)
  {
    hide IndexState.NodeHealthy, IndexState.RowHealthy, HaveData, HaveHeader, Less;
    RowNode(s, key);
    var node, genesis := s.index[HashOfKey(key)], s.index[s.params.genesis];
    TreeCases(s, HashOfKey(key));
    TreeCases(s, s.params.genesis);
    if node.parent != null {
      assert genesis.height == 0;
      LowerHeightFirst(genesis.hash, 0, node.hash, node.height);
    }
  }

  // ---------------------------------------------------------------------------
  // The scan
  // ---------------------------------------------------------------------------

  /** When the first pending key is read its parent, if it has one, has been rebuilt. */
  lemma ParentRebuilt(was: IndexState, pending: set<seq<byte>>, index: Nodes, key: seq<byte>)
    requires was.Healthy() && Progress(was, pending, index) && key in pending
    requires forall other :: other in pending ==> other == key || Less(key, other)
    requires |key| == 36 && HashOfKey(key) != was.params.genesis
    ensures HashOfKey(key) in was.index && was.index[HashOfKey(key)].parent != null
    ensures var parent := was.index[HashOfKey(key)].parent;
            && parent.hash == was.rows[key].header.prevBlock && parent.hash in index
            && index[parent.hash].Linked() && index[parent.hash].hash == parent.hash
            && index[parent.hash].Path() == parent.Path()
  {
    hide IndexState.Healthy, HaveData, HaveHeader, KeyOf, Less, BlockNode.Linked, BlockNode.Header, BlockNode.Path;
    RowNode(was, key);
    TreeCases(was, HashOfKey(key));
    ParentFirst(was, key);
    var parentKey := KeyOf(was.index[HashOfKey(key)].parent);
    assert HashOfKey(parentKey) == was.index[HashOfKey(key)].parent.hash;
    LessTotal(parentKey, key);
    if parentKey in pending { LessTotal(key, parentKey); }
    assert Rebuilt(was, parentKey, index[HashOfKey(parentKey)]);
  }

  /** Reading the first pending key and adding its node. */
  lemma ProgressStep(was: IndexState, pending: set<seq<byte>>, index: Nodes, key: seq<byte>, node: BlockNode)
    requires was.Healthy() && Progress(was, pending, index) && key in pending && Rebuilt(was, key, node)
    requires forall other :: other in pending ==> other == key || Less(key, other)
    ensures node.hash !in index
    ensures Progress(was, pending - {key}, index[node.hash := node])
  {
    hide IndexState.Healthy, HaveData, HaveHeader, KeyOf, Less, BlockNode.Linked, BlockNode.Header, BlockNode.Path;
    hide AllRead, OnlyRead, InOrder;
    RowNode(was, key);
    NotReadYet(was, pending, index, key);
    var pending', index' := pending - {key}, index[node.hash := node];
    AllReadStep(was, pending, index, key, node);
    OnlyReadStep(was, pending, index, key, node);
    InOrderStep(was, pending, key);
  }

  lemma NotReadYet(was: IndexState, pending: set<seq<byte>>, index: Nodes, key: seq<byte>)
    requires OnlyRead(was, pending, index) && key in pending && |key| == 36
    requires HashOfKey(key) in was.index && was.index[HashOfKey(key)].height <= MAX_INT32 && key == KeyOf(was.index[HashOfKey(key)])
    ensures HashOfKey(key) !in index
  {
  }

  lemma AllReadStep(was: IndexState, pending: set<seq<byte>>, index: Nodes, key: seq<byte>, node: BlockNode)
    requires was.Healthy() && AllRead(was, pending, index) && key in pending && Rebuilt(was, key, node) && node.hash !in index
    ensures AllRead(was, pending - {key}, index[node.hash := node])
  {
    hide IndexState.Healthy, KeyOf, Rebuilt;
    assert node.hash == HashOfKey(key) by { RebuiltHash(was, key, node); }
  }

  lemma RebuiltHash(was: IndexState, key: seq<byte>, node: BlockNode)
    requires Rebuilt(was, key, node)
    ensures |key| == 36 && node.hash == HashOfKey(key)
  {
  }

  lemma OnlyReadStep(was: IndexState, pending: set<seq<byte>>, index: Nodes, key: seq<byte>, node: BlockNode)
    requires OnlyRead(was, pending, index) && Rebuilt(was, key, node)
    requires was.index[HashOfKey(key)].height <= MAX_INT32 && key == KeyOf(was.index[HashOfKey(key)])
    ensures OnlyRead(was, pending - {key}, index[node.hash := node])
  {
    hide KeyOf, BlockNode.Linked, BlockNode.Path;
  }

  lemma InOrderStep(was: IndexState, pending: set<seq<byte>>, key: seq<byte>)
    requires InOrder(was, pending) && forall other :: other in pending ==> other == key || Less(key, other)
    ensures InOrder(was, pending - {key})
  {
    hide Less;
  }

  /** `node` stands for the same headers as the written node and has the written status. */
  ghost predicate Restored(was: IndexState, h: Hash, node: BlockNode)
    reads node
  {
    && h in was.index && HasRow(was.rows, was.index[h])
    && node.hash == h && node.Linked() && node.Path() == was.index[h].Path()
    && node.status == was.rows[KeyOf(was.index[h])].status
  }

  ghost predicate ParentKnown(index: Nodes, node: BlockNode) {
    node.parent != null ==> node.parent.hash in index && index[node.parent.hash] == node.parent
  }

  ghost predicate AllParentsKnown(index: Nodes) {
    forall h :: h in index ==> ParentKnown(index, index[h])
  }

  lemma ParentsKnownStep(index: Nodes, node: BlockNode)
    requires AllParentsKnown(index) && ParentKnown(index, node) && node.hash !in index
    ensures AllParentsKnown(index[node.hash := node])
  {
  }

  lemma NoParents()
    ensures AllParentsKnown(map[])
  {
  }

  /** Makes the node for one row: finds its parent, usually the node read just before, and initializes it. */
  method ReadRow(index: BlockIndex, lastNode: BlockNode?, key: seq<byte>, ghost was: IndexState, ghost pending: set<seq<byte>>)
    returns (node: BlockNode?)
    requires was.Healthy() && was.params == index.params && was.rows == index.rows
    requires Progress(was, pending, index.index) && key in pending && pending <= was.rows.Keys
    requires forall other :: other in pending ==> other == key || Less(key, other)
    requires lastNode == null ==> pending == was.rows.Keys
    requires lastNode != null ==>
               && was.params.genesis in index.index
               && lastNode.hash in index.index && index.index[lastNode.hash] == lastNode
    ensures node != null && fresh(node) && Rebuilt(was, key, node) && Restored(was, node.hash, node)
    ensures ParentKnown(index.index, node)
  {
    hide IndexState.Healthy, KeyOf, BlockNode.Linked, BlockNode.Header, BlockNode.Path, BlockNode.Branch, HaveData, HaveHeader, Less;
    hide Progress;
    RowNode(was, key);
    TreeCases(was, HashOfKey(key));
    var row := index.rows[key];
    var parent: BlockNode? := null;
    if lastNode == null {
      FirstIsGenesis(was, key);
      if index.params.blockHash(row.header) != index.params.genesis {
        return null;
      }
    } else {
      NotGenesisAgain(was, pending, index.index, key);
      ParentRebuilt(was, pending, index.index, key);
      if row.header.prevBlock == lastNode.hash {
        parent := lastNode;
      } else {
        parent := index.LookupNode(row.header.prevBlock);
        if parent == null {
          return null;
        }
      }
      HeightOf(parent, was.index[HashOfKey(key)].parent);
    }
    var made := new BlockNode(index.params.blockHash, row.header, parent);
    RebuiltNode(was, key, made);
    made.status := row.status;
    node := made;
  }

  lemma NotGenesisAgain(was: IndexState, pending: set<seq<byte>>, index: Nodes, key: seq<byte>)
    requires was.Healthy() && Progress(was, pending, index) && key in pending && was.params.genesis in index
    ensures |key| == 36 && HashOfKey(key) != was.params.genesis
  {
    hide IndexState.Healthy, KeyOf;
    RowNode(was, key);
    NotReadYet(was, pending, index, key);
  }

  /**
   Reads the rows in key order.  `was` is the state that wrote the rows: the result holds
   exactly the nodes that had a row, and neither failure of the source can happen.
   */
  method LoadBlockIndex(params: Params, rows: Bucket, ghost was: IndexState) returns (r: LoadResult)
    requires was.Healthy() && was.params == params && was.rows == rows
    ensures r.Loaded? && fresh(r.index) && r.index.params == params && r.index.rows == rows && r.index.dirty == {}
    ensures forall h :: h in r.index.index ==> Restored(was, h, r.index.index[h])
    ensures forall h :: h in was.index && HasRow(rows, was.index[h]) ==> h in r.index.index
    ensures AllParentsKnown(r.index.index)
  {
    hide IndexState.Healthy, KeyOf, BlockNode.Linked, BlockNode.Header, BlockNode.Path, BlockNode.Branch, HaveData, HaveHeader, Less;
    hide Progress, Rebuilt, HasRow, ParentKnown, AllParentsKnown, Restored;
    var index := new BlockIndex.FromBucket(params, rows);
    var lastNode: BlockNode? := null;
    var pending := rows.Keys;
    ProgressStart(was);
    NoParents();
    while pending != {}
      invariant Progress(was, pending, index.index) && pending <= rows.Keys
      invariant index.params == params && index.rows == rows && index.dirty == {} && fresh(index)
      invariant lastNode == null ==> pending == rows.Keys
      invariant lastNode != null ==>
                  && params.genesis in index.index
                  && lastNode.hash in index.index && index.index[lastNode.hash] == lastNode
      invariant AllParentsKnown(index.index)
      invariant forall h :: h in index.index ==> Restored(was, h, index.index[h])
      decreases |pending|
    {
      ghost var least := LeastExists(pending);
      var key :| key in pending && forall other :: other in pending ==> other == key || Less(key, other);
      var node := ReadRow(index, lastNode, key, was, pending);
      if node == null {
        return Failed("bad block index");
      }
      if lastNode == null { FirstRebuilt(was, key, node); }
      ProgressStep(was, pending, index.index, key, node);
      ParentsKnownStep(index.index, node);
      index.index := index.index[node.hash := node];
      pending := pending - {key};
      lastNode := node;
    }
    ProgressEnd(was, index.index);
    return Loaded(index);
  }

  lemma ProgressStart(was: IndexState)
    ensures Progress(was, was.rows.Keys, map[])
  {
  }

  lemma ProgressEnd(was: IndexState, index: Nodes)
    requires was.Healthy() && Progress(was, {}, index)
    ensures forall h :: h in was.index && HasRow(was.rows, was.index[h]) ==> h in index
  {
    hide IndexState.Healthy, BlockNode.Linked, BlockNode.Header;
    forall h | h in was.index && HasRow(was.rows, was.index[h])
      ensures h in index
    {
      TreeCases(was, h);
      assert HashOfKey(KeyOf(was.index[h])) == h;
    }
  }

  lemma FirstRebuilt(was: IndexState, key: seq<byte>, node: BlockNode)
    requires was.Healthy() && Rebuilt(was, key, node) && forall other :: other in was.rows ==> other == key || Less(key, other)
    ensures node.hash == was.params.genesis
  {
    FirstIsGenesis(was, key);
  }

  lemma FirstIsGenesis(s: IndexState, key: seq<byte>)
    requires s.Healthy() && key in s.rows && forall other :: other in s.rows ==> other == key || Less(key, other)
    ensures |key| == 36 && HashOfKey(key) == s.params.genesis
  {
    hide IndexState.Healthy, KeyOf, Less, BlockNode.Linked;
    RowNode(s, key);
    TreeCases(s, HashOfKey(key));
    GenesisRow(s, key);
    var first := KeyOf(s.index[s.params.genesis]);
    LessTotal(first, key);
    TreeCases(s, s.params.genesis);
  }

  lemma HeightOf(node: BlockNode, other: BlockNode)
    requires node.Linked() && other.Linked() && node.Path() == other.Path()
    ensures node.height == other.height
  {
    SamePath(node, other);
  }

  /** The node made from a row stands for the same chain of headers as the node that was written. */
  lemma RebuiltNode(was: IndexState, key: seq<byte>, node: BlockNode)
    requires was.Healthy() && key in was.rows && |key| == 36 && HashOfKey(key) in was.index
    requires node.Linked() && node.hash == was.params.blockHash(was.rows[key].header)
    requires was.rows[key].header == was.index[HashOfKey(key)].Header()
    requires node.version == was.rows[key].header.version && node.merkleRoot == was.rows[key].header.merkleRoot
    requires node.timestamp == was.rows[key].header.timestamp
    requires node.bits == was.rows[key].header.bits && node.nonce == was.rows[key].header.nonce
    requires if was.index[HashOfKey(key)].parent == null then node.parent == null
             else node.parent != null && node.parent.hash == was.index[HashOfKey(key)].parent.hash
                  && node.parent.Path() == was.index[HashOfKey(key)].parent.Path()
    ensures Rebuilt(was, key, node)
  {
    hide IndexState.Healthy;
    TreeCases(was, HashOfKey(key));
    assert node.Header() == was.index[HashOfKey(key)].Header();
  }

  // ---------------------------------------------------------------------------
  // A restart as a whole
  // ---------------------------------------------------------------------------

  /** Rows are kept only for data-stored nodes; once everything is flushed, for all of them. */
  lemma RowsAndData(s: IndexState, h: Hash)
    requires s.Healthy() && h in s.index
    ensures HasRow(s.rows, s.index[h]) ==> HaveData(s.status[h]) && HaveData(s.rows[KeyOf(s.index[h])].status)
    ensures s.dirty == {} && HaveData(s.status[h]) ==>
              HasRow(s.rows, s.index[h]) && s.rows[KeyOf(s.index[h])] == Row(s.index[h].Header(), s.status[h])
  {
    hide BlockNode.Linked, HaveData, HaveHeader, BlockNode.Header;
    assert s.NodeHealthy(h);
    if HasRow(s.rows, s.index[h]) {
      assert HashOfKey(KeyOf(s.index[h])) == h;
      assert s.RowHealthy(KeyOf(s.index[h]));
    }
  }

  lemma RestoredKey(was: IndexState, h: Hash, node: BlockNode)
    requires was.Healthy() && h in was.index && HasRow(was.rows, was.index[h])
    requires node.hash == h && node.Linked() && node.Path() == was.index[h].Path()
    ensures HasRow(was.rows, node) && KeyOf(node) == KeyOf(was.index[h])
    ensures was.rows[KeyOf(node)].header == node.Header()
    ensures node.parent == null <==> h == was.params.genesis
    ensures node.parent != null ==> was.index[h].parent != null && node.parent.hash == was.index[h].parent.hash
    ensures node.hash == was.params.blockHash(node.Header()) && node.height <= MAX_INT32
  {
    hide IndexState.Healthy, BlockNode.Linked, BlockNode.Path;
    TreeCases(was, h);
    SamePath(node, was.index[h]);
    assert HashOfKey(KeyOf(was.index[h])) == h;
    RowNode(was, KeyOf(was.index[h]));
  }

  lemma LoadedNodeHealthy(was: IndexState, now: IndexState, h: Hash)
    requires was.Healthy() && now.params == was.params && now.rows == was.rows && now.dirty == {}
    requires now.status.Keys == now.index.Keys && h in now.index
    requires ParentKnown(now.index, now.index[h])
    requires forall g :: g in now.index ==>
               && g in was.index && HasRow(was.rows, was.index[g])
               && now.index[g].hash == g && now.index[g].Linked() && now.index[g].Path() == was.index[g].Path()
               && now.status[g] == was.rows[KeyOf(was.index[g])].status
    ensures now.NodeHealthy(h)
  {
    hide IndexState.Healthy, BlockNode.Linked, BlockNode.Path, BlockNode.Header, KeyOf, HaveData, HaveHeader;
    var node := now.index[h];
    RestoredKey(was, h, node);
    RowsAndData(was, h);
    if node.parent != null {
      RestoredKey(was, node.parent.hash, node.parent);
      RowsAndData(was, node.parent.hash);
    }
  }

  lemma LoadedHealthy(was: IndexState, now: IndexState)
    requires was.Healthy() && now.params == was.params && now.rows == was.rows && now.dirty == {}
    requires now.status.Keys == now.index.Keys
    requires AllParentsKnown(now.index)
    requires forall h :: h in was.index && HasRow(was.rows, was.index[h]) ==> h in now.index
    requires forall g :: g in now.index ==>
               && g in was.index && HasRow(was.rows, was.index[g])
               && now.index[g].hash == g && now.index[g].Linked() && now.index[g].Path() == was.index[g].Path()
               && now.status[g] == was.rows[KeyOf(was.index[g])].status
    ensures now.Healthy()
  {
    hide IndexState.NodeHealthy, IndexState.RowHealthy, BlockNode.Linked, BlockNode.Path, BlockNode.Header, HaveData, HaveHeader, KeyOf;
    forall h | h in now.index
      ensures now.NodeHealthy(h)
    {
      LoadedNodeHealthy(was, now, h);
    }
    forall key | key in now.rows
      ensures now.RowHealthy(key)
    {
      RowNode(was, key);
      LoadedRowHealthy(was, now, key);
    }
    RowsAndData(was, was.params.genesis);
    RestoredKey(was, was.params.genesis, now.index[was.params.genesis]);
  }

  lemma LoadedRowHealthy(was: IndexState, now: IndexState, key: seq<byte>)
    requires was.Healthy() && now.rows == was.rows && now.status.Keys == now.index.Keys && key in was.rows
    requires |key| == 36
    requires HashOfKey(key) in was.index && HasRow(was.rows, was.index[HashOfKey(key)]) ==> HashOfKey(key) in now.index
    requires HashOfKey(key) in now.index ==>
               var g := HashOfKey(key);
               && g in was.index && HasRow(was.rows, was.index[g])
               && now.index[g].hash == g && now.index[g].Linked() && now.index[g].Path() == was.index[g].Path()
               && now.status[g] == was.rows[KeyOf(was.index[g])].status
    ensures now.RowHealthy(key)
  {
    hide IndexState.Healthy, BlockNode.Linked, BlockNode.Path, BlockNode.Header, HaveData, HaveHeader, KeyOf;
    RowNode(was, key);
    var h := HashOfKey(key);
    RestoredKey(was, h, now.index[h]);
    RowsAndData(was, h);
  }

  /**
   Starting again from the bucket.  Whenever it happens, the rebuilt index is a tree with
   the invariant, and every node in it stands for the same chain of headers as before, hence
   has the same parent, height, work and skip pointer (`BlockTree.SamePath`).  Exactly the blocks
   with a row come back; if nothing was dirty these are the stored ones, with their status.
   */
  method RestartIndex(running: BlockIndex) returns (r: LoadResult)
    requires running.Valid()
    ensures r.Loaded? && fresh(r.index) && r.index.Valid() && r.index.dirty == {}
    ensures r.index.index.Keys == running.State().Rowed()
    ensures forall h :: h in r.index.index ==>
              && h in running.index && HaveData(running.index[h].status)
              && r.index.index[h].Linked() && r.index.index[h].Path() == running.index[h].Path()
    ensures running.dirty == {} ==>
              forall h :: h in running.index && HaveData(running.index[h].status) ==>
                h in r.index.index && r.index.index[h].status == running.index[h].status
  {
    hide IndexState.Healthy, KeyOf, BlockNode.Linked, BlockNode.Header, BlockNode.Path, BlockNode.Branch, HaveData, HaveHeader;
    hide AllParentsKnown;
    ghost var was := running.State();
    r := LoadBlockIndex(running.params, running.rows, was);
    LoadedHealthy(was, r.index.State());
    forall h | h in running.index
      ensures HasRow(was.rows, running.index[h]) ==> HaveData(running.index[h].status)
      ensures running.dirty == {} && HaveData(running.index[h].status) ==>
                HasRow(was.rows, running.index[h]) && running.index[h].height <= MAX_INT32
                && was.rows[KeyOf(running.index[h])].status == running.index[h].status
    {
      RowsAndData(was, h);
      TreeCases(was, h);
    }
  }
}
