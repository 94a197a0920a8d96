/**
 The block index: all known nodes by hash, the nodes whose status has changed since they
 were last written, and the database bucket they are written to.
 */
module BlockIndexes {
  import opened ChainTypes
  import opened BlockTree
  import opened BlockKeys

  /** One entry of the block index bucket. */
  datatype Row = Row(header: Header, status: bv8)

  type Nodes = map<Hash, BlockNode>
  type Bucket = map<seq<byte>, Row>

  function KeyOf(node: BlockNode): (key: seq<byte>)
    requires node.height <= MAX_INT32
    ensures |key| == 36 && key[4..] == node.hash
  {
    BlockIndexKey(node.hash, node.height)
  }

  /** The hash part of a key. */
  function HashOfKey(key: seq<byte>): (hash: Hash)
    requires |key| == 36
  {
    key[4..]
  }

  // ---------------------------------------------------------------------------
  // The invariant, on values
  // ---------------------------------------------------------------------------

  datatype Params = Params(blockHash: Header -> Hash, genesis: Hash)

  ghost predicate HasRow(rows: Bucket, node: BlockNode) {
    node.height <= MAX_INT32 && KeyOf(node) in rows
  }

  /** A block index with the statuses of its nodes read off. */
  datatype IndexState = IndexState(params: Params, index: Nodes, status: map<Hash, bv8>, dirty: set<BlockNode>, rows: Bucket)
  {
    /** `node` is a linked node whose parent is known under its own hash; only the genesis node has none. */
    ghost predicate InTree(node: BlockNode) {
      && node.Linked() && node.height <= MAX_INT32
      && node.hash == params.blockHash(node.Header())
      && (if node.parent == null then node.hash == params.genesis
          else node.hash != params.genesis && node.parent.hash in index && index[node.parent.hash] == node.parent)
    }

    /**
     What the index keeps for each hash: the node is in the tree; it is stored as data or as a
     header; data and rows are stored from the root up without gaps; and a data-stored node
     that is not dirty has an up-to-date row.
     */
    ghost predicate NodeHealthy(h: Hash) {
      && h in index && h in status
      && var node, flags := index[h], status[h];
         && node.hash == h && InTree(node)
         && (HaveData(flags) || HaveHeader(flags))
         && (HaveData(flags) && node !in dirty ==>
               HasRow(rows, node) && rows[KeyOf(node)] == Row(node.Header(), flags))
         && (node.parent != null ==>
               && node.parent.hash in status
               && (HaveData(flags) ==> HaveData(status[node.parent.hash]))
               && (HasRow(rows, node) ==> HasRow(rows, node.parent)))
    }

    /** Rows belong to data-stored nodes. */
    ghost predicate RowHealthy(key: seq<byte>) {
      && key in rows && |key| == 36 && HashOfKey(key) in index && HashOfKey(key) in status
      && var node := index[HashOfKey(key)];
         && node.height <= MAX_INT32 && key == KeyOf(node)
         && rows[key].header == node.Header() && HaveData(rows[key].status) && HaveData(status[HashOfKey(key)])
    }

    ghost predicate Healthy() {
      && params.genesis in index && params.genesis in status && HaveData(status[params.genesis])
      && HasRow(rows, index[params.genesis])
      && status.Keys == index.Keys && dirty <= index.Values
      && (forall h {:trigger NodeHealthy(h)} :: h in index ==> NodeHealthy(h))
      && (forall key {:trigger RowHealthy(key)} :: key in rows ==> RowHealthy(key))
    }

    /** The blocks whose data is stored. */
    ghost function Stored(): (hashes: set<Hash>) {
      set h | h in index && h in status && HaveData(status[h])
    }

    /** The blocks that have a row, and so are found again after a restart. */
    ghost function Rowed(): (hashes: set<Hash>) {
      set h | h in index && HasRow(rows, index[h])
    }

    ghost function Add(node: BlockNode, flags: bv8): IndexState {
      this.(index := index[node.hash := node], status := status[node.hash := flags], dirty := dirty + {node})
    }

    ghost function SetStatus(h: Hash, flags: bv8): IndexState
      requires h in index
    {
      this.(status := status[h := flags], dirty := dirty + {index[h]})
    }
  }

  lemma NodeParent(s: IndexState, h: Hash)
    requires s.NodeHealthy(h)
    ensures h in s.index && h in s.status && s.index[h].hash == h && s.InTree(s.index[h])
    ensures s.index[h].parent != null ==>
              var p := s.index[h].parent.hash; p != h && p in s.index && s.index[p] == s.index[h].parent && p in s.status
  {
  }

  lemma RowKey(s: IndexState, key: seq<byte>)
    requires s.RowHealthy(key)
    ensures |key| == 36 && HashOfKey(key) in s.index && HashOfKey(key) in s.status
  {
  }

  /** A node stays healthy when it and its parent keep their entries. */
  lemma NodeFrame(s: IndexState, h: Hash, s': IndexState)
    requires s.NodeHealthy(h) && s'.params == s.params && s'.rows == s.rows
    requires h in s'.index && s'.index[h] == s.index[h] && h in s'.status && s'.status[h] == s.status[h]
    requires s.index[h] in s.dirty ==> s.index[h] in s'.dirty
    requires s.index[h].parent != null ==>
               var p := s.index[h].parent.hash;
               && p in s'.index && s'.index[p] == s.index[p] && p in s'.status
               && (HaveData(s.status[p]) ==> HaveData(s'.status[p]))
    ensures s'.NodeHealthy(h)
  {
    hide BlockNode.Linked, HaveData, HaveHeader, KeyOf, BlockNode.Header;
  }

  lemma RowFrame(s: IndexState, key: seq<byte>, s': IndexState)
    requires s.RowHealthy(key) && key in s'.rows && s'.rows[key] == s.rows[key]
    requires HashOfKey(key) in s'.index && s'.index[HashOfKey(key)] == s.index[HashOfKey(key)]
    requires HashOfKey(key) in s'.status && (HaveData(s.status[HashOfKey(key)]) ==> HaveData(s'.status[HashOfKey(key)]))
    ensures s'.RowHealthy(key)
  {
  }

  lemma ValuesGrow(index: Nodes, node: BlockNode)
    requires node.hash !in index
    ensures index[node.hash := node].Values == index.Values + {node}
  {
    var index' := index[node.hash := node];
    forall n | n in index.Values + {node}
      ensures n in index'.Values
    {
      if n in index.Values {
        var h :| h in index && index[h] == n;
        assert index'[h] == n;
      } else {
        assert index'[node.hash] == node;
      }
    }
  }

  lemma NewNodeHealthy(s: IndexState, node: BlockNode, flags: bv8)
    requires s.Healthy() && node.hash !in s.index && node.parent != null && s.InTree(node)
    requires HaveData(flags) || HaveHeader(flags)
    requires HaveData(flags) ==> HaveData(s.status[node.parent.hash])
    ensures s.Add(node, flags).NodeHealthy(node.hash)
  {
    hide BlockNode.Linked, HaveData, HaveHeader, BlockNode.Header;
    assert KeyOf(node) in s.rows ==> s.RowHealthy(KeyOf(node));
  }

  lemma HealthyAfterAdd(s: IndexState, node: BlockNode, flags: bv8)
    requires s.Healthy() && node.hash !in s.index && node.parent != null && s.InTree(node)
    requires HaveData(flags) || HaveHeader(flags)
    requires HaveData(flags) ==> HaveData(s.status[node.parent.hash])
    ensures s.Add(node, flags).Healthy()
  {
    hide BlockNode.Linked, HaveData, HaveHeader, KeyOf, BlockNode.Header, IndexState.NodeHealthy, IndexState.RowHealthy;
    var s' := s.Add(node, flags);
    forall h | h in s'.index
      ensures s'.NodeHealthy(h)
    {
      if h == node.hash {
        NewNodeHealthy(s, node, flags);
      } else {
        NodeParent(s, h);
        NodeFrame(s, h, s');
      }
    }
    forall key | key in s'.rows
      ensures s'.RowHealthy(key)
    {
      RowKey(s, key);
      RowFrame(s, key, s');
    }
    ValuesGrow(s.index, node);
  }

  lemma ChangedNodeHealthy(s: IndexState, h: Hash, flags: bv8)
    requires s.NodeHealthy(h) && (HaveData(flags) || HaveHeader(flags))
    requires HaveData(flags) && s.index[h].parent != null ==> HaveData(s.status[s.index[h].parent.hash])
    requires s.index[h].parent != null ==> s.index[h].parent.hash != h
    ensures s.SetStatus(h, flags).NodeHealthy(h)
  {
    hide BlockNode.Linked, HaveData, HaveHeader, KeyOf, BlockNode.Header;
  }

  /** Changing one status, with the node marked dirty. */
  lemma HealthyAfterStatus(s: IndexState, h: Hash, flags: bv8)
    requires s.Healthy() && h in s.index
    requires HaveData(s.status[h]) ==> HaveData(flags)
    requires HaveData(flags) || HaveHeader(flags)
    requires HaveData(flags) && s.index[h].parent != null ==>
               s.index[h].parent.hash in s.status && HaveData(s.status[s.index[h].parent.hash])
    ensures s.SetStatus(h, flags).Healthy()
  {
    hide BlockNode.Linked, HaveData, HaveHeader, KeyOf, BlockNode.Header, IndexState.NodeHealthy, IndexState.RowHealthy;
    var s' := s.SetStatus(h, flags);
    forall g | g in s'.index
      ensures s'.NodeHealthy(g)
    {
      NodeParent(s, g);
      if g == h {
        ChangedNodeHealthy(s, h, flags);
      } else {
        NodeFrame(s, g, s');
      }
    }
    forall key | key in s'.rows
      ensures s'.RowHealthy(key)
    {
      RowKey(s, key);
      RowFrame(s, key, s');
    }
  }

  lemma StoredAfterAdd(s: IndexState, node: BlockNode, flags: bv8)
    requires node.hash !in s.index
    ensures s.Add(node, flags).Stored() == s.Stored() + if HaveData(flags) then {node.hash} else {}
    ensures s.Rowed() <= s.Add(node, flags).Rowed()
  {
    hide HasRow, HaveData;
  }

  lemma StoredAfterStatus(s: IndexState, h: Hash, flags: bv8)
    requires h in s.index && h in s.status && HaveData(flags)
    ensures s.SetStatus(h, flags).Stored() == s.Stored() + {h} && s.SetStatus(h, flags).Rowed() == s.Rowed()
  {
    hide HasRow, HaveData;
  }

  /** Rows are written for stored blocks only, and for all of them once nothing is dirty. */
  lemma RowedIsStored(s: IndexState)
    requires s.Healthy()
    ensures s.Rowed() <= s.Stored()
    ensures s.dirty == {} ==> s.Rowed() == s.Stored()
  {
    hide BlockNode.Linked, HaveData, HaveHeader, BlockNode.Header;
    forall h | h in s.Rowed() ensures h in s.Stored() {
      NodeParent(s, h);
      assert HashOfKey(KeyOf(s.index[h])) == h;
      RowHasData(s, KeyOf(s.index[h]));
    }
    if s.dirty == {} {
      forall h | h in s.Stored() ensures h in s.Rowed() {
        assert s.NodeHealthy(h);
      }
    }
  }

  // ---------------------------------------------------------------------------
  // Writing dirty nodes
  // ---------------------------------------------------------------------------

  /** `row` is what storing `node` writes. */
  ghost predicate FreshRow(s: IndexState, rows': Bucket, node: BlockNode) {
    && HasRow(rows', node) && node.hash in s.status && HaveData(s.status[node.hash])
    && rows'[KeyOf(node)] == Row(node.Header(), s.status[node.hash])
  }

  /** The bucket after the nodes in `done` that have their data have been stored. */
  ghost predicate Written(s: IndexState, done: set<BlockNode>, rows': Bucket) {
    && s.rows.Keys <= rows'.Keys
    && (forall node :: node in done && node.hash in s.status && HaveData(s.status[node.hash]) ==> FreshRow(s, rows', node))
    && (forall key :: key in rows' ==>
          || (key in s.rows && rows'[key] == s.rows[key])
          || (|key| == 36 && HashOfKey(key) in s.index && FreshRow(s, rows', s.index[HashOfKey(key)])
              && KeyOf(s.index[HashOfKey(key)]) == key))
  }

  /** Storing all dirty nodes that have their data and clearing the dirty set. */
  lemma HealthyAfterFlush(s: IndexState, rows': Bucket)
    requires s.Healthy() && Written(s, s.dirty, rows')
    ensures s.(dirty := {}, rows := rows').Healthy()
  {
    hide BlockNode.Linked, HaveData, HaveHeader, BlockNode.Header, IndexState.NodeHealthy, IndexState.RowHealthy, KeyOf, FreshRow;
    var s' := s.(dirty := {}, rows := rows');
    forall h | h in s.index
      ensures s'.NodeHealthy(h)
    {
      FlushedNode(s, rows', h);
    }
    forall key | key in rows'
      ensures s'.RowHealthy(key)
    {
      FlushedRow(s, rows', key);
    }
  }

  /** A data-stored node has an up-to-date row after the flush, whether it was dirty or clean. */
  lemma FlushedData(s: IndexState, rows': Bucket, h: Hash)
    requires s.NodeHealthy(h) && HaveData(s.status[h]) && Written(s, s.dirty, rows')
    ensures HasRow(rows', s.index[h])
    ensures rows'[KeyOf(s.index[h])] == Row(s.index[h].Header(), s.status[h])
  {
    hide BlockNode.Linked, HaveData, HaveHeader, BlockNode.Header;
    var key := KeyOf(s.index[h]);
    assert HashOfKey(key) == h;
  }

  lemma FlushedNode(s: IndexState, rows': Bucket, h: Hash)
    requires s.Healthy() && h in s.index && Written(s, s.dirty, rows')
    ensures s.(dirty := {}, rows := rows').NodeHealthy(h)
  {
    hide BlockNode.Linked, HaveHeader, BlockNode.Header, IndexState.RowHealthy, HaveData;
    assert s.NodeHealthy(h);
    NodeParent(s, h);
    var node := s.index[h];
    if HaveData(s.status[h]) {
      FlushedData(s, rows', h);
      if node.parent != null {
        assert s.NodeHealthy(node.parent.hash);
        FlushedData(s, rows', node.parent.hash);
      }
    } else if HasRow(rows', node) {
      assert HashOfKey(KeyOf(node)) == h;
      assert KeyOf(node) in s.rows ==> s.RowHealthy(KeyOf(node));
      RowHasData(s, KeyOf(node));
    }
  }

  lemma RowHasData(s: IndexState, key: seq<byte>)
    requires key in s.rows ==> s.RowHealthy(key)
    ensures key in s.rows ==> |key| == 36 && HashOfKey(key) in s.status && HaveData(s.status[HashOfKey(key)])
  {
  }

  lemma FlushedRow(s: IndexState, rows': Bucket, key: seq<byte>)
    requires s.Healthy() && key in rows' && Written(s, s.dirty, rows')
    ensures s.(dirty := {}, rows := rows').RowHealthy(key)
  {
    hide BlockNode.Linked, HaveData, HaveHeader, BlockNode.Header, IndexState.NodeHealthy;
    assert key in s.rows ==> s.RowHealthy(key);
  }

  // ---------------------------------------------------------------------------
  // The index itself
  // ---------------------------------------------------------------------------

  class BlockIndex {
    const params: Params
    var index: Nodes
    var dirty: set<BlockNode>
    var rows: Bucket

    ghost function State(): (s: IndexState)
      reads this, index.Values
    {
      IndexState(params, index, map h | h in index :: index[h].status, dirty, rows)
    }

    ghost predicate Valid()
      reads this, index.Values
    {
      State().Healthy()
    }

    /** A new database holding only the genesis block. */
    constructor Create(blockHash: Header -> Hash, header: Header)
      requires header.prevBlock == ZERO_HASH
      ensures Valid() && params == Params(blockHash, blockHash(header)) && dirty == {}
      ensures index.Keys == {params.genesis} && fresh(index[params.genesis])
      ensures index[params.genesis].Header() == header && index[params.genesis].status == STATUS_DATA_STORED | STATUS_VALID
    {
      hide BlockNode.Linked, BlockNode.Branch, HaveData, HaveHeader;
      var node := new BlockNode(blockHash, header, null);
      node.status := STATUS_DATA_STORED | STATUS_VALID;
      RootHeight(node);
      params := Params(blockHash, node.hash);
      index := map[node.hash := node];
      dirty := {};
      rows := map[KeyOf(node) := Row(node.Header(), node.status)];
      new;
      hide IndexState.Healthy, KeyOf;
      GenesisStatus();
      GenesisHealthy(params, node, node.status);
      assert State().status == map[node.hash := node.status];
    }

    /** An index about to be filled from a bucket. */
    constructor FromBucket(params: Params, rows: Bucket)
      ensures this.params == params && index == map[] && dirty == {} && this.rows == rows
    {
      this.params := params;
      index, dirty := map[], {};
      this.rows := rows;
    }

    function LookupNode(hash: Hash): (node: BlockNode?)
      reads this
    {
      if hash in index then index[hash] else null
    }

    /** Whether the block itself, not just its header, is stored. */
    predicate HaveBlock(hash: Hash)
      reads this, index.Values
    {
      hash in index && HaveData(index[hash].status)
    }

    /** The node may join the tree: it is new, its parent is known, and data is stored on top of data. */
    ghost predicate Addable(node: BlockNode)
      reads this, index.Values, node
    {
      && Valid() && node.hash !in index && node.parent != null && State().InTree(node)
      && (HaveData(node.status) || HaveHeader(node.status))
      && (HaveData(node.status) ==> HaveData(State().status[node.parent.hash]))
    }

    /** Adds a node and marks it dirty; it is up to the caller that it may join the tree. */
    method AddNode(node: BlockNode)
      modifies this`index, this`dirty
      ensures State() == old(State()).Add(node, node.status)
      ensures old(Addable(node)) ==> Valid()
    {
      hide IndexState.Healthy, IndexState.InTree, HaveData, HaveHeader;
      ghost var s := State();
      if Addable(node) { HealthyAfterAdd(s, node, node.status); }
      index := index[node.hash := node];
      dirty := dirty + {node};
      assert State().status == s.Add(node, node.status).status;
    }

    /** Overwrites a node's status and marks the node dirty. */
    method SetStatus(node: BlockNode, status: bv8)
      requires Valid() && node.hash in index && index[node.hash] == node
      modifies this`dirty, node`status
      ensures State() == old(State()).SetStatus(node.hash, status)
    {
      hide IndexState.Healthy;
      ghost var s := State();
      OthersDiffer(s, node);
      node.status := status;
      dirty := dirty + {node};
      SameStatuses(s, node, status, State());
    }

    /** Turns status flags on; the tree stays sound unless data is recorded on top of a bare header. */
    method SetStatusFlags(node: BlockNode, flags: bv8)
      requires Valid() && node.hash in index && index[node.hash] == node
      modifies this`dirty, node`status
      ensures State() == old(State()).SetStatus(node.hash, Raised(old(node.status), flags))
      ensures Valid() <==>
                !(HaveData(flags) && node.parent != null
                  && node.parent.hash in old(index) && !HaveData(old(State()).status[node.parent.hash]))
    {
      hide IndexState.Healthy, IndexState.SetStatus, HaveData, Raised;
      HealthyAfterSet(State(), node.hash, flags);
      SetStatus(node, Raised(node.status, flags));
    }

    /** Turns status flags off; the tree stays sound as long as the stored flags are not among them. */
    method UnsetStatusFlags(node: BlockNode, flags: bv8)
      requires Valid() && node.hash in index && index[node.hash] == node
      modifies this`dirty, node`status
      ensures State() == old(State()).SetStatus(node.hash, Cleared(old(node.status), flags))
      ensures !HaveData(flags) && !HaveHeader(flags) ==> Valid()
    {
      hide IndexState.Healthy, IndexState.SetStatus, HaveData, HaveHeader, Cleared;
      if !HaveData(flags) && !HaveHeader(flags) { HealthyAfterUnset(State(), node.hash, flags); }
      SetStatus(node, Cleared(node.status, flags));
    }

    /**
     Writes the dirty nodes whose block data is stored, all or none of them, and then forgets
     that they were dirty.  `dbOk` is whether the database transaction goes through.
     */
    method FlushToDB(dbOk: bool) returns (ok: bool)
      requires Valid()
      modifies this`dirty, this`rows
      ensures Valid() && index == old(index)
      ensures old(State()).Rowed() <= State().Rowed()
      ensures ok <==> dbOk || forall node :: node in old(dirty) ==> !HaveData(node.status)
      ensures ok ==> dirty == {} && Written(old(State()), old(dirty), rows)
      ensures !ok ==> dirty == old(dirty) && rows == old(rows)
    {
      hide IndexState.Healthy, HaveData, HaveHeader, FreshRow, KeyOf, BlockNode.Header;
      if dirty == {} {
        return true;
      }
      ghost var s := State();
      var needsWrite := false;
      var pending := dirty;
      while pending != {} && !needsWrite
        invariant State() == s && pending <= dirty
        invariant !needsWrite ==> forall node :: node in dirty - pending ==> !HaveData(node.status)
        invariant needsWrite ==> exists node :: node in dirty && HaveData(node.status)
      {
        var node :| node in pending;
        pending := pending - {node};
        if HaveData(node.status) {
          needsWrite := true;
        }
      }
      if !needsWrite {
        forall node | node in dirty
          ensures node.hash in s.status && !HaveData(s.status[node.hash])
        {
          DirtyStatus(s, node);
        }
        HealthyAfterFlush(s, rows);
        dirty := {};
        assert State() == s.(dirty := {});
        return true;
      }

      var staged := rows;
      pending := dirty;
      while pending != {}
        invariant State() == s && pending <= dirty
        invariant Written(s, dirty - pending, staged)
      {
        var node :| node in pending;
        DirtyStatus(s, node);
        StoredAs(s, node);
        if !(HaveHeader(node.status) && !HaveData(node.status)) {
          forall n | n in dirty - pending ensures n.hash in s.index && s.index[n.hash] == n { DirtyStatus(s, n); }
          WriteOne(s, dirty - pending, staged, node);
          staged := staged[KeyOf(node) := Row(node.Header(), node.status)];
        }
        assert dirty - (pending - {node}) == (dirty - pending) + {node};
        pending := pending - {node};
      }
      if dbOk {
        assert dirty - pending == dirty;
        HealthyAfterFlush(s, staged);
        rows := staged;
        dirty := {};
        assert State() == s.(dirty := {}, rows := staged);
      }
      return dbOk;
    }
  }

  lemma RootHeight(node: BlockNode)
    requires node.Linked() && node.parent == null
    ensures node.height == 0
  {
  }

  lemma GenesisStatus()
    ensures HaveData(STATUS_DATA_STORED | STATUS_VALID)
  {
  }

  lemma GenesisHealthy(params: Params, node: BlockNode, flags: bv8)
    requires node.Linked() && node.parent == null && node.height <= MAX_INT32
    requires params.genesis == node.hash == params.blockHash(node.Header()) && HaveData(flags)
    ensures IndexState(params, map[node.hash := node], map[node.hash := flags], {}, map[KeyOf(node) := Row(node.Header(), flags)]).Healthy()
  {
    hide BlockNode.Linked, HaveData, HaveHeader, BlockNode.Header;
    assert HashOfKey(KeyOf(node)) == node.hash;
  }

  /** What `Healthy` says at one hash. */
  lemma HealthyNode(s: IndexState, h: Hash)
    requires s.Healthy() && h in s.index
    ensures h in s.status && s.index[h].hash == h && s.InTree(s.index[h])
    ensures HaveData(s.status[h]) || HaveHeader(s.status[h])
    ensures s.index[h].parent != null ==>
              var p := s.index[h].parent.hash;
              && p != h && p in s.index && s.index[p] == s.index[h].parent && p in s.status
              && (HaveData(s.status[h]) ==> HaveData(s.status[p]))
  {
    hide IndexState.NodeHealthy, HaveData, HaveHeader;
    NodeParent(s, h);
    NodeStored(s, h);
  }

  lemma HealthyAfterSet(s: IndexState, h: Hash, flags: bv8)
    requires s.Healthy() && h in s.index
    ensures h in s.status && s.index[h].hash == h
    ensures s.index[h].parent != null ==> s.index[h].parent.hash in s.index && s.index[h].parent.hash in s.status
    ensures s.SetStatus(h, Raised(s.status[h], flags)).Healthy() <==>
              !(HaveData(flags) && s.index[h].parent != null && !HaveData(s.status[s.index[h].parent.hash]))
  {
    hide IndexState.Healthy, IndexState.InTree, HaveData, HaveHeader, Raised;
    HealthyNode(s, h);
    SetBits(s.status[h], flags);
    var s' := s.SetStatus(h, Raised(s.status[h], flags));
    if HaveData(flags) && s.index[h].parent != null && !HaveData(s.status[s.index[h].parent.hash]) {
      if s'.Healthy() { HealthyNode(s', h); }
    } else {
      HealthyAfterStatus(s, h, Raised(s.status[h], flags));
    }
  }

  lemma HealthyAfterUnset(s: IndexState, h: Hash, flags: bv8)
    requires s.Healthy() && h in s.index && !HaveData(flags) && !HaveHeader(flags)
    ensures h in s.status && s.SetStatus(h, Cleared(s.status[h], flags)).Healthy()
  {
    hide *;
    assert h in s.status by { HealthyNode(s, h); }
    ClearBits(s.status[h], flags);
    HealthyAsStored(s, h, Cleared(s.status[h], flags));
  }

  /** A change of status that leaves the stored flags as they are. */
  lemma HealthyAsStored(s: IndexState, h: Hash, flags: bv8)
    requires s.Healthy() && h in s.index && h in s.status
    requires (HaveData(flags) <==> HaveData(s.status[h])) && (HaveHeader(flags) <==> HaveHeader(s.status[h]))
    ensures s.SetStatus(h, flags).Healthy()
  {
    hide IndexState.Healthy, IndexState.InTree, IndexState.SetStatus, HaveData, HaveHeader;
    HealthyNode(s, h);
    HealthyAfterStatus(s, h, flags);
  }

  lemma NodeStored(s: IndexState, h: Hash)
    requires s.NodeHealthy(h)
    ensures HaveData(s.status[h]) || HaveHeader(s.status[h])
    ensures s.index[h].parent != null && HaveData(s.status[h]) ==> HaveData(s.status[s.index[h].parent.hash])
  {
  }

  lemma SameStatuses(s: IndexState, node: BlockNode, flags: bv8, s': IndexState)
    requires node.hash in s.index && s.index[node.hash] == node && s.status.Keys == s.index.Keys
    requires s'.params == s.params && s'.index == s.index && s'.rows == s.rows && s'.dirty == s.dirty + {node}
    requires s'.status.Keys == s.index.Keys && s'.status[node.hash] == flags
    requires forall h :: h in s.index && h != node.hash ==> s'.status[h] == s.status[h]
    ensures s' == s.SetStatus(node.hash, flags)
  {
  }

  lemma OthersDiffer(s: IndexState, node: BlockNode)
    requires s.Healthy()
    ensures forall h :: h in s.index && h != node.hash ==> s.index[h] != node
  {
    forall h | h in s.index && h != node.hash
      ensures s.index[h] != node
    {
      NodeParent(s, h);
    }
  }

  lemma DirtyStatus(s: IndexState, node: BlockNode)
    requires s.Healthy() && node in s.dirty
    ensures node.hash in s.index && s.index[node.hash] == node && node.hash in s.status && node.height <= MAX_INT32
  {
    var h :| h in s.index && s.index[h] == node;
    NodeParent(s, h);
  }

  lemma StoredAs(s: IndexState, node: BlockNode)
    requires s.Healthy() && node.hash in s.index
    ensures HaveData(s.status[node.hash]) || HaveHeader(s.status[node.hash])
  {
    NodeStored(s, node.hash);
  }

  /** Storing one more node. */
  lemma WriteOne(s: IndexState, done: set<BlockNode>, rows': Bucket, node: BlockNode)
    requires Written(s, done, rows') && node.height <= MAX_INT32
    requires forall n :: n in done ==> n.hash in s.index && s.index[n.hash] == n
    requires node.hash in s.index && s.index[node.hash] == node && node.hash in s.status && HaveData(s.status[node.hash])
    ensures Written(s, done + {node}, rows'[KeyOf(node) := Row(node.Header(), s.status[node.hash])])
  {
    hide HaveData, BlockNode.Header, KeyOf;
    var rows'' := rows'[KeyOf(node) := Row(node.Header(), s.status[node.hash])];
    forall n | n in done + {node} && n.hash in s.status && HaveData(s.status[n.hash])
      ensures FreshRow(s, rows'', n)
    {
    }
    assert HashOfKey(KeyOf(node)) == node.hash;
  }

  function Raised(status: bv8, flags: bv8): bv8 {
    status | flags
  }

  function Cleared(status: bv8, flags: bv8): bv8 {
    status & !flags
  }

  lemma SetBits(status: bv8, flags: bv8)
    ensures HaveData(Raised(status, flags)) <==> HaveData(status) || HaveData(flags)
    ensures HaveHeader(Raised(status, flags)) <==> HaveHeader(status) || HaveHeader(flags)
  {
  }

  lemma ClearBits(status: bv8, flags: bv8)
    requires !HaveData(flags) && !HaveHeader(flags)
    ensures HaveData(Cleared(status, flags)) <==> HaveData(status)
    ensures HaveHeader(Cleared(status, flags)) <==> HaveHeader(status)
  {
  }
}
