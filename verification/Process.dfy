/** Runs of everything that changes the block index, and restarts after them. */
module Process {
  import opened ChainTypes
  import opened BlockTree
  import opened BlockIndexes
  import opened ChainViews
  import opened Accept
  import opened Restart

  /** What is noted about a block when it is connected, fails, or is invalidated or reconsidered. */
  datatype Mark = Valid | ValidateFailed | InvalidAncestor

  function FlagsOf(mark: Mark): (flags: bv8)
    ensures !HaveData(flags) && !HaveHeader(flags)
  {
    match mark
    case Valid => STATUS_VALID
    case ValidateFailed => STATUS_VALIDATE_FAILED
    case InvalidAncestor => STATUS_INVALID_ANCESTOR
  }

  /**
   A step of a run, with the verdicts of the checks and of the database: a header or block is
   submitted, an orphan is tried again, a mark of a block is set or cleared, or the index is flushed.
   */
  datatype Submission =
    | SubmitHeader(header: Header, sane: bool, inContext: bool, flushOk: bool)
    | SubmitBlock(header: Header, inPool: bool, sane: bool, inContext: bool, storeOk: bool, flushOk: bool)
    | SubmitOrphan(header: Header, inContext: bool, storeOk: bool, flushOk: bool)
    | SubmitMark(hash: Hash, mark: Mark, on: bool)
    | SubmitFlush(flushOk: bool)

  datatype Reply = HeaderReply(outcome: Outcome) | BlockReply(result: Processed) | MarkReply(known: bool) | FlushReply(ok: bool)

  predicate HasHeader(sub: Submission) {
    sub.SubmitHeader? || sub.SubmitBlock? || sub.SubmitOrphan?
  }

  predicate HasBlock(sub: Submission) {
    sub.SubmitBlock? || sub.SubmitOrphan?
  }

  /** The reply is one to this kind of step. */
  predicate Answers(sub: Submission, reply: Reply) {
    && (sub.SubmitHeader? <==> reply.HeaderReply?) && (HasBlock(sub) <==> reply.BlockReply?)
    && (sub.SubmitFlush? <==> reply.FlushReply?)
  }

  /** The block that the step is about, if it is about one. */
  function HashOf(params: Params, sub: Submission): (hash: Hash) {
    if HasHeader(sub) then params.blockHash(sub.header) else if sub.SubmitMark? then sub.hash else params.genesis
  }

  /** The block was accepted. */
  predicate KeptBlock(reply: Reply) {
    reply == BlockReply(Kept)
  }

  /** The block came as far as the index, though perhaps not into the database. */
  predicate Reached(sub: Submission, reply: Reply) {
    HasBlock(sub) && (KeptBlock(reply) || (reply == BlockReply(Refused(DatabaseError)) && sub.storeOk))
  }

  // ---------------------------------------------------------------------------
  // One step
  // ---------------------------------------------------------------------------

  /** What every step does, as far as a restart is concerned. */
  ghost predicate StepOk(s: IndexState, s': IndexState, sub: Submission, reply: Reply) {
    && var hash := HashOf(s.params, sub);
       && s'.params == s.params && Extends(s.index, s'.index) && s'.index.Keys <= s.index.Keys + {hash}
       && s.Rowed() <= s'.Rowed()
       && s'.Stored() == s.Stored() + (if Reached(sub, reply) then {hash} else {})
       && (KeptBlock(reply) || reply == FlushReply(true) ==> s'.dirty == {})
  }

  /** All headers that play a part: they are told apart by their hashes. */
  ghost predicate Distinct(params: Params, headers: set<Header>) {
    forall a, b :: a in headers && b in headers && params.blockHash(a) == params.blockHash(b) ==> a == b
  }

  ghost predicate HeadersIn(index: Nodes, headers: set<Header>) {
    forall h :: h in index ==> index[h].Header() in headers
  }

  /** There is room for `n` more levels below the largest height. */
  ghost predicate RoomFor(index: Nodes, n: nat) {
    forall h :: h in index ==> index[h].height + n <= MAX_INT32
  }

  lemma NoneCollides(s: IndexState, headers: set<Header>, header: Header)
    requires s.Healthy() && Distinct(s.params, headers) && HeadersIn(s.index, headers) && header in headers
    ensures var hash := s.params.blockHash(header); hash in s.index ==> s.index[hash].Header() == header
  {
    hide IndexState.Healthy, BlockNode.Linked, BlockNode.Header, HaveData, HaveHeader;
    var hash := s.params.blockHash(header);
    if hash in s.index { HealthyNode(s, hash); }
  }

  /** A new node is at most one level above the known ones. */
  lemma RoomLeft(s: IndexState, s': IndexState, hash: Hash, n: nat)
    requires s'.Healthy() && Extends(s.index, s'.index) && s'.index.Keys <= s.index.Keys + {hash}
    requires RoomFor(s.index, n + 1) && s.index != map[]
    ensures RoomFor(s'.index, n)
  {
    hide IndexState.Healthy, HaveData, HaveHeader;
    forall h | h in s'.index ensures s'.index[h].height + n <= MAX_INT32 {
      if h !in s.index {
        HealthyNode(s', h);
        assert s'.index[h].parent != null ==> s'.index[h].parent.hash in s.index;
        if s'.index[h].parent == null {
          RootHeight(s'.index[h]);
          var g :| g in s.index;
        }
      }
    }
  }

  lemma SubmitHeaderStep(s: IndexState, s': IndexState, sub: Submission, outcome: Outcome)
    requires s.Healthy() && s'.Healthy() && sub.SubmitHeader? && HeaderAdded(s, s', s.params.blockHash(sub.header))
    ensures StepOk(s, s', sub, HeaderReply(outcome))
  {
    hide IndexState.NodeHealthy, IndexState.RowHealthy, IndexState.Stored, IndexState.Rowed, HaveData, HaveHeader;
    HeaderStored(s, s', s.params.blockHash(sub.header));
  }

  lemma SubmitBlockStep(s: IndexState, s': IndexState, sub: Submission, result: Processed)
    requires s.Healthy() && s'.Healthy() && HasBlock(sub)
    requires Reached(sub, BlockReply(result)) ==> BlockAdded(s, s', s.params.blockHash(sub.header))
    requires result.Kept? ==> s'.dirty == {}
    requires !Reached(sub, BlockReply(result)) ==> s' == s
    ensures StepOk(s, s', sub, BlockReply(result))
  {
    hide IndexState.NodeHealthy, IndexState.RowHealthy, IndexState.Stored, IndexState.Rowed, HaveData, HaveHeader;
    if Reached(sub, BlockReply(result)) { BlockStored(s, s', s.params.blockHash(sub.header)); }
  }

  /** A mark leaves the stored flags, and so the stored blocks and their rows, alone. */
  lemma SubmitMarkStep(s: IndexState, sub: Submission, flags: bv8)
    requires sub.SubmitMark? && sub.hash in s.index && sub.hash in s.status
    requires HaveData(flags) <==> HaveData(s.status[sub.hash])
    ensures StepOk(s, s.SetStatus(sub.hash, flags), sub, MarkReply(true))
  {
    hide HasRow, HaveData;
  }

  lemma SubmitFlushStep(s: IndexState, s': IndexState, flushOk: bool, ok: bool)
    requires s'.params == s.params && s'.index == s.index && s'.status == s.status && s.Rowed() <= s'.Rowed()
    requires ok ==> s'.dirty == {}
    ensures StepOk(s, s', SubmitFlush(flushOk), FlushReply(ok))
  {
    hide HasRow, HaveData;
  }

  lemma NoStep(s: IndexState, sub: Submission, reply: Reply)
    requires !Reached(sub, reply) && !KeptBlock(reply) && reply != FlushReply(true)
    ensures StepOk(s, s, sub, reply)
  {
  }

  /** Sets or clears a mark. */
  method SetMark(chain: BlockChain, sub: Submission) returns (known: bool)
    requires chain.Valid() && sub.SubmitMark?
    modifies chain.index`dirty, chain.index.index.Values
    ensures chain.Valid() && StepOk(old(chain.index.State()), chain.index.State(), sub, MarkReply(known))
    ensures chain.index.index == old(chain.index.index) && (known <==> sub.hash in chain.index.index)
  {
    hide IndexState.Healthy, BestOk, BlockNode.Linked, BlockNode.Branch, HaveData, HaveHeader, StepOk, FlagsOf, Cleared, Raised, IndexState.SetStatus;
    ghost var s := chain.index.State();
    var node := chain.index.LookupNode(sub.hash);
    if node == null {
      NoStep(s, sub, MarkReply(false));
      return false;
    }
    HealthyNode(s, sub.hash);
    var flags := FlagsOf(sub.mark);
    if sub.on {
      SetBits(node.status, flags);
      SubmitMarkStep(s, sub, Raised(node.status, flags));
      chain.index.SetStatusFlags(node, flags);
    } else {
      ClearBits(node.status, flags);
      SubmitMarkStep(s, sub, Cleared(node.status, flags));
      chain.index.UnsetStatusFlags(node, flags);
    }
    known := true;
  }

  /** Tries a block whose parent was missing, once the parent is stored. */
  method RetryOrphan(chain: BlockChain, sub: Submission, ghost headers: set<Header>) returns (result: Processed)
    requires sub.SubmitOrphan? && chain.Valid() && chain.NoCollision(sub.header) && chain.HasRoom(sub.header)
    requires HeadersIn(chain.index.index, headers) && sub.header in headers
    modifies chain.index, chain.index.index.Values
    ensures chain.Valid() && StepOk(old(chain.index.State()), chain.index.State(), sub, BlockReply(result))
    ensures HeadersIn(chain.index.index, headers) && forall n :: n in chain.index.index.Values && n !in old(chain.index.index).Values ==> fresh(n)
  {
    hide IndexState.Healthy, BestOk, BlockNode.Header, BlockNode.Linked, BlockNode.Branch, HaveData, HaveHeader, KnownInvalid, StepOk;
    ghost var s := chain.index.State();
    if !chain.index.HaveBlock(sub.header.prevBlock) {
      NoStep(s, sub, BlockReply(Orphan));
      return Orphan;
    }
    var error := chain.MaybeAcceptBlock(sub.header, sub.inContext, sub.storeOk, sub.flushOk);
    result := if error.None? then Kept else Refused(error.value);
    SubmitBlockStep(s, chain.index.State(), sub, result);
  }

  method TakeHeader(chain: BlockChain, sub: Submission, ghost headers: set<Header>) returns (outcome: Outcome)
    requires sub.SubmitHeader? && chain.Valid() && chain.NoCollision(sub.header) && chain.HasRoom(sub.header)
    requires HeadersIn(chain.index.index, headers) && sub.header in headers
    modifies chain`accepted, chain.index, chain.bestHeader
    ensures chain.Valid() && StepOk(old(chain.index.State()), chain.index.State(), sub, HeaderReply(outcome))
    ensures HeadersIn(chain.index.index, headers) && forall n :: n in chain.index.index.Values && n !in old(chain.index.index).Values ==> fresh(n)
    ensures old(chain.accepted) <= chain.accepted
    ensures outcome.Accepted? ==>
              var hash := chain.index.params.blockHash(sub.header);
              hash in chain.index.index && chain.index.index[hash] in chain.accepted
  {
    hide IndexState.Healthy, BestOk, BlockNode.Header, BlockNode.Linked, BlockNode.Branch, HaveData, HaveHeader, KnownInvalid, StepOk;
    hide BlockChain.Acceptable;
    ghost var s := chain.index.State();
    outcome := chain.MaybeAcceptBlockHeader(sub.header, sub.sane, sub.inContext, sub.flushOk);
    SubmitHeaderStep(s, chain.index.State(), sub, outcome);
  }

  method TakeBlock(chain: BlockChain, sub: Submission, ghost headers: set<Header>) returns (result: Processed)
    requires sub.SubmitBlock? && chain.Valid() && chain.NoCollision(sub.header) && chain.HasRoom(sub.header)
    requires HeadersIn(chain.index.index, headers) && sub.header in headers
    modifies chain.index, chain.index.index.Values
    ensures chain.Valid() && StepOk(old(chain.index.State()), chain.index.State(), sub, BlockReply(result))
    ensures HeadersIn(chain.index.index, headers) && forall n :: n in chain.index.index.Values && n !in old(chain.index.index).Values ==> fresh(n)
  {
    hide IndexState.Healthy, BestOk, BlockNode.Header, BlockNode.Linked, BlockNode.Branch, HaveData, HaveHeader, KnownInvalid, StepOk;
    hide ParentGood;
    ghost var s := chain.index.State();
    result := chain.ProcessBlock(sub.header, sub.inPool, sub.sane, sub.inContext, sub.storeOk, sub.flushOk);
    SubmitBlockStep(s, chain.index.State(), sub, result);
  }

  /** Does one step. */
  method Submit(chain: BlockChain, sub: Submission, ghost headers: set<Header>) returns (reply: Reply)
    requires chain.Valid() && HeadersIn(chain.index.index, headers)
    requires HasHeader(sub) ==> chain.NoCollision(sub.header) && chain.HasRoom(sub.header) && sub.header in headers
    modifies chain`accepted, chain.index, chain.bestHeader, chain.index.index.Values
    ensures chain.Valid() && StepOk(old(chain.index.State()), chain.index.State(), sub, reply)
    ensures HeadersIn(chain.index.index, headers)
    ensures forall n :: n in chain.index.index.Values && n !in old(chain.index.index).Values ==> fresh(n)
    ensures old(chain.accepted) <= chain.accepted && Answers(sub, reply)
    ensures reply.HeaderReply? && reply.outcome.Accepted? ==>
              var hash := chain.index.params.blockHash(sub.header);
              hash in chain.index.index && chain.index.index[hash] in chain.accepted
  {
    hide IndexState.Healthy, BestOk, HeadersIn, StepOk;
    ghost var s := chain.index.State();
    match sub
    case SubmitHeader(_, _, _, _) =>
      var outcome := TakeHeader(chain, sub, headers);
      reply := HeaderReply(outcome);
    case SubmitBlock(_, _, _, _, _, _) =>
      var result := TakeBlock(chain, sub, headers);
      reply := BlockReply(result);
    case SubmitOrphan(_, _, _, _) =>
      var result := RetryOrphan(chain, sub, headers);
      reply := BlockReply(result);
    case SubmitMark(_, _, _) =>
      var known := SetMark(chain, sub);
      reply := MarkReply(known);
    case SubmitFlush(flushOk) =>
      var ok := chain.index.FlushToDB(flushOk);
      SubmitFlushStep(s, chain.index.State(), flushOk, ok);
      reply := FlushReply(ok);
  }

  // ---------------------------------------------------------------------------
  // Runs
  // ---------------------------------------------------------------------------

  /** The states a run goes through. */
  ghost predicate Trace(states: seq<IndexState>, subs: seq<Submission>, replies: seq<Reply>) {
    && |states| == |replies| + 1 && |replies| <= |subs|
    && (forall i :: 0 <= i < |states| ==> states[i].Healthy() && states[i].params == states[0].params)
    && (forall i :: 0 <= i < |replies| ==> StepOk(states[i], states[i + 1], subs[i], replies[i]))
  }

  /** The hashes of the first `n` blocks that came as far as the index. */
  ghost function ReachedHashes(params: Params, subs: seq<Submission>, replies: seq<Reply>, n: nat): (hashes: set<Hash>)
    requires n <= |replies| <= |subs|
  {
    set i | 0 <= i < n && Reached(subs[i], replies[i]) :: HashOf(params, subs[i])
  }

  /** The hashes of the accepted blocks. */
  ghost function KeptHashes(params: Params, subs: seq<Submission>, replies: seq<Reply>): (hashes: set<Hash>)
    requires |replies| <= |subs|
  {
    set i | 0 <= i < |replies| && KeptBlock(replies[i]) :: HashOf(params, subs[i])
  }

  /** What has a row keeps it. */
  lemma {:induction false} RowsStay(states: seq<IndexState>, subs: seq<Submission>, replies: seq<Reply>, i: nat, n: nat)
    requires Trace(states, subs, replies) && i <= n < |states|
    ensures states[i].Rowed() <= states[n].Rowed()
  {
    hide IndexState.Healthy, IndexState.Rowed, IndexState.Stored;
    if i < n {
      RowsStay(states, subs, replies, i, n - 1);
      assert StepOk(states[n - 1], states[n], subs[n - 1], replies[n - 1]);
    }
  }

  /** An accepted block is in the database from then on, whatever fails later. */
  lemma KeptIsDurable(states: seq<IndexState>, subs: seq<Submission>, replies: seq<Reply>, i: nat, n: nat)
    requires Trace(states, subs, replies) && i < n < |states| && KeptBlock(replies[i]) && HasBlock(subs[i])
    ensures HashOf(states[0].params, subs[i]) in states[n].Rowed()
  {
    hide IndexState.Healthy, IndexState.Rowed, IndexState.Stored;
    assert StepOk(states[i], states[i + 1], subs[i], replies[i]);
    RowedIsStored(states[i + 1]);
    RowsStay(states, subs, replies, i + 1, n);
  }

  /** Nothing is stored but what was and what was submitted. */
  lemma {:induction false} StoredInRun(states: seq<IndexState>, subs: seq<Submission>, replies: seq<Reply>, n: nat)
    requires Trace(states, subs, replies) && n < |states|
    ensures states[n].Stored() == states[0].Stored() + ReachedHashes(states[0].params, subs, replies, n)
  {
    hide IndexState.Healthy, IndexState.Rowed, IndexState.Stored, Reached;
    if n > 0 {
      StoredInRun(states, subs, replies, n - 1);
      assert StepOk(states[n - 1], states[n], subs[n - 1], replies[n - 1]);
    }
  }

  /** As long as every block that came as far as the index was accepted, all stored blocks have rows. */
  lemma {:induction false} CleanRun(states: seq<IndexState>, subs: seq<Submission>, replies: seq<Reply>, n: nat)
    requires Trace(states, subs, replies) && n < |states| && states[0].Rowed() == states[0].Stored()
    requires forall i :: 0 <= i < |replies| && Reached(subs[i], replies[i]) ==> KeptBlock(replies[i])
    ensures states[n].Rowed() == states[n].Stored()
  {
    hide IndexState.Healthy, IndexState.Rowed, IndexState.Stored, Reached;
    if n > 0 {
      CleanRun(states, subs, replies, n - 1);
      assert StepOk(states[n - 1], states[n], subs[n - 1], replies[n - 1]);
      RowedIsStored(states[n]);
    }
  }

  /**
   What a restart after a run finds: every accepted block; nothing but blocks that were stored
   before or came as far as the index; and exactly the accepted ones if no such block was lost.
   */
  lemma RestartAfterRun(states: seq<IndexState>, subs: seq<Submission>, replies: seq<Reply>)
    requires Trace(states, subs, replies) && |replies| == |subs|
    requires forall i :: 0 <= i < |subs| ==> Answers(subs[i], replies[i])
    ensures var found, before := states[|subs|].Rowed(), states[0];
      && before.Rowed() <= found
      && KeptHashes(before.params, subs, replies) <= found
      && found <= before.Stored() + ReachedHashes(before.params, subs, replies, |subs|)
      && (before.Rowed() == before.Stored() && (forall i :: 0 <= i < |subs| && Reached(subs[i], replies[i]) ==> KeptBlock(replies[i])) ==>
            found == before.Stored() + KeptHashes(before.params, subs, replies))
  {
    hide IndexState.Healthy, IndexState.Rowed, IndexState.Stored, StepOk;
    var n := |subs|;
    RowsStay(states, subs, replies, 0, n);
    forall i | 0 <= i < n && KeptBlock(replies[i]) ensures HashOf(states[0].params, subs[i]) in states[n].Rowed() {
      KeptIsDurable(states, subs, replies, i, n);
    }
    StoredInRun(states, subs, replies, n);
    RowedIsStored(states[n]);
    if states[0].Rowed() == states[0].Stored() && forall i :: 0 <= i < n && Reached(subs[i], replies[i]) ==> KeptBlock(replies[i]) {
      CleanRun(states, subs, replies, n);
      assert ReachedHashes(states[0].params, subs, replies, n) == KeptHashes(states[0].params, subs, replies);
    }
  }

  /** The headers that were accepted, by their nodes. */
  ghost predicate AllCounted(index: Nodes, params: Params, accepted: set<BlockNode>, subs: seq<Submission>, replies: seq<Reply>) {
    |replies| <= |subs| &&
    forall i :: 0 <= i < |replies| && replies[i].HeaderReply? && replies[i].outcome.Accepted? ==>
      var hash := HashOf(params, subs[i]); hash in index && index[hash] in accepted
  }

  /** Handles submissions one after the other. */
  method Run(chain: BlockChain, subs: seq<Submission>, ghost headers: set<Header>)
    returns (replies: seq<Reply>, ghost states: seq<IndexState>)
    requires chain.Valid() && Distinct(chain.index.params, headers) && HeadersIn(chain.index.index, headers)
    requires forall i :: 0 <= i < |subs| && HasHeader(subs[i]) ==> subs[i].header in headers
    requires RoomFor(chain.index.index, |subs| + 1)
    modifies chain`accepted, chain.index, chain.bestHeader, chain.index.index.Values
    ensures chain.Valid() && |replies| == |subs|
    ensures Trace(states, subs, replies) && states[0] == old(chain.index.State()) && states[|subs|] == chain.index.State()
    ensures forall i :: 0 <= i < |subs| ==> Answers(subs[i], replies[i])
    ensures AllCounted(chain.index.index, chain.index.params, chain.accepted, subs, replies)
  {
    hide IndexState.Healthy, BestOk, BlockNode.Header, BlockNode.Linked, BlockNode.Branch, StepOk, Trace, AllCounted, RoomFor, HeadersIn;
    hide Extends, Distinct;
    replies, states := [], [chain.index.State()];
    StartTrace(states[0], subs);
    for i := 0 to |subs|
      invariant chain.Valid() && |replies| == i
      invariant Trace(states, subs, replies) && |states| == i + 1 && states[0] == old(chain.index.State()) && states[i] == chain.index.State()
      invariant HeadersIn(chain.index.index, headers) && RoomFor(chain.index.index, |subs| + 1 - i)
      invariant forall n :: n in chain.index.index.Values && n !in old(chain.index.index).Values ==> fresh(n)
      invariant forall j :: 0 <= j < i ==> Answers(subs[j], replies[j])
      invariant AllCounted(chain.index.index, chain.index.params, chain.accepted, subs, replies)
    {
      ghost var s, counted := chain.index.State(), chain.accepted;
      if HasHeader(subs[i]) {
        NoneCollides(s, headers, subs[i].header);
        HasRoomLeft(s.index, subs[i].header, |subs| - i);
      }
      var reply := Submit(chain, subs[i], headers);
      ghost var s' := chain.index.State();
      StepRoom(s, s', subs[i], reply, |subs| - i);
      MoreTrace(states, subs, replies, s', reply);
      CountMore(s.index, s'.index, s.params, counted, chain.accepted, subs, replies, reply);
      replies, states := replies + [reply], states + [s'];
    }
  }

  lemma StartTrace(s: IndexState, subs: seq<Submission>)
    requires s.Healthy()
    ensures Trace([s], subs, []) && forall index, accepted :: AllCounted(index, s.params, accepted, subs, [])
  {
  }

  lemma MoreTrace(states: seq<IndexState>, subs: seq<Submission>, replies: seq<Reply>, s': IndexState, reply: Reply)
    requires Trace(states, subs, replies) && |replies| < |subs| && s'.Healthy() && s'.params == states[0].params
    requires StepOk(states[|replies|], s', subs[|replies|], reply)
    ensures Trace(states + [s'], subs, replies + [reply])
  {
    hide IndexState.Healthy, StepOk;
  }

  lemma HasRoomLeft(index: Nodes, header: Header, n: nat)
    requires RoomFor(index, n + 1)
    ensures header.prevBlock in index ==> index[header.prevBlock].height < MAX_INT32
  {
  }

  lemma StepRoom(s: IndexState, s': IndexState, sub: Submission, reply: Reply, n: nat)
    requires s.Healthy() && s'.Healthy() && StepOk(s, s', sub, reply) && RoomFor(s.index, n + 1)
    ensures RoomFor(s'.index, n) && Extends(s.index, s'.index)
  {
    hide IndexState.NodeHealthy, IndexState.RowHealthy, IndexState.Rowed, IndexState.Stored, RoomFor, HaveData;
    RoomLeft(s, s', HashOf(s.params, sub), n);
  }

  lemma CountMore(index: Nodes, index': Nodes, params: Params, accepted: set<BlockNode>, accepted': set<BlockNode>,
                  subs: seq<Submission>, replies: seq<Reply>, reply: Reply)
    requires AllCounted(index, params, accepted, subs, replies) && |replies| < |subs| && Extends(index, index') && accepted <= accepted'
    requires reply.HeaderReply? && reply.outcome.Accepted? ==>
               var hash := HashOf(params, subs[|replies|]); hash in index' && index'[hash] in accepted'
    ensures AllCounted(index', params, accepted', subs, replies + [reply])
  {
  }

  /**
   A run and then a restart.  The best header has the most work of all accepted ones; every
   accepted block is found again with its whole branch; nothing is found that was not stored
   before or submitted; and from a clean start, if no block got lost between index and database,
   exactly the accepted blocks are found.  If the run ends with a flush their marks come back too.
   */
  method RunThenRestart(chain: BlockChain, subs: seq<Submission>, ghost headers: set<Header>)
    returns (replies: seq<Reply>, r: LoadResult)
    requires chain.Valid() && Distinct(chain.index.params, headers) && HeadersIn(chain.index.index, headers)
    requires forall i :: 0 <= i < |subs| && HasHeader(subs[i]) ==> subs[i].header in headers
    requires RoomFor(chain.index.index, |subs| + 1)
    modifies chain`accepted, chain.index, chain.bestHeader, chain.index.index.Values
    ensures chain.Valid() && |replies| == |subs| && r.Loaded? && r.index.Valid()
    ensures forall i :: 0 <= i < |subs| && replies[i].HeaderReply? && replies[i].outcome.Accepted? ==>
              var hash := HashOf(chain.index.params, subs[i]);
              && hash in chain.index.index && chain.bestHeader.Tip() != null
              && chain.index.index[hash].workSum <= chain.bestHeader.Tip().workSum
    ensures forall h :: h in r.index.index ==>
              h in chain.index.index && r.index.index[h].Linked() && r.index.index[h].Path() == chain.index.index[h].Path()
    ensures old(chain.index.State()).Rowed() <= r.index.index.Keys
    ensures KeptHashes(chain.index.params, subs, replies) <= r.index.index.Keys
    ensures r.index.index.Keys <=
            old(chain.index.State()).Stored() + ReachedHashes(chain.index.params, subs, replies, |subs|)
    ensures old(chain.index.dirty) == {} && (forall i :: 0 <= i < |subs| && Reached(subs[i], replies[i]) ==> KeptBlock(replies[i])) ==>
              r.index.index.Keys == old(chain.index.State()).Stored() + KeptHashes(chain.index.params, subs, replies)
    ensures subs != [] && replies[|subs| - 1] == FlushReply(true) ==>
              forall h :: h in r.index.index ==> r.index.index[h].status == chain.index.index[h].status
  {
    hide IndexState.Healthy, IndexState.Rowed, IndexState.Stored, BlockNode.Header, BlockNode.Linked, BlockNode.Branch, BlockNode.Path;
    hide Trace, HeadersIn, RoomFor, Distinct, HaveData, BestOk, AllCounted, ReachedHashes, KeptHashes, Reached, KeptBlock, Answers, HashOf;
    ghost var states;
    replies, states := Run(chain, subs, headers);
    TraceEnds(states, subs, replies);
    RowedIsStored(states[0]);
    RestartAfterRun(states, subs, replies);
    MostWork(chain.index.index, chain.bestHeader.nodes, chain.accepted, chain.index.params, subs, replies);
    r := RestartIndex(chain.index);
  }

  lemma MostWork(index: Nodes, view: seq<BlockNode?>, accepted: set<BlockNode>, params: Params, subs: seq<Submission>, replies: seq<Reply>)
    requires BestOk(index, view, accepted) && AllCounted(index, params, accepted, subs, replies)
    ensures view != [] && view[|view| - 1] != null && |replies| <= |subs|
    ensures forall i :: 0 <= i < |replies| && replies[i].HeaderReply? && replies[i].outcome.Accepted? ==>
              var hash := HashOf(params, subs[i]); hash in index && index[hash].workSum <= view[|view| - 1].workSum
  {
    hide BlockNode.Linked, BlockNode.Branch;
  }

  lemma TraceEnds(states: seq<IndexState>, subs: seq<Submission>, replies: seq<Reply>)
    requires Trace(states, subs, replies)
    ensures states != [] && states[|states| - 1].params == states[0].params && |states| == |replies| + 1 && states[0].Healthy()
    ensures replies != [] && replies[|replies| - 1] == FlushReply(true) ==> states[|states| - 1].dirty == {}
  {
    hide IndexState.Healthy;
    if replies != [] {
      var n := |replies|;
      assert StepOk(states[n - 1], states[n], subs[n - 1], replies[n - 1]);
    }
  }
}
