/** Rescanning blocks for a client: which outputs it still has, and what it is told. */
module Rescan {
  import opened ChainTypes

  datatype Address = Address(text: string)

  /** An input, with the address it spends from when its script tells. */
  datatype Input = Input(prev: OutPoint, from: Option<Address>)
  datatype Tx = Tx(hash: Hash, inputs: seq<Input>, outputs: seq<seq<Address>>)

  /** A transaction notification: it spends something of the client's, or pays to it. */
  datatype Ntfn = Spends(tx: Hash) | Pays(tx: Hash)

  predicate PaysAny(addrs: set<Address>, output: seq<Address>) {
    exists i :: 0 <= i < |output| && output[i] in addrs
  }

  predicate FromAny(addrs: set<Address>, input: Input) {
    input.from.Some? && input.from.value in addrs
  }

  function Outpoint(tx: Tx, i: nat): (o: OutPoint) {
    OutPoint(tx.hash, (i % 0x1_0000_0000) as uint32)
  }

  // ---------------------------------------------------------------------------
  // What one transaction does
  // ---------------------------------------------------------------------------

  ghost function Spent(tx: Tx): (r: set<OutPoint>) {
    set i | 0 <= i < |tx.inputs| :: tx.inputs[i].prev
  }

  ghost function Gained(addrs: set<Address>, tx: Tx): (r: set<OutPoint>) {
    set i | 0 <= i < |tx.outputs| && PaysAny(addrs, tx.outputs[i]) :: Outpoint(tx, i)
  }

  /** Inputs go before outputs. */
  ghost function AfterTx(addrs: set<Address>, unspent: set<OutPoint>, tx: Tx): (r: set<OutPoint>) {
    unspent - Spent(tx) + Gained(addrs, tx)
  }

  ghost predicate IsSpend(addrs: set<Address>, unspent: set<OutPoint>, tx: Tx) {
    exists i :: 0 <= i < |tx.inputs| && (tx.inputs[i].prev in unspent || FromAny(addrs, tx.inputs[i]))
  }

  ghost predicate IsPayment(addrs: set<Address>, tx: Tx) {
    exists i :: 0 <= i < |tx.outputs| && PaysAny(addrs, tx.outputs[i])
  }

  ghost function TxNtfns(addrs: set<Address>, unspent: set<OutPoint>, tx: Tx): (r: seq<Ntfn>) {
    (if IsSpend(addrs, unspent, tx) then [Spends(tx.hash)] else []) + (if IsPayment(addrs, tx) then [Pays(tx.hash)] else [])
  }

  // ---------------------------------------------------------------------------
  // What a chain segment does
  // ---------------------------------------------------------------------------

  ghost function AfterAll(addrs: set<Address>, unspent: set<OutPoint>, txs: seq<Tx>): (r: set<OutPoint>) {
    if txs == [] then unspent else AfterTx(addrs, AfterAll(addrs, unspent, txs[..|txs| - 1]), txs[|txs| - 1])
  }

  ghost function AllNtfns(addrs: set<Address>, unspent: set<OutPoint>, txs: seq<Tx>): (r: seq<Ntfn>) {
    if txs == [] then []
    else
      var front, tx := txs[..|txs| - 1], txs[|txs| - 1];
      AllNtfns(addrs, unspent, front) + TxNtfns(addrs, AfterAll(addrs, unspent, front), tx)
  }

  ghost function AllSpent(txs: seq<Tx>): (r: set<OutPoint>) {
    if txs == [] then {} else AllSpent(txs[..|txs| - 1]) + Spent(txs[|txs| - 1])
  }

  ghost function AllGained(addrs: set<Address>, txs: seq<Tx>): (r: set<OutPoint>) {
    if txs == [] then {} else AllGained(addrs, txs[..|txs| - 1]) + Gained(addrs, txs[|txs| - 1])
  }

  /** What the client had or was paid in the segment, and was not spent in it. */
  ghost function Closed(addrs: set<Address>, unspent: set<OutPoint>, txs: seq<Tx>): (r: set<OutPoint>) {
    unspent + AllGained(addrs, txs) - AllSpent(txs)
  }

  ghost predicate SpentFrom(txs: seq<Tx>, o: OutPoint, from: nat) {
    exists k :: from <= k < |txs| && o in Spent(txs[k])
  }

  /** Transaction `j` pays the output to the client, and none after it spends it. */
  ghost predicate KeptFrom(addrs: set<Address>, txs: seq<Tx>, o: OutPoint, j: nat) {
    j < |txs| && o in Gained(addrs, txs[j]) && !SpentFrom(txs, o, j + 1)
  }

  /** Transaction `j` pays the output to the client for good, although `i`, which is no later, spends it. */
  ghost predicate SpentTooEarly(addrs: set<Address>, txs: seq<Tx>, o: OutPoint, i: nat, j: nat) {
    i <= j < |txs| && o in Spent(txs[i]) && KeptFrom(addrs, txs, o, j)
  }

  lemma SpentFromFront(txs: seq<Tx>, o: OutPoint, from: nat)
    requires from < |txs|
    ensures SpentFrom(txs, o, from) <==> SpentFrom(txs[..|txs| - 1], o, from) || o in Spent(txs[|txs| - 1])
  {
    hide Spent;
    var n := |txs| - 1;
    if SpentFrom(txs[..n], o, from) {
      var k :| from <= k < n && o in Spent(txs[..n][k]);
      assert o in Spent(txs[k]);
    }
    if SpentFrom(txs, o, from) && o !in Spent(txs[n]) {
      var k :| from <= k < |txs| && o in Spent(txs[k]);
      assert o in Spent(txs[..n][k]);
    }
  }

  lemma {:induction false} AllSpentMeans(txs: seq<Tx>, o: OutPoint)
    ensures o in AllSpent(txs) <==> SpentFrom(txs, o, 0)
  {
    hide Spent;
    if txs != [] {
      AllSpentMeans(txs[..|txs| - 1], o);
      SpentFromFront(txs, o, 0);
    }
  }

  lemma {:induction false} AllGainedMeans(addrs: set<Address>, txs: seq<Tx>, o: OutPoint)
    ensures o in AllGained(addrs, txs) <==> exists j :: 0 <= j < |txs| && o in Gained(addrs, txs[j])
  {
    hide Gained;
    if txs != [] {
      var n := |txs| - 1;
      AllGainedMeans(addrs, txs[..n], o);
      if j :| 0 <= j < n && o in Gained(addrs, txs[j]) {
        assert o in Gained(addrs, txs[..n][j]);
      }
      if j :| 0 <= j < n && o in Gained(addrs, txs[..n][j]) {
        assert o in Gained(addrs, txs[j]);
      }
    }
  }

  /** An output is left if it was there and never spent, or if it was paid and not spent after that. */
  lemma {:induction false} AfterAllMeans(addrs: set<Address>, unspent: set<OutPoint>, txs: seq<Tx>, o: OutPoint)
    ensures o in AfterAll(addrs, unspent, txs) <==>
              (o in unspent && !SpentFrom(txs, o, 0)) || exists j :: KeptFrom(addrs, txs, o, j)
  {
    hide Spent, Gained, SpentFrom;
    if txs == [] {
      assert !SpentFrom(txs, o, 0) by { NoneSpent(o); }
    } else {
      var n := |txs| - 1;
      AfterAllMeans(addrs, unspent, txs[..n], o);
      SpentFromFront(txs, o, 0);
      assert KeptFrom(addrs, txs, o, n) <==> o in Gained(addrs, txs[n]) by { NoneAfter(txs, o); }
      forall j: nat | j < n ensures KeptFrom(addrs, txs, o, j) <==> KeptFrom(addrs, txs[..n], o, j) && o !in Spent(txs[n]) {
        SpentFromFront(txs, o, j + 1);
      }
    }
  }

  lemma NoneSpent(o: OutPoint)
    ensures !SpentFrom([], o, 0)
  {
  }

  lemma NoneAfter(txs: seq<Tx>, o: OutPoint)
    ensures !SpentFrom(txs, o, |txs|)
  {
  }

  /** An output that was paid and never spent is still there. */
  lemma NeverLost(addrs: set<Address>, unspent: set<OutPoint>, txs: seq<Tx>)
    ensures Closed(addrs, unspent, txs) <= AfterAll(addrs, unspent, txs)
  {
    hide Spent, Gained, AllSpent, AllGained, AfterAll;
    forall o | o in Closed(addrs, unspent, txs) ensures o in AfterAll(addrs, unspent, txs) {
      AllSpentMeans(txs, o);
      AllGainedMeans(addrs, txs, o);
      AfterAllMeans(addrs, unspent, txs, o);
      if j :| 0 <= j < |txs| && o in Gained(addrs, txs[j]) {
        assert KeptFrom(addrs, txs, o, j);
      }
    }
  }

  /** What is left beyond the closed form is exactly what was spent too early. */
  lemma LeftOver(addrs: set<Address>, unspent: set<OutPoint>, txs: seq<Tx>, o: OutPoint)
    ensures o in AfterAll(addrs, unspent, txs) && o !in Closed(addrs, unspent, txs) <==>
              exists i, j :: SpentTooEarly(addrs, txs, o, i, j)
  {
    hide Spent, Gained, AllSpent, AllGained, AfterAll;
    AllSpentMeans(txs, o);
    AllGainedMeans(addrs, txs, o);
    AfterAllMeans(addrs, unspent, txs, o);
    if j :| KeptFrom(addrs, txs, o, j) {
      if i :| 0 <= i < |txs| && o in Spent(txs[i]) {
        assert i <= j;
        assert SpentTooEarly(addrs, txs, o, i, j);
      }
    }
  }

  /**
   A rescan leaves what the client had or was paid in the segment and has not spent in it,
   exactly if no output that it was paid for good is spent by the paying transaction or an earlier one.
   */
  lemma ExactForm(addrs: set<Address>, unspent: set<OutPoint>, txs: seq<Tx>)
    ensures AfterAll(addrs, unspent, txs) == Closed(addrs, unspent, txs) <==>
              !exists o, i, j :: SpentTooEarly(addrs, txs, o, i, j)
  {
    hide AfterAll, Closed, SpentTooEarly;
    NeverLost(addrs, unspent, txs);
    if o, i: nat, j: nat :| SpentTooEarly(addrs, txs, o, i, j) {
      LeftOver(addrs, unspent, txs, o);
    } else {
      forall o | o in AfterAll(addrs, unspent, txs) ensures o in Closed(addrs, unspent, txs) {
        LeftOver(addrs, unspent, txs, o);
      }
    }
  }

  /** No transaction spends an output of its own or of a later one, as on every valid chain. */
  ghost predicate SpendsBackwards(txs: seq<Tx>) {
    forall i, j, n :: 0 <= i <= j < |txs| && 0 <= n < |txs[i].inputs| ==> txs[i].inputs[n].prev.hash != txs[j].hash
  }

  lemma ClosedForm(addrs: set<Address>, unspent: set<OutPoint>, txs: seq<Tx>)
    requires SpendsBackwards(txs)
    ensures AfterAll(addrs, unspent, txs) == Closed(addrs, unspent, txs)
  {
    hide AfterAll, Closed;
    ExactForm(addrs, unspent, txs);
    assert forall o, i, j :: !SpentTooEarly(addrs, txs, o, i, j);
  }

  /** An output that is spent before it appears stays in the set. */
  lemma OutOfOrder(addrs: set<Address>, a: Address, payer: Hash, spender: Hash)
    requires a in addrs
    ensures
      var txs := [Tx(spender, [Input(OutPoint(payer, 0), None)], []), Tx(payer, [], [[a]])];
      SpentTooEarly(addrs, txs, OutPoint(payer, 0), 0, 1) && AfterAll(addrs, {}, txs) != Closed(addrs, {}, txs)
  {
    var first, second := Tx(spender, [Input(OutPoint(payer, 0), None)], []), Tx(payer, [], [[a]]);
    var txs := [first, second];
    assert PaysAny(addrs, second.outputs[0]) by { assert second.outputs[0][0] in addrs; }
    assert Outpoint(second, 0) in Gained(addrs, second);
    assert first.inputs[0].prev in Spent(first);
    assert SpentTooEarly(addrs, txs, OutPoint(payer, 0), 0, 1);
    ExactForm(addrs, {}, txs);
  }

  lemma {:induction false} OnlyTheirs(addrs: set<Address>, unspent: set<OutPoint>, txs: seq<Tx>, n: Ntfn)
    requires forall i :: 0 <= i < |txs| ==> txs[i].hash != n.tx
    ensures n !in AllNtfns(addrs, unspent, txs)
  {
    hide IsSpend, IsPayment, AfterAll;
    if txs != [] {
      OnlyTheirs(addrs, unspent, txs[..|txs| - 1], n);
    }
  }

  lemma OneTxOnce(addrs: set<Address>, unspent: set<OutPoint>, tx: Tx, n: Ntfn)
    ensures multiset(TxNtfns(addrs, unspent, tx))[n] <= if n.tx == tx.hash then 1 else 0
  {
    hide IsSpend, IsPayment;
    var a: seq<Ntfn> := if IsSpend(addrs, unspent, tx) then [Spends(tx.hash)] else [];
    var b: seq<Ntfn> := if IsPayment(addrs, tx) then [Pays(tx.hash)] else [];
    assert multiset(a + b) == multiset(a) + multiset(b);
  }

  /** With distinct transactions, each is announced at most once as a spend and once as a payment. */
  lemma {:induction false} AtMostOnce(addrs: set<Address>, unspent: set<OutPoint>, txs: seq<Tx>, n: Ntfn)
    requires forall i, j :: 0 <= i < j < |txs| ==> txs[i].hash != txs[j].hash
    ensures multiset(AllNtfns(addrs, unspent, txs))[n] <= 1
  {
    hide TxNtfns, AfterAll;
    if txs != [] {
      var front, tx := txs[..|txs| - 1], txs[|txs| - 1];
      OneTxOnce(addrs, AfterAll(addrs, unspent, front), tx, n);
      var a, b := AllNtfns(addrs, unspent, front), TxNtfns(addrs, AfterAll(addrs, unspent, front), tx);
      assert multiset(a + b) == multiset(a) + multiset(b);
      if n.tx == tx.hash {
        OnlyTheirs(addrs, unspent, front, n);
      } else {
        AtMostOnce(addrs, unspent, front, n);
      }
    }
  }

  // ---------------------------------------------------------------------------
  // The code
  // ---------------------------------------------------------------------------

  /**
   `sent` is what goes out of `due` to a client that quits after `room` notifications, which is
   noticed at the next one.
   */
  ghost predicate SentOf(sent: seq<Ntfn>, due: seq<Ntfn>, room: nat, quit: bool) {
    if |due| <= room then !quit && sent == due else quit && sent == due[..room]
  }

  /** The inputs of a transaction: spent outpoints are dropped, and one notification goes out. */
  method RescanInputs(addrs: set<Address>, unspent: set<OutPoint>, tx: Tx, room: nat)
    returns (after: set<OutPoint>, sent: seq<Ntfn>, quit: bool)
    ensures SentOf(sent, if IsSpend(addrs, unspent, tx) then [Spends(tx.hash)] else [], room, quit)
    ensures !quit ==> after == unspent - Spent(tx)
  {
    after, sent, quit := unspent, [], false;
    var spentNotified := false;
    for i := 0 to |tx.inputs|
      invariant after == unspent - (set j | 0 <= j < i :: tx.inputs[j].prev)
      invariant spentNotified <==> exists j :: 0 <= j < i && (tx.inputs[j].prev in unspent || FromAny(addrs, tx.inputs[j]))
      invariant sent == (if spentNotified then [Spends(tx.hash)] else []) && |sent| <= room
    {
      var txin := tx.inputs[i];
      if txin.prev in after {
        after := after - {txin.prev};
        if spentNotified {
          continue;
        }
        if room == 0 {
          assert IsSpend(addrs, unspent, tx);
          return after, sent, true;
        }
        sent := sent + [Spends(tx.hash)];
        spentNotified := true;
      }
      if FromAny(addrs, txin) {
        if spentNotified {
          continue;
        }
        if room == 0 {
          assert IsSpend(addrs, unspent, tx);
          return after, sent, true;
        }
        sent := sent + [Spends(tx.hash)];
        spentNotified := true;
      }
    }
  }

  /** The outputs of a transaction: those to watched addresses are kept, and one notification goes out. */
  method RescanOutputs(addrs: set<Address>, unspent: set<OutPoint>, tx: Tx, room: nat)
    returns (after: set<OutPoint>, sent: seq<Ntfn>, quit: bool)
    ensures SentOf(sent, if IsPayment(addrs, tx) then [Pays(tx.hash)] else [], room, quit)
    ensures !quit ==> after == unspent + Gained(addrs, tx)
  {
    after, sent, quit := unspent, [], false;
    var recvNotified := false;
    for i := 0 to |tx.outputs|
      invariant after == unspent + (set j | 0 <= j < i && PaysAny(addrs, tx.outputs[j]) :: Outpoint(tx, j))
      invariant recvNotified <==> exists j :: 0 <= j < i && PaysAny(addrs, tx.outputs[j])
      invariant sent == (if recvNotified then [Pays(tx.hash)] else []) && |sent| <= room
    {
      ghost var before, was := after, recvNotified;
      var output := tx.outputs[i];
      for k := 0 to |output|
        invariant after == before + (if PaysAny(addrs, output[..k]) then {Outpoint(tx, i)} else {})
        invariant recvNotified <==> was || PaysAny(addrs, output[..k])
        invariant sent == (if recvNotified then [Pays(tx.hash)] else []) && |sent| <= room
      {
        PaysMore(addrs, output, k);
        if output[k] !in addrs {
          continue;
        }
        after := after + {Outpoint(tx, i)};
        if recvNotified {
          continue;
        }
        if room == 0 {
          PaysWhole(addrs, output, k);
          assert IsPayment(addrs, tx);
          return after, sent, true;
        }
        sent := sent + [Pays(tx.hash)];
        recvNotified := true;
      }
      assert output[..|output|] == output;
    }
  }

  lemma PaysMore(addrs: set<Address>, output: seq<Address>, k: nat)
    requires k < |output|
    ensures PaysAny(addrs, output[..k + 1]) <==> PaysAny(addrs, output[..k]) || output[k] in addrs
  {
    if PaysAny(addrs, output[..k]) {
      var i :| 0 <= i < k && output[..k][i] in addrs;
      assert output[..k + 1][i] in addrs;
    }
    if output[k] in addrs {
      assert output[..k + 1][k] in addrs;
    }
  }

  lemma PaysWhole(addrs: set<Address>, output: seq<Address>, k: nat)
    requires k < |output| && output[k] in addrs
    ensures PaysAny(addrs, output)
  {
  }

  /**
   Rescans the transactions of a chain segment, stopping when the client has quit.  The program does
   this block by block: the scan of one block returns, and the loop over blocks looks whether the
   client has quit before it goes on.
   */
  method RescanBlocks(addrs: set<Address>, unspent: set<OutPoint>, txs: seq<Tx>, room: nat)
    returns (after: set<OutPoint>, sent: seq<Ntfn>, quit: bool)
    ensures SentOf(sent, AllNtfns(addrs, unspent, txs), room, quit)
    ensures !quit ==> after == AfterAll(addrs, unspent, txs)
  {
    hide IsSpend, IsPayment, Spent, Gained, SentOf;
    after, sent, quit := unspent, [], false;
    assert txs[..0] == [];
    NothingDue(room);
    for i := 0 to |txs|
      invariant after == AfterAll(addrs, unspent, txs[..i]) && SentOf(sent, AllNtfns(addrs, unspent, txs[..i]), room, false)
    {
      ghost var due := AllNtfns(addrs, unspent, txs[..i]);
      ghost var unspentBefore := after;
      SentAll(sent, due, room);
      assert txs[..i + 1][..i] == txs[..i];
      var some: seq<Ntfn>;
      after, some, quit := RescanInputs(addrs, after, txs[i], room - |sent|);
      ghost var spends := if IsSpend(addrs, unspentBefore, txs[i]) then [Spends(txs[i].hash)] else [];
      ghost var pays := if IsPayment(addrs, txs[i]) then [Pays(txs[i].hash)] else [];
      SentMore(sent, due, some, spends, room, quit);
      assert due + (spends + pays) == (due + spends) + pays;
      sent := sent + some;
      if quit {
        SentRest(sent, due + spends, pays, room);
        LaterNtfns(addrs, unspent, txs, i + 1, sent, room);
        return;
      }
      SentAll(sent, due + spends, room);
      after, some, quit := RescanOutputs(addrs, after, txs[i], room - |sent|);
      SentMore(sent, due + spends, some, pays, room, quit);
      sent := sent + some;
      if quit {
        LaterNtfns(addrs, unspent, txs, i + 1, sent, room);
        return;
      }
    }
    assert txs[..|txs|] == txs;
  }

  lemma NothingDue(room: nat)
    ensures SentOf([], [], room, false)
  {
  }

  lemma SentAll(sent: seq<Ntfn>, due: seq<Ntfn>, room: nat)
    requires SentOf(sent, due, room, false)
    ensures sent == due && |sent| <= room
  {
  }

  lemma SentMore(sent: seq<Ntfn>, due: seq<Ntfn>, some: seq<Ntfn>, more: seq<Ntfn>, room: nat, quit: bool)
    requires sent == due && |sent| <= room && SentOf(some, more, room - |sent|, quit)
    ensures SentOf(sent + some, due + more, room, quit)
  {
  }

  lemma SentRest(sent: seq<Ntfn>, due: seq<Ntfn>, more: seq<Ntfn>, room: nat)
    requires SentOf(sent, due, room, true)
    ensures SentOf(sent, due + more, room, true)
  {
  }

  lemma {:induction false} LaterNtfns(addrs: set<Address>, unspent: set<OutPoint>, txs: seq<Tx>, i: nat, sent: seq<Ntfn>, room: nat)
    requires i <= |txs| && SentOf(sent, AllNtfns(addrs, unspent, txs[..i]), room, true)
    ensures SentOf(sent, AllNtfns(addrs, unspent, txs), room, true)
    decreases |txs| - i
  {
    hide TxNtfns, AfterAll, SentOf;
    if i == |txs| {
      assert txs[..i] == txs;
    } else {
      var front, tx := txs[..i], txs[i];
      assert txs[..i + 1][..i] == front;
      SentRest(sent, AllNtfns(addrs, unspent, front), TxNtfns(addrs, AfterAll(addrs, unspent, front), tx), room);
      LaterNtfns(addrs, unspent, txs, i + 1, sent, room);
    }
  }
}
