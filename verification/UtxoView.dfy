/** The set of unspent outputs: connecting a block to it, and taking the block back with its spend journal. */
module UtxoView {
  import opened ChainTypes
  import opened Compress
  import opened SpendJournal

  datatype Output = Output(amount: int, script: seq<byte>)

  /** A transaction of a block; `body` holds its version and inputs. */
  datatype BlockTx = BlockTx(hash: Hash, isCoinBase: bool, body: Tx, outputs: seq<Output>)

  /** Unspent outputs with what is known about them. */
  type Utxos = map<OutPoint, SpentTxOut>

  type Unspendable = seq<byte> -> bool

  function At(tx: BlockTx, i: nat): (o: OutPoint) {
    OutPoint(tx.hash, (i % 0x1_0000_0000) as uint32)
  }

  // ---------------------------------------------------------------------------
  // One transaction
  // ---------------------------------------------------------------------------

  /** The outputs a transaction spends, in order. */
  function Ins(tx: BlockTx): (r: seq<OutPoint>) {
    if tx.isCoinBase || tx.body.version == TX_VERSION_VDF_RESULT then [] else Ordinary(tx.body.inputs)
  }

  /** The first `n` outputs that a transaction creates, without the provably unspendable ones. */
  function OutsUpTo(tx: BlockTx, n: nat, height: int, unspendable: Unspendable): (r: Utxos)
    requires n <= |tx.outputs|
  {
    if n == 0 then map[]
    else
      var rest, out := OutsUpTo(tx, n - 1, height, unspendable), tx.outputs[n - 1];
      if unspendable(out.script) then rest else rest[At(tx, n - 1) := SpentTxOut(out.amount, out.script, height, tx.isCoinBase)]
  }

  function Outs(tx: BlockTx, height: int, unspendable: Unspendable): (r: Utxos) {
    OutsUpTo(tx, |tx.outputs|, height, unspendable)
  }

  predicate Distinct(s: seq<OutPoint>) {
    forall i, j :: 0 <= i < j < |s| ==> s[i] != s[j]
  }

  /** The transaction spends unspent outputs, each once, and replaces none. */
  predicate TxValid(u: Utxos, tx: BlockTx, height: int, unspendable: Unspendable) {
    && Distinct(Ins(tx)) && (forall i :: 0 <= i < |Ins(tx)| ==> Ins(tx)[i] in u)
    && Outs(tx, height, unspendable).Keys !! u.Keys
  }

  function Without(u: Utxos, spent: seq<OutPoint>): (r: Utxos) {
    map o | o in u && o !in spent :: u[o]
  }

  function ConnectTx(u: Utxos, tx: BlockTx, height: int, unspendable: Unspendable): (r: Utxos) {
    Without(u, Ins(tx)) + Outs(tx, height, unspendable)
  }

  /** Output `i` is among the first `n` created ones exactly when it is not provably unspendable. */
  lemma {:induction false} OutsFacts(tx: BlockTx, n: nat, height: int, unspendable: Unspendable, i: nat)
    requires i < n <= |tx.outputs| <= 0x1_0000_0000
    ensures var made, out := OutsUpTo(tx, n, height, unspendable), tx.outputs[i];
      && (At(tx, i) in made <==> !unspendable(out.script))
      && (At(tx, i) in made ==> made[At(tx, i)] == SpentTxOut(out.amount, out.script, height, tx.isCoinBase))
  {
    if i < n - 1 {
      OutsFacts(tx, n - 1, height, unspendable, i);
      assert At(tx, i) != At(tx, n - 1);
    } else {
      NotYet(tx, n - 1, height, unspendable, i);
    }
  }

  lemma {:induction false} NotYet(tx: BlockTx, n: nat, height: int, unspendable: Unspendable, i: nat)
    requires n <= i < |tx.outputs| <= 0x1_0000_0000
    ensures At(tx, i) !in OutsUpTo(tx, n, height, unspendable)
  {
    if n > 0 {
      NotYet(tx, n - 1, height, unspendable, i);
      assert At(tx, i) != At(tx, n - 1);
    }
  }

  /** The output is one of the transaction's own that can be spent. */
  predicate Creates(tx: BlockTx, n: nat, o: OutPoint, unspendable: Unspendable)
    requires n <= |tx.outputs|
  {
    exists i :: 0 <= i < n && o == At(tx, i) && !unspendable(tx.outputs[i].script)
  }

  lemma {:induction false} OwnOutputs(tx: BlockTx, n: nat, height: int, unspendable: Unspendable, o: OutPoint)
    requires n <= |tx.outputs|
    ensures o in OutsUpTo(tx, n, height, unspendable) <==> Creates(tx, n, o, unspendable)
  {
    hide At;
    if n > 0 {
      OwnOutputs(tx, n - 1, height, unspendable, o);
      if i :| 0 <= i < n - 1 && o == At(tx, i) && !unspendable(tx.outputs[i].script) {
        assert Creates(tx, n, o, unspendable);
      }
    }
  }

  /**
   What connecting a transaction means: its outputs that can be spent are there as it made them,
   and every other output is there exactly if it was and the transaction does not spend it.
   */
  lemma ConnectMeans(u: Utxos, tx: BlockTx, height: int, unspendable: Unspendable)
    requires |tx.outputs| <= 0x1_0000_0000
    ensures var r := ConnectTx(u, tx, height, unspendable);
      && (forall i :: 0 <= i < |tx.outputs| && !unspendable(tx.outputs[i].script) ==>
            At(tx, i) in r && r[At(tx, i)] == SpentTxOut(tx.outputs[i].amount, tx.outputs[i].script, height, tx.isCoinBase))
      && (forall o :: !Creates(tx, |tx.outputs|, o, unspendable) ==> (o in r <==> o in u && o !in Ins(tx)) && (o in r ==> r[o] == u[o]))
  {
    hide Ins, OutsUpTo, Creates;
    forall i | 0 <= i < |tx.outputs| && !unspendable(tx.outputs[i].script)
      ensures var made := Outs(tx, height, unspendable);
        At(tx, i) in made && made[At(tx, i)] == SpentTxOut(tx.outputs[i].amount, tx.outputs[i].script, height, tx.isCoinBase)
    {
      OutsFacts(tx, |tx.outputs|, height, unspendable, i);
    }
    forall o ensures o in Outs(tx, height, unspendable) <==> Creates(tx, |tx.outputs|, o, unspendable) {
      OwnOutputs(tx, |tx.outputs|, height, unspendable, o);
    }
  }

  /** What the spend journal gets for the outputs `spent`. */
  function Taken(u: Utxos, spent: seq<OutPoint>): (stxos: seq<SpentTxOut>)
    requires forall i :: 0 <= i < |spent| ==> spent[i] in u
    ensures |stxos| == |spent|
  {
    seq(|spent|, i requires 0 <= i < |spent| => u[spent[i]])
  }

  /** Puts the journal's entries back from the last one to the first. */
  function GiveBack(u: Utxos, spent: seq<OutPoint>, stxos: seq<SpentTxOut>): (r: Utxos)
    requires |spent| == |stxos|
    decreases |spent|
  {
    if spent == [] then u
    else GiveBack(u[spent[|spent| - 1] := stxos[|spent| - 1]], spent[..|spent| - 1], stxos[..|spent| - 1])
  }

  function DisconnectTx(u: Utxos, tx: BlockTx, stxos: seq<SpentTxOut>, height: int, unspendable: Unspendable): (r: Utxos)
    requires |stxos| == |Ins(tx)|
  {
    GiveBack(u - Outs(tx, height, unspendable).Keys, Ins(tx), stxos)
  }

  lemma {:induction false} GiveBackFacts(u: Utxos, spent: seq<OutPoint>, stxos: seq<SpentTxOut>)
    requires |spent| == |stxos| && Distinct(spent)
    ensures var r := GiveBack(u, spent, stxos);
      && (forall o :: o in r <==> o in u || o in spent)
      && (forall i :: 0 <= i < |spent| ==> r[spent[i]] == stxos[i])
      && (forall o :: o in u && o !in spent ==> r[o] == u[o])
    decreases |spent|
  {
    if spent != [] {
      var n := |spent| - 1;
      var more := u[spent[n] := stxos[n]];
      GiveBackFacts(more, spent[..n], stxos[..n]);
      LastOfDistinct(spent);
      var r := GiveBack(u, spent, stxos);
      assert r == GiveBack(more, spent[..n], stxos[..n]);
      hide GiveBack, Distinct;
      forall i | 0 <= i < |spent| ensures r[spent[i]] == stxos[i] {
        if i < n {
          assert spent[..n][i] == spent[i] && stxos[..n][i] == stxos[i];
        }
      }
    }
  }

  lemma LastOfDistinct(s: seq<OutPoint>)
    requires s != [] && Distinct(s)
    ensures var n := |s| - 1; s[n] !in s[..n] && (forall o :: o in s <==> o in s[..n] || o == s[n])
  {
  }

  lemma DisconnectUndoes(u: Utxos, tx: BlockTx, height: int, unspendable: Unspendable)
    requires TxValid(u, tx, height, unspendable)
    ensures DisconnectTx(ConnectTx(u, tx, height, unspendable), tx, Taken(u, Ins(tx)), height, unspendable) == u
  {
    hide Ins, Outs;
    var spent, made := Ins(tx), Outs(tx, height, unspendable);
    var left := ConnectTx(u, tx, height, unspendable) - made.Keys;
    assert left == Without(u, spent);
    GiveBackFacts(left, spent, Taken(u, spent));
    var r := GiveBack(left, spent, Taken(u, spent));
    forall o | o in u ensures o in r && r[o] == u[o] {
      if o in spent {
        var i :| 0 <= i < |spent| && spent[i] == o;
        assert r[spent[i]] == Taken(u, spent)[i];
      }
    }
    assert r.Keys == u.Keys;
  }

  // ---------------------------------------------------------------------------
  // A block
  // ---------------------------------------------------------------------------

  function ConnectAll(u: Utxos, txs: seq<BlockTx>, height: int, unspendable: Unspendable): (r: Utxos) {
    if txs == [] then u
    else ConnectTx(ConnectAll(u, txs[..|txs| - 1], height, unspendable), txs[|txs| - 1], height, unspendable)
  }

  /** Each transaction is valid after those before it, and the first one alone is a coinbase. */
  predicate BlockValid(u: Utxos, txs: seq<BlockTx>, height: int, unspendable: Unspendable) {
    txs == [] || (
      && BlockValid(u, txs[..|txs| - 1], height, unspendable)
      && TxValid(ConnectAll(u, txs[..|txs| - 1], height, unspendable), txs[|txs| - 1], height, unspendable)
      && (txs[|txs| - 1].isCoinBase <==> |txs| == 1))
  }

  /** The journal of a block. */
  function Journal(u: Utxos, txs: seq<BlockTx>, height: int, unspendable: Unspendable): (stxos: seq<SpentTxOut>)
    requires BlockValid(u, txs, height, unspendable)
  {
    if txs == [] then []
    else
      var front, tx := txs[..|txs| - 1], txs[|txs| - 1];
      Journal(u, front, height, unspendable) + Taken(ConnectAll(u, front, height, unspendable), Ins(tx))
  }

  /** The number of outputs a block spends. */
  function Spent(txs: seq<BlockTx>): (n: nat) {
    if txs == [] then 0 else Spent(txs[..|txs| - 1]) + |Ins(txs[|txs| - 1])|
  }

  /** Takes the transactions back from the last one to the first. */
  function DisconnectAll(u: Utxos, txs: seq<BlockTx>, stxos: seq<SpentTxOut>, height: int, unspendable: Unspendable): (r: Utxos)
    requires |stxos| == Spent(txs)
    decreases |txs|
  {
    if txs == [] then u
    else
      var front, tx := txs[..|txs| - 1], txs[|txs| - 1];
      var n := Spent(front);
      DisconnectAll(DisconnectTx(u, tx, stxos[n..], height, unspendable), front, stxos[..n], height, unspendable)
  }

  lemma {:induction false} JournalSize(u: Utxos, txs: seq<BlockTx>, height: int, unspendable: Unspendable)
    requires BlockValid(u, txs, height, unspendable)
    ensures |Journal(u, txs, height, unspendable)| == Spent(txs)
  {
    if txs != [] {
      JournalSize(u, txs[..|txs| - 1], height, unspendable);
    }
  }

  /** Taking a connected block back with its own journal restores the unspent outputs exactly. */
  lemma {:induction false} BlockUndone(u: Utxos, txs: seq<BlockTx>, height: int, unspendable: Unspendable)
    requires BlockValid(u, txs, height, unspendable)
    ensures |Journal(u, txs, height, unspendable)| == Spent(txs)
    ensures DisconnectAll(ConnectAll(u, txs, height, unspendable), txs, Journal(u, txs, height, unspendable), height, unspendable) == u
  {
    hide ConnectTx, DisconnectTx, Taken, Ins, Outs;
    JournalSize(u, txs, height, unspendable);
    if txs != [] {
      var front, tx := txs[..|txs| - 1], txs[|txs| - 1];
      JournalSize(u, front, height, unspendable);
      BlockUndone(u, front, height, unspendable);
      var before := ConnectAll(u, front, height, unspendable);
      DisconnectUndoes(before, tx, height, unspendable);
      var stxos, n := Journal(u, txs, height, unspendable), Spent(front);
      assert stxos[..n] == Journal(u, front, height, unspendable);
      assert stxos[n..] == Taken(before, Ins(tx));
    }
  }

  // ---------------------------------------------------------------------------
  // Taking a block back with any entries
  // ---------------------------------------------------------------------------

  /** The outputs a block spends, in the order of its journal. */
  function AllIns(txs: seq<BlockTx>): (r: seq<OutPoint>) {
    if txs == [] then [] else AllIns(txs[..|txs| - 1]) + Ins(txs[|txs| - 1])
  }

  lemma {:induction false} InsSize(txs: seq<BlockTx>)
    ensures |AllIns(txs)| == Spent(txs)
  {
    if txs != [] { InsSize(txs[..|txs| - 1]); }
  }

  /** Each spent output with the entry of its first spend. */
  function Firsts(spent: seq<OutPoint>, stxos: seq<SpentTxOut>): (r: Utxos)
    requires |spent| == |stxos|
  {
    if spent == [] then map[]
    else
      var n := |spent| - 1;
      map[spent[n] := stxos[n]] + Firsts(spent[..n], stxos[..n])
  }

  predicate FirstSpend(spent: seq<OutPoint>, i: nat)
    requires i < |spent|
  {
    spent[i] !in spent[..i]
  }

  function Over(u: Utxos, coins: Utxos): (r: Utxos) {
    map o | o in u :: if o in coins then coins[o] else u[o]
  }

  lemma {:induction false} FirstsAt(spent: seq<OutPoint>, stxos: seq<SpentTxOut>, i: nat)
    requires |spent| == |stxos| && i < |spent|
    ensures spent[i] in Firsts(spent, stxos) && (FirstSpend(spent, i) ==> Firsts(spent, stxos)[spent[i]] == stxos[i])
  {
    var n := |spent| - 1;
    if i < n {
      FirstsAt(spent[..n], stxos[..n], i);
      assert spent[..n][..i] == spent[..i];
    } else {
      FirstsKeys(spent[..n], stxos[..n], spent[n]);
    }
  }

  /** Every outpoint that `Firsts` knows has a first spend. */
  lemma {:induction false} FirstsKeys(spent: seq<OutPoint>, stxos: seq<SpentTxOut>, o: OutPoint)
    requires |spent| == |stxos|
    ensures o in Firsts(spent, stxos) <==> o in spent
    ensures o in spent ==> exists i :: 0 <= i < |spent| && spent[i] == o && FirstSpend(spent, i)
  {
    if spent != [] {
      var n := |spent| - 1;
      FirstsKeys(spent[..n], stxos[..n], o);
      if o in spent[..n] {
        var i :| 0 <= i < n && spent[..n][i] == o && FirstSpend(spent[..n], i);
        assert spent[..n][..i] == spent[..i];
        assert spent[i] == o && FirstSpend(spent, i);
      } else if o == spent[n] {
        assert FirstSpend(spent, n);
      }
    }
  }

  lemma {:induction false} FirstsBoth(a: seq<OutPoint>, x: seq<SpentTxOut>, b: seq<OutPoint>, y: seq<SpentTxOut>)
    requires |a| == |x| && |b| == |y|
    ensures Firsts(a + b, x + y) == Firsts(b, y) + Firsts(a, x)
    decreases |b|
  {
    hide Firsts;
    if b == [] {
      assert a + b == a && x + y == x;
      FirstsEmpty(b, y);
    } else {
      var n := |b| - 1;
      FirstsBoth(a, x, b[..n], y[..n]);
      assert (a + b)[..|a| + n] == a + b[..n] && (x + y)[..|a| + n] == x + y[..n];
      FirstsStep(a + b, x + y);
      FirstsStep(b, y);
      MapAssoc(map[b[n] := y[n]], Firsts(b[..n], y[..n]), Firsts(a, x));
    }
  }

  lemma FirstsEmpty(none: seq<OutPoint>, stxos: seq<SpentTxOut>)
    requires none == [] && stxos == []
    ensures Firsts(none, stxos) == map[]
  {
  }

  lemma FirstsStep(spent: seq<OutPoint>, stxos: seq<SpentTxOut>)
    requires |spent| == |stxos| && spent != []
    ensures var n := |spent| - 1; Firsts(spent, stxos) == map[spent[n] := stxos[n]] + Firsts(spent[..n], stxos[..n])
  {
  }

  lemma MapAssoc(a: Utxos, b: Utxos, c: Utxos)
    ensures a + (b + c) == (a + b) + c
  {
  }

  /** Giving entries back from the last to the first leaves the first one of each output. */
  lemma {:induction false} GiveBackIs(u: Utxos, spent: seq<OutPoint>, stxos: seq<SpentTxOut>)
    requires |spent| == |stxos|
    ensures GiveBack(u, spent, stxos) == u + Firsts(spent, stxos)
    decreases |spent|
  {
    if spent != [] {
      var n := |spent| - 1;
      GiveBackIs(u[spent[n] := stxos[n]], spent[..n], stxos[..n]);
    }
  }

  lemma TakenBackTx(v: Utxos, tx: BlockTx, coins: Utxos, stxos: seq<SpentTxOut>, height: int, unspendable: Unspendable)
    requires TxValid(v, tx, height, unspendable) && |stxos| == |Ins(tx)|
    ensures DisconnectTx(Over(ConnectTx(v, tx, height, unspendable), coins), tx, stxos, height, unspendable)
            == Over(v, coins + Firsts(Ins(tx), stxos))
  {
    hide Ins, Outs, Firsts, GiveBack;
    var spent, made := Ins(tx), Outs(tx, height, unspendable);
    var left := Over(ConnectTx(v, tx, height, unspendable), coins) - made.Keys;
    assert left == Over(Without(v, spent), coins);
    GiveBackIs(left, spent, stxos);
    forall o ensures o in Firsts(spent, stxos) <==> o in spent {
      FirstsKeys(spent, stxos, o);
    }
    OverGiven(v, spent, coins, Firsts(spent, stxos));
  }

  lemma OverGiven(v: Utxos, spent: seq<OutPoint>, coins: Utxos, given: Utxos)
    requires (forall i :: 0 <= i < |spent| ==> spent[i] in v) && forall o :: o in given <==> o in spent
    ensures Over(Without(v, spent), coins) + given == Over(v, coins + given)
  {
    assert forall o :: o in spent ==> o in v;
  }

  /**
   Taking a valid block back with any entries, one per spent output: the outputs that were there
   before it come back, with the entry of their first spend if the block spent them.
   */
  lemma {:induction false} TakenBack(u: Utxos, txs: seq<BlockTx>, coins: Utxos, stxos: seq<SpentTxOut>, height: int, unspendable: Unspendable)
    requires BlockValid(u, txs, height, unspendable) && |stxos| == Spent(txs) == |AllIns(txs)|
    ensures DisconnectAll(Over(ConnectAll(u, txs, height, unspendable), coins), txs, stxos, height, unspendable)
            == Over(u, coins + Firsts(AllIns(txs), stxos))
    decreases |txs|
  {
    hide ConnectTx, DisconnectTx, Ins, Over, Firsts, TxValid;
    if txs == [] {
      FirstsNone(u, coins, stxos);
    } else {
      var front, tx := txs[..|txs| - 1], txs[|txs| - 1];
      var n := Spent(front);
      InsSize(front);
      TakenBackTx(ConnectAll(u, front, height, unspendable), tx, coins, stxos[n..], height, unspendable);
      TakenBack(u, front, coins + Firsts(Ins(tx), stxos[n..]), stxos[..n], height, unspendable);
      FirstsBoth(AllIns(front), stxos[..n], Ins(tx), stxos[n..]);
      assert stxos[..n] + stxos[n..] == stxos;
      MapAssoc(coins, Firsts(Ins(tx), stxos[n..]), Firsts(AllIns(front), stxos[..n]));
    }
  }

  lemma FirstsNone(u: Utxos, coins: Utxos, stxos: seq<SpentTxOut>)
    requires stxos == []
    ensures coins + Firsts([], stxos) == coins
  {
  }

  /** The entries are right for every output that was there before the block and that it spent. */
  predicate RightEntries(u: Utxos, spent: seq<OutPoint>, stxos: seq<SpentTxOut>)
    requires |spent| == |stxos|
  {
    forall i :: 0 <= i < |spent| && FirstSpend(spent, i) && spent[i] in u ==> stxos[i] == u[spent[i]]
  }

  /** So the old unspent outputs come back exactly if those entries are right; the others do not matter. */
  lemma TakenBackRight(u: Utxos, txs: seq<BlockTx>, stxos: seq<SpentTxOut>, height: int, unspendable: Unspendable)
    requires BlockValid(u, txs, height, unspendable) && |stxos| == Spent(txs) == |AllIns(txs)|
    ensures DisconnectAll(ConnectAll(u, txs, height, unspendable), txs, stxos, height, unspendable) == u
            <==> RightEntries(u, AllIns(txs), stxos)
  {
    hide BlockValid, ConnectAll, DisconnectAll, AllIns, Firsts, FirstSpend, Spent;
    var spent := AllIns(txs);
    TakenBack(u, txs, map[], stxos, height, unspendable);
    assert Over(ConnectAll(u, txs, height, unspendable), map[]) == ConnectAll(u, txs, height, unspendable);
    var given := Firsts(spent, stxos);
    assert map[] + given == given;
    if RightEntries(u, spent, stxos) {
      forall o | o in u && o in given ensures given[o] == u[o] {
        FirstsKeys(spent, stxos, o);
        var i :| 0 <= i < |spent| && spent[i] == o && FirstSpend(spent, i);
        FirstsAt(spent, stxos, i);
      }
      assert Over(u, given) == u;
    } else {
      var i :| 0 <= i < |spent| && FirstSpend(spent, i) && spent[i] in u && stxos[i] != u[spent[i]];
      FirstsAt(spent, stxos, i);
      assert Over(u, given)[spent[i]] != u[spent[i]];
    }
  }

  // ---------------------------------------------------------------------------
  // Entries without a height
  // ---------------------------------------------------------------------------

  /** Every entry carries the height of its output, as all but an old journal format do. */
  predicate AllDated(stxos: seq<SpentTxOut>) {
    forall i :: 0 <= i < |stxos| ==> stxos[i].height != 0
  }

  /** What is made of an entry without a height when a block at `height` is taken back. */
  function Redate(coin: SpentTxOut, height: int): (r: SpentTxOut) {
    if coin.height == 0 then coin.(height := height, isCoinBase := false) else coin
  }

  function Redated(stxos: seq<SpentTxOut>, height: int): (r: seq<SpentTxOut>)
    ensures |r| == |stxos| && (AllDated(stxos) ==> r == stxos)
  {
    seq(|stxos|, i requires 0 <= i < |stxos| => Redate(stxos[i], height))
  }

  /** `kept` is what an old format kept of `stxos`: some entries without height and coinbase flag. */
  predicate Erased(stxos: seq<SpentTxOut>, kept: seq<SpentTxOut>) {
    && |kept| == |stxos|
    && forall i :: 0 <= i < |stxos| ==> kept[i] == stxos[i] || kept[i] == stxos[i].(height := 0, isCoinBase := false)
  }

  /** Where a height is missing the one that is filled in is right, if the output was there before the block. */
  predicate Guessed(u: Utxos, spent: seq<OutPoint>, kept: seq<SpentTxOut>, height: int)
    requires |spent| == |kept|
  {
    forall i :: 0 <= i < |spent| && FirstSpend(spent, i) && spent[i] in u && kept[i].height == 0 ==>
      u[spent[i]].height == height && !u[spent[i]].isCoinBase
  }

  lemma OwnDated(tx: BlockTx, n: nat, height: int, unspendable: Unspendable, o: OutPoint)
    requires n <= |tx.outputs| && o in OutsUpTo(tx, n, height, unspendable)
    ensures o.hash == tx.hash
    ensures var coin := OutsUpTo(tx, n, height, unspendable)[o]; coin.height == height && coin.isCoinBase == tx.isCoinBase
  {
  }

  /** A block leaves unspent outputs that it does not spend as they are. */
  lemma {:induction false} Untouched(u: Utxos, txs: seq<BlockTx>, height: int, unspendable: Unspendable, o: OutPoint)
    requires BlockValid(u, txs, height, unspendable) && o in u && o !in AllIns(txs)
    ensures o in ConnectAll(u, txs, height, unspendable) && ConnectAll(u, txs, height, unspendable)[o] == u[o]
  {
    hide Ins, Outs;
    if txs != [] {
      Untouched(u, txs[..|txs| - 1], height, unspendable, o);
    }
  }

  /** What is there after some transactions was there before, or comes from one of them. */
  lemma {:induction false} WhereFrom(u: Utxos, txs: seq<BlockTx>, height: int, unspendable: Unspendable, o: OutPoint)
    requires o in ConnectAll(u, txs, height, unspendable)
    ensures var coin := ConnectAll(u, txs, height, unspendable)[o];
      (o in u && coin == u[o]) || MadeBy(txs, o, coin, height, unspendable)
  {
    hide Ins, OutsUpTo;
    if txs != [] {
      var front, tx := txs[..|txs| - 1], txs[|txs| - 1];
      var coin := ConnectAll(u, txs, height, unspendable)[o];
      if o in Outs(tx, height, unspendable) {
        OwnDated(tx, |tx.outputs|, height, unspendable, o);
        assert MadeBy(txs, o, coin, height, unspendable);
      } else {
        WhereFrom(u, front, height, unspendable, o);
        if MadeBy(front, o, coin, height, unspendable) { MadeByPrefix(front, txs, o, coin, height, unspendable); }
      }
    }
  }

  lemma MadeByPrefix(front: seq<BlockTx>, txs: seq<BlockTx>, o: OutPoint, coin: SpentTxOut, height: int, unspendable: Unspendable)
    requires front <= txs && MadeBy(front, o, coin, height, unspendable)
    ensures MadeBy(txs, o, coin, height, unspendable)
  {
    hide Outs;
    var k :| 0 <= k < |front| && o in Outs(front[k], height, unspendable) && coin.height == height && coin.isCoinBase == front[k].isCoinBase;
    assert txs[k] == front[k];
  }

  /** A journal has an entry without a height exactly when the block spends an output that had none. */
  lemma {:induction false} DatedJournal(u: Utxos, txs: seq<BlockTx>, height: int, unspendable: Unspendable)
    requires BlockValid(u, txs, height, unspendable) && height != 0
    ensures AllDated(Journal(u, txs, height, unspendable)) <==> forall o :: o in u && o in AllIns(txs) ==> u[o].height != 0
  {
    hide ConnectTx, Ins, Outs;
    if txs != [] {
      var front, tx := txs[..|txs| - 1], txs[|txs| - 1];
      DatedJournal(u, front, height, unspendable);
      var before := ConnectAll(u, front, height, unspendable);
      assert Journal(u, txs, height, unspendable) == Journal(u, front, height, unspendable) + Taken(before, Ins(tx));
      forall i | 0 <= i < |Ins(tx)|
        ensures before[Ins(tx)[i]].height != 0 || (Ins(tx)[i] in u && u[Ins(tx)[i]].height == 0)
      {
        WhereFrom(u, front, height, unspendable, Ins(tx)[i]);
      }
      forall o | o in u && o in Ins(tx) && o !in AllIns(front) ensures before[o] == u[o] {
        Untouched(u, front, height, unspendable, o);
      }
      assert forall o :: o in AllIns(txs) <==> o in AllIns(front) || o in Ins(tx);
      BothDated(Journal(u, front, height, unspendable), Taken(before, Ins(tx)));
      TakenDated(before, Ins(tx));
    }
  }

  lemma BothDated(a: seq<SpentTxOut>, b: seq<SpentTxOut>)
    ensures AllDated(a + b) <==> AllDated(a) && AllDated(b)
  {
    assert forall i :: 0 <= i < |a| ==> (a + b)[i] == a[i];
    assert forall i :: 0 <= i < |b| ==> (a + b)[|a| + i] == b[i];
  }

  lemma TakenDated(u: Utxos, spent: seq<OutPoint>)
    requires forall i :: 0 <= i < |spent| ==> spent[i] in u
    ensures AllDated(Taken(u, spent)) <==> forall o :: o in spent ==> o in u && u[o].height != 0
  {
    assert forall i :: 0 <= i < |spent| ==> Taken(u, spent)[i] == u[spent[i]];
    if AllDated(Taken(u, spent)) {
      forall o | o in spent ensures o in u && u[o].height != 0 {
        var i :| 0 <= i < |spent| && spent[i] == o;
        assert Taken(u, spent)[i].height != 0;
      }
    }
  }

  /** At its first spend in the block an output that was there before it is journaled as it was. */
  lemma {:induction false} JournalFirst(u: Utxos, txs: seq<BlockTx>, height: int, unspendable: Unspendable, i: nat)
    requires BlockValid(u, txs, height, unspendable) && i < |AllIns(txs)| && FirstSpend(AllIns(txs), i) && AllIns(txs)[i] in u
    ensures |Journal(u, txs, height, unspendable)| == |AllIns(txs)| && Journal(u, txs, height, unspendable)[i] == u[AllIns(txs)[i]]
  {
    hide ConnectTx, ConnectAll, Ins, TxValid;
    JournalSize(u, txs, height, unspendable);
    InsSize(txs);
    var front, tx := txs[..|txs| - 1], txs[|txs| - 1];
    JournalSize(u, front, height, unspendable);
    InsSize(front);
    if i < |AllIns(front)| {
      assert AllIns(txs)[..i] == AllIns(front)[..i];
      JournalFirst(u, front, height, unspendable, i);
    } else {
      var before, j := ConnectAll(u, front, height, unspendable), i - |AllIns(front)|;
      assert AllIns(txs)[..i] == AllIns(front) + Ins(tx)[..j];
      Untouched(u, front, height, unspendable, AllIns(txs)[i]);
      assert Journal(u, txs, height, unspendable)[i] == before[Ins(tx)[j]];
    }
  }

  /**
   Taking a block back with its journal as an old format kept it, missing heights filled in as
   the code does: exact if and only if they are right for outputs from before the block.
   */
  lemma RedatedUndone(u: Utxos, txs: seq<BlockTx>, kept: seq<SpentTxOut>, height: int, unspendable: Unspendable)
    requires BlockValid(u, txs, height, unspendable) && Erased(Journal(u, txs, height, unspendable), kept)
    ensures |kept| == Spent(txs) == |AllIns(txs)|
    ensures DisconnectAll(ConnectAll(u, txs, height, unspendable), txs, Redated(kept, height), height, unspendable) == u
            <==> Guessed(u, AllIns(txs), kept, height)
  {
    hide BlockValid, ConnectAll, DisconnectAll, Journal, AllIns, FirstSpend, Spent;
    JournalSize(u, txs, height, unspendable);
    InsSize(txs);
    var spent, stxos := AllIns(txs), Redated(kept, height);
    TakenBackRight(u, txs, stxos, height, unspendable);
    forall i | 0 <= i < |spent| && FirstSpend(spent, i) && spent[i] in u
      ensures stxos[i] == u[spent[i]] <==> (kept[i].height == 0 ==> u[spent[i]].height == height && !u[spent[i]].isCoinBase)
    {
      JournalFirst(u, txs, height, unspendable, i);
    }
  }

  /**
   On a chain, where unspent outputs come from lower blocks, this says that heights may be missing
   only for outputs that the block itself made.
   */
  lemma OldJournalOnChain(u: Utxos, txs: seq<BlockTx>, kept: seq<SpentTxOut>, height: int, unspendable: Unspendable)
    requires BlockValid(u, txs, height, unspendable) && Erased(Journal(u, txs, height, unspendable), kept)
    requires (forall o :: o in u ==> u[o].height < height) && Distinct(AllIns(txs))
    ensures |kept| == Spent(txs) == |AllIns(txs)|
    ensures DisconnectAll(ConnectAll(u, txs, height, unspendable), txs, Redated(kept, height), height, unspendable) == u
            <==> forall i :: 0 <= i < |kept| && kept[i].height == 0 ==> AllIns(txs)[i] !in u
  {
    hide BlockValid, ConnectAll, DisconnectAll, Journal, AllIns, Spent;
    RedatedUndone(u, txs, kept, height, unspendable);
    assert forall i :: 0 <= i < |AllIns(txs)| ==> FirstSpend(AllIns(txs), i);
  }

  /**
   An old journal that fails: a block at height 7 spends an output of height 5, the entry has
   lost its height, and the output comes back with height 7.
   */
  lemma OldJournalFails(p: OutPoint, coin: SpentTxOut, c: Hash, a: Hash, made: Output, unspendable: Unspendable)
    requires !Sentinel(p) && coin.height == 5 && p.hash != a && !unspendable(made.script)
    ensures
      var u := map[p := coin];
      var txs := [BlockTx(c, true, Tx(1, []), []), BlockTx(a, false, Tx(1, [p]), [made])];
      var kept := [coin.(height := 0, isCoinBase := false)];
      && BlockValid(u, txs, 7, unspendable) && Erased(Journal(u, txs, 7, unspendable), kept) && |kept| == Spent(txs)
      && DisconnectAll(ConnectAll(u, txs, 7, unspendable), txs, Redated(kept, 7), 7, unspendable)
         == map[p := coin.(height := 7, isCoinBase := false)]
  {
    hide *;
    var u := map[p := coin];
    var first, second := BlockTx(c, true, Tx(1, []), []), BlockTx(a, false, Tx(1, [p]), [made]);
    var kept, given := coin.(height := 0, isCoinBase := false), coin.(height := 7, isCoinBase := false);
    OneSpenderBlock(u, p, first, second, unspendable);
    OneErased(coin, 7);
    OneGiven(u, p, [first, second], given, unspendable);
  }

  lemma OneErased(coin: SpentTxOut, height: int)
    ensures Erased([coin], [coin.(height := 0, isCoinBase := false)])
    ensures Redated([coin.(height := 0, isCoinBase := false)], height) == [coin.(height := height, isCoinBase := false)]
  {
  }

  lemma OneGiven(u: Utxos, p: OutPoint, txs: seq<BlockTx>, given: SpentTxOut, unspendable: Unspendable)
    requires BlockValid(u, txs, 7, unspendable) && AllIns(txs) == [p] && u.Keys == {p}
    ensures Spent(txs) == 1 && DisconnectAll(ConnectAll(u, txs, 7, unspendable), txs, [given], 7, unspendable) == map[p := given]
  {
    hide BlockValid, ConnectAll, DisconnectAll, AllIns, Spent, Firsts;
    InsSize(txs);
    TakenBack(u, txs, map[], [given], 7, unspendable);
    assert Over(ConnectAll(u, txs, 7, unspendable), map[]) == ConnectAll(u, txs, 7, unspendable);
    FirstsStep([p], [given]);
    FirstsEmpty([p][..0], [given][..0]);
    assert map[] + Firsts([p], [given]) == map[p := given];
  }

  lemma OneSpenderBlock(u: Utxos, p: OutPoint, first: BlockTx, second: BlockTx, unspendable: Unspendable)
    requires !Sentinel(p) && u.Keys == {p} && first.isCoinBase && first.outputs == [] && !second.isCoinBase
    requires second.body == Tx(1, [p]) && |second.outputs| == 1 && p.hash != second.hash
    ensures BlockValid(u, [first, second], 7, unspendable)
    ensures Journal(u, [first, second], 7, unspendable) == [u[p]] && AllIns([first, second]) == [p]
  {
    hide *;
    OneSpender(u, p, first, second, unspendable);
    EmptyBlock(u, unspendable);
    NextTx(u, [], first, unspendable);
    assert [] + [first] == [first] && [first] + [second] == [first, second];
    NextTx(u, [first], second, unspendable);
    TakenOne(u, p);
    assert [] + [u[p]] == [u[p]] && [] + [p] == [p];
  }

  lemma EmptyBlock(u: Utxos, unspendable: Unspendable)
    ensures BlockValid(u, [], 7, unspendable) && ConnectAll(u, [], 7, unspendable) == u
    ensures Journal(u, [], 7, unspendable) == [] && AllIns([]) == []
  {
  }

  /** A block with one more transaction. */
  lemma NextTx(u: Utxos, txs: seq<BlockTx>, tx: BlockTx, unspendable: Unspendable)
    requires BlockValid(u, txs, 7, unspendable) && TxValid(ConnectAll(u, txs, 7, unspendable), tx, 7, unspendable)
    requires tx.isCoinBase <==> txs == []
    ensures BlockValid(u, txs + [tx], 7, unspendable)
    ensures ConnectAll(u, txs + [tx], 7, unspendable) == ConnectTx(ConnectAll(u, txs, 7, unspendable), tx, 7, unspendable)
    ensures forall i :: 0 <= i < |Ins(tx)| ==> Ins(tx)[i] in ConnectAll(u, txs, 7, unspendable)
    ensures Journal(u, txs + [tx], 7, unspendable)
            == Journal(u, txs, 7, unspendable) + Taken(ConnectAll(u, txs, 7, unspendable), Ins(tx))
    ensures AllIns(txs + [tx]) == AllIns(txs) + Ins(tx)
  {
    hide ConnectTx, Ins, Outs, Taken;
    var more := txs + [tx];
    assert more[..|more| - 1] == txs && more[|more| - 1] == tx;
  }

  lemma TakenOne(u: Utxos, p: OutPoint)
    requires p in u
    ensures Taken(u, [p]) == [u[p]] && Taken(u, []) == []
  {
  }

  /** A coinbase without outputs, and a transaction that spends one output and makes one. */
  lemma OneSpender(u: Utxos, p: OutPoint, first: BlockTx, second: BlockTx, unspendable: Unspendable)
    requires !Sentinel(p) && u.Keys == {p} && first.isCoinBase && first.outputs == [] && !second.isCoinBase
    requires second.body == Tx(1, [p]) && |second.outputs| == 1 && p.hash != second.hash
    ensures Ins(first) == [] && Ins(second) == [p]
    ensures ConnectTx(u, first, 7, unspendable) == u
    ensures TxValid(u, first, 7, unspendable) && TxValid(u, second, 7, unspendable)
  {
    assert [p][..0] == [] && Ordinary([p]) == Ordinary([]) + [p];
    assert Without(u, []) + map[] == u;
    assert OutsUpTo(second, 1, 7, unspendable).Keys <= {At(second, 0)};
  }

  /** The transactions the journal is read with: all but the coinbase. */
  function Bodies(txs: seq<BlockTx>): (r: seq<Tx>) {
    if |txs| <= 1 then [] else Bodies(txs[..|txs| - 1]) + [txs[|txs| - 1].body]
  }

  lemma {:induction false} SpentByBodies(u: Utxos, txs: seq<BlockTx>, height: int, unspendable: Unspendable)
    requires BlockValid(u, txs, height, unspendable)
    ensures SpentBy(Bodies(txs)) == Spent(txs)
  {
    hide TxValid, ConnectAll, Ordinary, Spends;
    if txs != [] {
      var front, tx := txs[..|txs| - 1], txs[|txs| - 1];
      SpentByBodies(u, front, height, unspendable);
      if |txs| == 1 {
        assert front == [];
      } else {
        assert (Bodies(front) + [tx.body])[..|Bodies(front)|] == Bodies(front);
        OrdinarySize(tx.body.inputs);
      }
    }
  }

  /** The journal follows the order that the reader of the journal assumes. */
  lemma {:induction false} JournalOrder(u: Utxos, txs: seq<BlockTx>, height: int, unspendable: Unspendable)
    requires BlockValid(u, txs, height, unspendable)
    ensures AllIns(txs) == WriterOrder(Bodies(txs))
  {
    hide TxValid, ConnectAll, Ordinary;
    if txs != [] {
      var front, tx := txs[..|txs| - 1], txs[|txs| - 1];
      JournalOrder(u, front, height, unspendable);
      if |txs| == 1 {
        assert front == [];
      } else {
        assert (Bodies(front) + [tx.body])[..|Bodies(front)|] == Bodies(front);
      }
    }
  }

  lemma OrdinarySize(inputs: seq<OutPoint>)
    ensures |Ordinary(inputs)| == Spends(inputs)
  {
  }

  /**
   From connecting a block to taking it back after its journal went through the database, with
   heights or, in an old format, without some: the journal can be read exactly when no transaction
   mixes sentinel and ordinary inputs, and then the unspent outputs are restored exactly when the
   heights that are filled in are right.
   */
  lemma StoredBlockUndone(c: Curve, u: Utxos, txs: seq<BlockTx>, kept: seq<SpentTxOut>, height: int, unspendable: Unspendable)
    requires c.Sound() && BlockValid(u, txs, height, unspendable)
    requires Erased(Journal(u, txs, height, unspendable), kept) && AllStorable(kept)
    ensures |kept| == Spent(txs) == |AllIns(txs)|
    ensures
      var read := Fetch(c, EncodeEntry(c, kept), Bodies(txs));
      if exists i :: 0 <= i < |Bodies(txs)| && Mixed(Bodies(txs)[i]) then read == CorruptEntry
      else
        && read == Stxos(kept)
        && (DisconnectAll(ConnectAll(u, txs, height, unspendable), txs, Redated(read.stxos, height), height, unspendable) == u
            <==> Guessed(u, AllIns(txs), kept, height))
  {
    hide BlockValid, Journal, ConnectAll, DisconnectAll, Bodies, Fetch, EncodeEntry, Mixed, SpentBy, Spent, Redated, AllIns, Guessed, Erased;
    RedatedUndone(u, txs, kept, height, unspendable);
    SpentByBodies(u, txs, height, unspendable);
    FetchStored(c, kept, Bodies(txs));
  }

  // ---------------------------------------------------------------------------
  // The view
  // ---------------------------------------------------------------------------

  /** An entry of a view; spent outputs stay in it, marked. */
  datatype UtxoEntry = UtxoEntry(coin: SpentTxOut, spent: bool, modified: bool, isFresh: bool)

  type View = map<OutPoint, UtxoEntry>

  function Unspent(entries: View): (u: Utxos) {
    map o | o in entries && !entries[o].spent :: entries[o].coin
  }

  function Spend(e: UtxoEntry): (r: UtxoEntry)
    ensures r.spent && r.coin == e.coin
  {
    if e.spent then e else e.(spent := true, modified := true)
  }

  /** The coins of some entries, in order. */
  function Coins(entries: View, os: seq<OutPoint>): (r: seq<SpentTxOut>)
    requires forall i :: 0 <= i < |os| ==> os[i] in entries
  {
    seq(|os|, i requires 0 <= i < |os| => entries[os[i]].coin)
  }

  /** Disconnecting skips the inputs of the first transaction, connecting those of the coinbase. */
  predicate CoinbaseFirst(txs: seq<BlockTx>) {
    forall i :: 0 <= i < |txs| ==> (txs[i].isCoinBase <==> i == 0)
  }

  /** Some output of a transaction in the database. */
  type Database = Hash -> Option<UtxoEntry>

  const MAX_OUTPUTS_PER_BLOCK := 20_000_000 / (4 * 9)

  /** Coins that are new in the view or have changed are among the outputs `made`. */
  ghost predicate CoinsFrom(was: View, now: View, made: set<OutPoint>, height: int, isCoinBase: bool) {
    forall o :: o in now && !(o in was && now[o].coin == was[o].coin) ==>
      o in made && now[o].coin.height == height && now[o].coin.isCoinBase == isCoinBase
  }

  /** What the view has of a transaction was made at `height` and not by a coinbase. */
  ghost predicate MadeAt(entries: View, hash: Hash, height: int) {
    forall o :: o in entries && o.hash == hash ==> entries[o].coin.height == height && !entries[o].coin.isCoinBase
  }

  ghost predicate Absent(entries: View, hash: Hash) {
    forall o :: o in entries ==> o.hash != hash
  }

  /** Some output of the transaction can be spent, so that the view has an entry of it. */
  predicate Findable(tx: BlockTx, unspendable: Unspendable) {
    exists i :: 0 <= i < |tx.outputs| && i < MAX_OUTPUTS_PER_BLOCK && !unspendable(tx.outputs[i].script)
  }

  predicate SpendsOthers(tx: BlockTx) {
    forall j :: 0 <= j < |tx.body.inputs| ==> tx.body.inputs[j].hash != tx.hash
  }

  /** A height that is missing is found to be `height`: the transaction's own outputs are there, and were made there. */
  ghost predicate Dates(entries: View, tx: BlockTx, height: int) {
    MadeAt(entries, tx.hash, height) && SpendsOthers(tx) && exists i :: 0 <= i < MAX_OUTPUTS_PER_BLOCK && At(tx, i) in entries
  }

  /** A height that is missing is not found. */
  ghost predicate NoDate(entries: View, tx: BlockTx, db: Database) {
    Absent(entries, tx.hash) && SpendsOthers(tx) && db(tx.hash).None?
  }

  /**
   Before the outputs of the transaction are removed: what the view has of it was made at
   `height`; and if none of its outputs can be spent, then neither view nor database have any.
   */
  ghost predicate Known(entries: View, tx: BlockTx, height: int, unspendable: Unspendable, db: Database) {
    && SpendsOthers(tx) && |tx.outputs| <= MAX_OUTPUTS_PER_BLOCK
    && if Findable(tx, unspendable) then MadeAt(entries, tx.hash, height) else Absent(entries, tx.hash) && db(tx.hash).None?
  }

  /** Changed coins are those given back. */
  ghost predicate GivenBack(was: View, now: View, spent: seq<OutPoint>, stxos: seq<SpentTxOut>)
    requires |spent| == |stxos|
  {
    forall o :: o in now && !(o in was && now[o].coin == was[o].coin) ==>
      exists i :: 0 <= i < |spent| && o == spent[i] && now[o].coin == stxos[i]
  }

  class UtxoViewpoint {
    var entries: View

    constructor ()
      ensures entries == map[]
    {
      entries := map[];
    }

    /** Adds the outputs of a transaction, unspent. */
    method AddTxOuts(tx: BlockTx, height: int, unspendable: Unspendable)
      modifies this
      ensures Unspent(entries) == Unspent(old(entries)) + Outs(tx, height, unspendable)
      ensures CoinsFrom(old(entries), entries, Outs(tx, height, unspendable).Keys, height, tx.isCoinBase)
    {
      hide Unspent, CoinsFrom;
      NoCoinsFrom(entries, height);
      for i := 0 to |tx.outputs|
        invariant Unspent(entries) == Unspent(old(entries)) + OutsUpTo(tx, i, height, unspendable)
        invariant CoinsFrom(old(entries), entries, OutsUpTo(tx, i, height, unspendable).Keys, height, tx.isCoinBase)
      {
        var out := tx.outputs[i];
        if unspendable(out.script) {
          continue;
        }
        var coin := SpentTxOut(out.amount, out.script, height, tx.isCoinBase);
        SetUnspent(entries, At(tx, i), UtxoEntry(coin, false, true, true));
        MoreCoinsFrom(old(entries), entries, OutsUpTo(tx, i, height, unspendable).Keys, At(tx, i), UtxoEntry(coin, false, true, true), height, tx.isCoinBase);
        assert OutsUpTo(tx, i + 1, height, unspendable).Keys == OutsUpTo(tx, i, height, unspendable).Keys + {At(tx, i)};
        entries := entries[At(tx, i) := UtxoEntry(coin, false, true, true)];
      }
    }

    /**
     Spends the inputs of a transaction and adds its outputs; fails when an input is unknown,
     with the inputs before that one spent.
     */
    method ConnectTransaction(tx: BlockTx, height: int, unspendable: Unspendable, before: seq<SpentTxOut>)
      returns (ok: bool, stxos: seq<SpentTxOut>)
      modifies this
      ensures ok <==> forall i :: 0 <= i < |Ins(tx)| ==> Ins(tx)[i] in old(entries)
      ensures ok ==> Unspent(entries) == ConnectTx(Unspent(old(entries)), tx, height, unspendable)
      ensures ok ==> stxos == before + Coins(old(entries), Ins(tx))
      ensures !ok ==> exists j :: 0 <= j < |tx.body.inputs| && StoppedAt(old(entries), tx.body.inputs, j, entries, before, stxos)
      ensures CoinsFrom(old(entries), entries, Outs(tx, height, unspendable).Keys, height, tx.isCoinBase)
    {
      hide Outs, StoppedAt, Unspent, Coins;
      stxos := before;
      if tx.isCoinBase || tx.body.version == TX_VERSION_VDF_RESULT {
        AddTxOuts(tx, height, unspendable);
        WithoutNone(Unspent(old(entries)));
        NoCoins(old(entries), before);
        return true, stxos;
      }
      assert Ins(tx) == Ordinary(tx.body.inputs);
      ok, stxos := SpendInputs(tx.body.inputs, before);
      if ok {
        AddTxOuts(tx, height, unspendable);
      }
    }

    /** Marks the ordinary inputs as spent, noting what they were. */
    method SpendInputs(inputs: seq<OutPoint>, before: seq<SpentTxOut>) returns (ok: bool, stxos: seq<SpentTxOut>)
      modifies this
      ensures ok <==> forall i :: 0 <= i < |Ordinary(inputs)| ==> Ordinary(inputs)[i] in old(entries)
      ensures ok ==> Unspent(entries) == Without(Unspent(old(entries)), Ordinary(inputs))
      ensures ok ==> stxos == before + Coins(old(entries), Ordinary(inputs))
      ensures !ok ==> exists j :: 0 <= j < |inputs| && StoppedAt(old(entries), inputs, j, entries, before, stxos)
      ensures forall o :: o in entries ==> o in old(entries) && entries[o].coin == old(entries)[o].coin
    {
      hide Sentinel, Spending;
      ghost var was := entries;
      stxos := before;
      SpendingNone(was, before);
      for j := 0 to |inputs|
        invariant Spending(was, Ordinary(inputs[..j]), entries, before, stxos)
      {
        assert inputs[..j + 1][..j] == inputs[..j];
        ghost var done := Ordinary(inputs[..j]);
        if Sentinel(inputs[j]) {
          assert done + [] == done;
          continue;
        }
        SpendingKeys(was, done, entries, before, stxos);
        if inputs[j] !in entries {
          OrdinaryPart(inputs, j);
          SpendingAll(was, done, entries, before, stxos);
          assert StoppedAt(was, inputs, j, entries, before, stxos);
          return false, stxos;
        }
        SpendingStep(was, done, entries, before, stxos, inputs[j]);
        stxos := stxos + [entries[inputs[j]].coin];
        entries := entries[inputs[j] := Spend(entries[inputs[j]])];
      }
      assert inputs[..|inputs|] == inputs;
      SpendingKeys(was, Ordinary(inputs), entries, before, stxos);
      SpendingAll(was, Ordinary(inputs), entries, before, stxos);
      return true, stxos;
    }

    /**
     Connects the transactions of a block.  Whenever it succeeds the view is the connected one;
     a valid block always connects, and leaves its journal.
     */
    method ConnectTransactions(txs: seq<BlockTx>, height: int, unspendable: Unspendable)
      returns (ok: bool, stxos: seq<SpentTxOut>)
      modifies this
      ensures ok ==> Unspent(entries) == ConnectAll(Unspent(old(entries)), txs, height, unspendable)
      ensures BlockValid(Unspent(old(entries)), txs, height, unspendable) ==>
        ok && stxos == Journal(Unspent(old(entries)), txs, height, unspendable)
      ensures forall o :: o in entries && !(o in old(entries) && entries[o].coin == old(entries)[o].coin) ==> MadeBy(txs, o, entries[o].coin, height, unspendable)
    {
      hide ConnectTx, Ins, TxValid, Unspent, StoppedAt, MadeBy, CoinsFrom;
      ghost var u := Unspent(entries);
      ghost var valid := BlockValid(u, txs, height, unspendable);
      ok, stxos := true, [];
      for i := 0 to |txs|
        invariant valid ==> BlockValid(u, txs[..i], height, unspendable)
        invariant Unspent(entries) == ConnectAll(u, txs[..i], height, unspendable)
        invariant valid ==> stxos == Journal(u, txs[..i], height, unspendable)
        invariant forall o :: o in entries && !(o in old(entries) && entries[o].coin == old(entries)[o].coin) ==> MadeBy(txs, o, entries[o].coin, height, unspendable)
      {
        ghost var before := entries;
        assert txs[..i + 1][..i] == txs[..i];
        if valid {
          BlockPrefix(u, txs, i + 1, height, unspendable);
          InputsThere(before, txs[i], height, unspendable);
        }
        ok, stxos := ConnectTransaction(txs[i], height, unspendable, stxos);
        MadeByOne(before, entries, txs, i, height, unspendable);
        if !ok {
          return;
        }
      }
      assert txs[..|txs|] == txs;
    }

    /**
     Takes a block back with its journal, transactions and inputs from the last to the first.
     Missing heights are filled in with that of the block, or cannot be found.
     */
    method DisconnectTransactions(txs: seq<BlockTx>, stxos: seq<SpentTxOut>, height: int, unspendable: Unspendable, db: Database)
      returns (ok: bool)
      requires CoinbaseFirst(txs)
      modifies this
      ensures |stxos| != Spent(txs) ==> !ok && entries == old(entries)
      ensures |stxos| == Spent(txs) && (AllDated(stxos) || BlockKnown(old(entries), txs, stxos, height, unspendable, db)) ==>
        && (ok <==> Datable(txs, stxos, unspendable))
        && (ok ==> Unspent(entries) == DisconnectAll(Unspent(old(entries)), txs, Redated(stxos, height), height, unspendable))
    {
      hide DisconnectTx, DisconnectAll, Ins, Unspent, Redated, AllDated, Known, GivenOrMade, Findable, BlockKnown, Datable, Undoing;
      var count := CountSpent(txs);
      if |stxos| != count {
        return false;
      }
      ghost var known := AllDated(stxos) || BlockKnown(entries, txs, stxos, height, unspendable, db);
      ghost var goal := DisconnectAll(Unspent(entries), txs, Redated(stxos, height), height, unspendable);
      if known { StartUndoing(entries, txs, stxos, height, unspendable, db); }
      assert txs[..|txs|] == txs;
      var left, i := |stxos|, |txs|;
      while i > 0
        invariant 0 <= i <= |txs| && 0 <= left <= |stxos| && left == Spent(txs[..i])
        invariant known ==> Undoing(entries, txs, i, stxos, goal, height, unspendable, db)
      {
        i := i - 1;
        assert txs[..i + 1][..i] == txs[..i];
        ghost var n, before, had := Spent(txs[..i]), entries, left;
        if known { UndoingNow(before, txs, i, stxos, goal, height, unspendable, db); }
        left, ok := DisconnectTransaction(txs[i], i == 0, stxos, left, height, unspendable, db);
        if known { UndoingStep(before, entries, txs, i, stxos, goal, height, unspendable, db, ok); }
        if !ok {
          return;
        }
      }
      if known { EndUndoing(entries, txs, stxos, goal, height, unspendable, db); }
      return true;
    }

    /** Takes one transaction back with the last entries of `stxos[..left]`. */
    method DisconnectTransaction(tx: BlockTx, isCoinBase: bool, stxos: seq<SpentTxOut>, left: nat, height: int,
                                 unspendable: Unspendable, db: Database) returns (rest: nat, ok: bool)
      requires |Ins(tx)| <= left <= |stxos| && tx.isCoinBase == isCoinBase
      modifies this
      ensures ok ==> rest == left - |Ins(tx)|
      ensures var part := stxos[left - |Ins(tx)|..left];
        AllDated(part) || Known(old(entries), tx, height, unspendable, db) ==>
          && (ok <==> AllDated(part) || Findable(tx, unspendable))
          && (ok ==>
                && Unspent(entries) == DisconnectTx(Unspent(old(entries)), tx, Redated(part, height), height, unspendable)
                && GivenOrMade(old(entries), entries, tx, Redated(part, height), height, unspendable))
    {
      hide Outs, Unspent, GiveBack, Ordinary, AllDated, Redated, CoinsFrom, GivenBack, Dates, NoDate, Findable, Known;
      ghost var was, part := entries, stxos[left - |Ins(tx)|..left];
      RemoveTxOuts(tx, isCoinBase, height, unspendable);
      ghost var removed := entries;
      if isCoinBase {
        NothingBack(Unspent(entries), Redated(part, height));
        NoneGiven(was, removed, tx, Redated(part, height), height, unspendable);
        NoneMissing(part);
        return left, true;
      }
      if Known(was, tx, height, unspendable, db) { AfterRemoval(was, removed, tx, height, unspendable, db); }
      rest, ok := RestoreInputs(tx, tx.body.version == TX_VERSION_VDF_RESULT, stxos, left, height, db);
      if ok && (AllDated(part) || Known(was, tx, height, unspendable, db)) {
        GivenAfter(was, removed, entries, tx, Redated(part, height), height, unspendable);
      }
    }

    /** Gives the inputs of a transaction back, from the last to the first. */
    method RestoreInputs(tx: BlockTx, vdf: bool, stxos: seq<SpentTxOut>, left: nat, ghost height: int, db: Database)
      returns (rest: nat, ok: bool)
      requires |Restorable(tx.body.inputs, vdf)| <= left <= |stxos|
      modifies this
      ensures ok ==> rest == left - |Restorable(tx.body.inputs, vdf)|
      ensures var all := Restorable(tx.body.inputs, vdf); var part := stxos[left - |all|..left];
        && (!AllDated(part) && NoDate(old(entries), tx, db) ==> !ok)
        && (AllDated(part) || Dates(old(entries), tx, height) ==>
              && ok
              && Unspent(entries) == GiveBack(Unspent(old(entries)), all, Redated(part, height))
              && GivenBack(old(entries), entries, all, Redated(part, height)))
    {
      hide Unspent, GiveBack, Restorable, Sentinel, Redated, AllDated, Dates, NoDate, GivenBack;
      var inputs := tx.body.inputs;
      ghost var was, all := entries, Restorable(inputs, vdf);
      ghost var base := left - |all|;
      ghost var part := stxos[base..left];
      ghost var dated, stuck := AllDated(part) || Dates(entries, tx, height), NoDate(entries, tx, db);
      ghost var dates := Redated(part, height);
      ghost var goal := GiveBack(Unspent(entries), all, dates);
      rest := left;
      var j := |inputs|;
      assert inputs[..|inputs|] == inputs && dates[..|all|] == dates && part[|all|..] == [];
      NoneChanged(was, all, dates);
      NoneMissing(part[|all|..]);
      while j > 0
        invariant 0 <= j <= |inputs| && rest == base + |Restorable(inputs[..j], vdf)|
        invariant rest <= left && Restorable(inputs[..j], vdf) <= all
        invariant stuck ==> NoDate(entries, tx, db) && AllDated(part[rest - base..])
        invariant dated ==> AllDated(part) || Dates(entries, tx, height)
        invariant dated ==> GiveBack(Unspent(entries), Restorable(inputs[..j], vdf), dates[..rest - base]) == goal
        invariant dated ==> GivenBack(was, entries, all, dates)
      {
        j := j - 1;
        RestorableStep(inputs, j, vdf);
        if Sentinel(inputs[j]) || vdf {
          continue;
        }
        ghost var todo := Restorable(inputs[..j], vdf);
        GiveBackStep(Unspent(entries), todo, inputs[j], dates[..rest - base]);
        rest := rest - 1;
        assert dates[..|todo| + 1][..|todo|] == dates[..|todo|] && dates[..|todo| + 1][|todo|] == dates[|todo|];
        RedatedAt(stxos, base, left, height, |todo|);
        var known, stxo := FindDate(tx, stxos[rest], height, db);
        PartDated(part, |todo|);
        if !known {
          return rest, false;
        }
        var entry := UtxoEntry(stxo, false, true, false);
        SetUnspent(entries, inputs[j], entry);
        DatesStay(entries, tx, height, db, j, entry);
        if dated {
          assert all[|todo|] == inputs[j];
          GivenMore(was, entries, all, dates, |todo|, entry);
        }
        entries := entries[inputs[j] := entry];
      }
      NoneRestorable(vdf);
      assert inputs[..0] == [] && part[0..] == part;
      NothingBack(Unspent(entries), dates[..rest - base]);
      ok := true;
    }

    /** An entry of an old journal format has no height: it is looked for among the outputs of `tx`. */
    method FindDate(tx: BlockTx, entry: SpentTxOut, ghost height: int, db: Database) returns (known: bool, stxo: SpentTxOut)
      ensures entry.height != 0 ==> known && stxo == entry
      ensures Dates(entries, tx, height) ==> known && stxo == Redate(entry, height)
      ensures NoDate(entries, tx, db) && entry.height == 0 ==> !known
    {
      hide At;
      stxo := entry;
      if entry.height == 0 {
        var utxo := FetchEntryByHash(tx, db);
        if Dates(entries, tx, height) { FoundDate(entries, tx, height, utxo); }
        if NoDate(entries, tx, db) { FoundNone(entries, tx); }
        if utxo.None? {
          return false, stxo;
        }
        stxo := stxo.(height := utxo.value.coin.height, isCoinBase := utxo.value.coin.isCoinBase);
      }
      known := true;
    }

    /** Some output of a transaction, in the view or else in the database. */
    method FetchEntryByHash(tx: BlockTx, db: Database) returns (entry: Option<UtxoEntry>)
      ensures (exists i :: 0 <= i < MAX_OUTPUTS_PER_BLOCK && At(tx, i) in entries) ==>
        exists i :: 0 <= i < MAX_OUTPUTS_PER_BLOCK && At(tx, i) in entries && entry == Some(entries[At(tx, i)])
      ensures (forall i :: 0 <= i < MAX_OUTPUTS_PER_BLOCK ==> At(tx, i) !in entries) ==> entry == db(tx.hash)
    {
      for i := 0 to MAX_OUTPUTS_PER_BLOCK
        invariant forall j :: 0 <= j < i ==> At(tx, j) !in entries
      {
        if At(tx, i) in entries {
          return Some(entries[At(tx, i)]);
        }
      }
      return db(tx.hash);
    }

    /** Marks the outputs of a transaction as spent, entering those that are not in the view. */
    method RemoveTxOuts(tx: BlockTx, isCoinBase: bool, height: int, unspendable: Unspendable)
      modifies this
      ensures Unspent(entries) == Unspent(old(entries)) - Outs(tx, height, unspendable).Keys
      ensures CoinsFrom(old(entries), entries, Outs(tx, height, unspendable).Keys, height, isCoinBase)
      ensures forall i :: 0 <= i < |tx.outputs| && !unspendable(tx.outputs[i].script) ==> At(tx, i) in entries
    {
      hide Unspent, CoinsFrom;
      NoCoinsFrom(entries, height);
      for i := 0 to |tx.outputs|
        invariant Unspent(entries) == Unspent(old(entries)) - OutsUpTo(tx, i, height, unspendable).Keys
        invariant CoinsFrom(old(entries), entries, OutsUpTo(tx, i, height, unspendable).Keys, height, isCoinBase)
        invariant forall j :: 0 <= j < i && !unspendable(tx.outputs[j].script) ==> At(tx, j) in entries
      {
        var out := tx.outputs[i];
        if unspendable(out.script) {
          continue;
        }
        var o := At(tx, i);
        var entry := if o in entries then entries[o]
          else UtxoEntry(SpentTxOut(out.amount, out.script, height, isCoinBase), false, false, false);
        SpendEntry(entries, o, entry);
        MoreCoinsFrom(old(entries), entries, OutsUpTo(tx, i, height, unspendable).Keys, o, Spend(entry), height, isCoinBase);
        assert OutsUpTo(tx, i + 1, height, unspendable).Keys == OutsUpTo(tx, i, height, unspendable).Keys + {o};
        entries := entries[o := Spend(entry)];
      }
    }

    method CountSpent(txs: seq<BlockTx>) returns (n: nat)
      requires CoinbaseFirst(txs)
      ensures n == Spent(txs)
    {
      hide Ordinary, Spends;
      n := 0;
      for i := 0 to |txs|
        invariant n == Spent(txs[..i])
      {
        assert txs[..i + 1][..i] == txs[..i];
        if i == 0 || txs[i].body.version == TX_VERSION_VDF_RESULT {
          continue;
        }
        OrdinarySize(txs[i].body.inputs);
        SpentByOne(txs[i].body);
        var more := CountSpentOutputs([txs[i].body]);
        n := n + more;
      }
      assert txs[..|txs|] == txs;
    }
  }

  // ---------------------------------------------------------------------------
  // What connecting leaves in the view
  // ---------------------------------------------------------------------------

  /** Spending stopped at input `j`, which is unknown, with the ordinary inputs before it spent and noted. */
  ghost predicate StoppedAt(was: View, inputs: seq<OutPoint>, j: nat, now: View, before: seq<SpentTxOut>, stxos: seq<SpentTxOut>)
    requires j < |inputs|
  {
    && !Sentinel(inputs[j]) && inputs[j] !in was
    && (forall i :: 0 <= i < |Ordinary(inputs[..j])| ==> Ordinary(inputs[..j])[i] in was)
    && Unspent(now) == Without(Unspent(was), Ordinary(inputs[..j]))
    && stxos == before + Coins(was, Ordinary(inputs[..j]))
  }

  /** The coin was made at `height` by one of the transactions. */
  ghost predicate MadeBy(txs: seq<BlockTx>, o: OutPoint, coin: SpentTxOut, height: int, unspendable: Unspendable) {
    exists k :: 0 <= k < |txs| && o in Outs(txs[k], height, unspendable) && coin.height == height && coin.isCoinBase == txs[k].isCoinBase
  }

  lemma MadeByOne(before: View, now: View, txs: seq<BlockTx>, i: nat, height: int, unspendable: Unspendable)
    requires i < |txs| && CoinsFrom(before, now, Outs(txs[i], height, unspendable).Keys, height, txs[i].isCoinBase)
    ensures forall o :: o in now && !(o in before && now[o].coin == before[o].coin) ==> MadeBy(txs, o, now[o].coin, height, unspendable)
  {
    hide Outs;
  }

  lemma NoCoinsFrom(entries: View, height: int)
    ensures forall made, isCoinBase :: CoinsFrom(entries, entries, made, height, isCoinBase)
  {
  }

  lemma MoreCoinsFrom(was: View, now: View, made: set<OutPoint>, o: OutPoint, e: UtxoEntry, height: int, isCoinBase: bool)
    requires CoinsFrom(was, now, made, height, isCoinBase)
    requires (o in now && e.coin == now[o].coin) || (e.coin.height == height && e.coin.isCoinBase == isCoinBase)
    ensures CoinsFrom(was, now[o := e], made + {o}, height, isCoinBase)
  {
  }

  lemma WithoutNone(u: Utxos)
    ensures Without(u, []) == u
  {
  }

  lemma NoCoins(entries: View, before: seq<SpentTxOut>)
    ensures before == before + Coins(entries, [])
  {
  }

  // ---------------------------------------------------------------------------
  // What disconnecting finds in the view
  // ---------------------------------------------------------------------------

  /** Every changed coin is given back to its input, or is one of the transaction's own. */
  ghost predicate GivenOrMade(was: View, now: View, tx: BlockTx, stxos: seq<SpentTxOut>, height: int, unspendable: Unspendable) {
    && |stxos| == |Ins(tx)|
    && forall o :: o in now && !(o in was && now[o].coin == was[o].coin) ==>
         || (o in Outs(tx, height, unspendable) && now[o].coin.height == height && now[o].coin.isCoinBase == tx.isCoinBase)
         || exists i :: 0 <= i < |Ins(tx)| && o == Ins(tx)[i] && now[o].coin == stxos[i]
  }

  /** Each transaction with an entry that lacks its height has an output that can be spent. */
  predicate Datable(txs: seq<BlockTx>, stxos: seq<SpentTxOut>, unspendable: Unspendable)
    requires |stxos| == Spent(txs)
  {
    txs == [] || (
      var front, tx := txs[..|txs| - 1], txs[|txs| - 1];
      Datable(front, stxos[..Spent(front)], unspendable) && (AllDated(stxos[Spent(front)..]) || Findable(tx, unspendable)))
  }

  ghost predicate ViewKnown(entries: View, txs: seq<BlockTx>, n: nat, height: int, unspendable: Unspendable, db: Database) {
    n <= |txs| && forall k :: 0 < k < n ==> Known(entries, txs[k], height, unspendable, db)
  }

  /** Entries for outputs that the block itself made say so, or say nothing; and those outputs can be spent. */
  predicate StxosFit(txs: seq<BlockTx>, stxos: seq<SpentTxOut>, height: int, unspendable: Unspendable) {
    && |stxos| == |AllIns(txs)|
    && forall i, k :: 0 <= i < |stxos| && 0 < k < |txs| && AllIns(txs)[i].hash == txs[k].hash ==>
         Findable(txs[k], unspendable) && (stxos[i].height == 0 || (stxos[i].height == height && !stxos[i].isCoinBase))
  }

  predicate DistinctHashes(txs: seq<BlockTx>) {
    forall i, k :: 0 <= i < k < |txs| ==> txs[i].hash != txs[k].hash
  }

  /** What view and database have of the block's transactions is what the block made. */
  ghost predicate BlockKnown(entries: View, txs: seq<BlockTx>, stxos: seq<SpentTxOut>, height: int, unspendable: Unspendable, db: Database) {
    && ViewKnown(entries, txs, |txs|, height, unspendable, db) && StxosFit(txs, stxos, height, unspendable)
    && CoinbaseFirst(txs) && DistinctHashes(txs)
  }

  /** The last transactions have been taken back, and the first `i` are still to be. */
  ghost predicate Undoing(entries: View, txs: seq<BlockTx>, i: nat, stxos: seq<SpentTxOut>, goal: Utxos, height: int,
                          unspendable: Unspendable, db: Database)
  {
    && i <= |txs| && Spent(txs[..i]) <= |stxos| == Spent(txs) && CoinbaseFirst(txs)
    && (AllDated(stxos)
        || (ViewKnown(entries, txs, i, height, unspendable, db) && StxosFit(txs, stxos, height, unspendable) && DistinctHashes(txs)))
    && DisconnectAll(Unspent(entries), txs[..i], Redated(stxos, height)[..Spent(txs[..i])], height, unspendable) == goal
    && (Datable(txs[..i], stxos[..Spent(txs[..i])], unspendable) <==> Datable(txs, stxos, unspendable))
  }

  lemma StartUndoing(entries: View, txs: seq<BlockTx>, stxos: seq<SpentTxOut>, height: int, unspendable: Unspendable, db: Database)
    requires |stxos| == Spent(txs) && CoinbaseFirst(txs)
    requires AllDated(stxos) || BlockKnown(entries, txs, stxos, height, unspendable, db)
    ensures Undoing(entries, txs, |txs|, stxos, DisconnectAll(Unspent(entries), txs, Redated(stxos, height), height, unspendable),
                    height, unspendable, db)
  {
    hide Unspent, Redated, AllDated, Datable, DisconnectAll, Spent;
    assert txs[..|txs|] == txs && stxos[..|stxos|] == stxos && Redated(stxos, height)[..|stxos|] == Redated(stxos, height);
  }

  /** Either the entries of the next transaction have their heights, or it is known what is found for them. */
  lemma UndoingNow(entries: View, txs: seq<BlockTx>, i: nat, stxos: seq<SpentTxOut>, goal: Utxos, height: int,
                   unspendable: Unspendable, db: Database)
    requires i < |txs| && Undoing(entries, txs, i + 1, stxos, goal, height, unspendable, db)
    ensures Spent(txs[..i]) + |Ins(txs[i])| == Spent(txs[..i + 1]) <= |stxos|
    ensures AllDated(stxos[Spent(txs[..i])..Spent(txs[..i + 1])]) || Known(entries, txs[i], height, unspendable, db)
  {
    hide Unspent, Redated, Datable, DisconnectAll, Known, StxosFit;
    assert txs[..i + 1][..i] == txs[..i];
    DatedPart(stxos, Spent(txs[..i]), Spent(txs[..i + 1]));
  }

  lemma UndoingStep(was: View, now: View, txs: seq<BlockTx>, i: nat, stxos: seq<SpentTxOut>, goal: Utxos, height: int,
                    unspendable: Unspendable, db: Database, ok: bool)
    requires i < |txs| && Undoing(was, txs, i + 1, stxos, goal, height, unspendable, db)
    requires Spent(txs[..i]) + |Ins(txs[i])| == Spent(txs[..i + 1]) <= |stxos|
    requires var part := stxos[Spent(txs[..i])..Spent(txs[..i + 1])];
      && (ok <==> AllDated(part) || Findable(txs[i], unspendable))
      && (ok ==>
            && Unspent(now) == DisconnectTx(Unspent(was), txs[i], Redated(part, height), height, unspendable)
            && GivenOrMade(was, now, txs[i], Redated(part, height), height, unspendable))
    ensures if ok then Undoing(now, txs, i, stxos, goal, height, unspendable, db) else !Datable(txs, stxos, unspendable)
  {
    hide Unspent, Redated, AllDated, DisconnectTx, Findable, GivenOrMade, StxosFit, ViewKnown, CoinbaseFirst, DistinctHashes, Ins;
    var n, m, dates := Spent(txs[..i]), Spent(txs[..i + 1]), Redated(stxos, height);
    assert txs[..i + 1][..i] == txs[..i];
    assert dates[..m][..n] == dates[..n] && dates[..m][n..] == dates[n..m];
    assert stxos[..m][..n] == stxos[..n] && stxos[..m][n..] == stxos[n..m];
    RedatedPart(stxos, n, m, height);
    if ok && !AllDated(stxos) {
      StillKnown(was, now, txs, i, stxos, n, m, height, unspendable, db);
    }
  }

  lemma EndUndoing(entries: View, txs: seq<BlockTx>, stxos: seq<SpentTxOut>, goal: Utxos, height: int, unspendable: Unspendable, db: Database)
    requires Undoing(entries, txs, 0, stxos, goal, height, unspendable, db)
    ensures Unspent(entries) == goal && Datable(txs, stxos, unspendable)
  {
    hide Unspent, Redated, AllDated, StxosFit, ViewKnown;
    assert txs[..0] == [];
  }

  lemma DatedPart(stxos: seq<SpentTxOut>, n: nat, m: nat)
    requires n <= m <= |stxos|
    ensures AllDated(stxos) ==> AllDated(stxos[n..m])
  {
  }

  /** An entry and those after it. */
  lemma PartDated(part: seq<SpentTxOut>, i: nat)
    requires i < |part|
    ensures AllDated(part[i..]) <==> part[i].height != 0 && AllDated(part[i + 1..])
    ensures AllDated(part) ==> part[i].height != 0
  {
    assert part[i..] == [part[i]] + part[i + 1..];
    BothDated([part[i]], part[i + 1..]);
  }

  lemma NoneMissing(none: seq<SpentTxOut>)
    requires none == []
    ensures AllDated(none)
  {
  }

  /** Entry `j` of transaction `i` among all entries. */
  lemma {:induction false} InsPart(txs: seq<BlockTx>, i: nat, j: nat)
    requires i < |txs| && j < |Ins(txs[i])|
    ensures |AllIns(txs)| == Spent(txs) && Spent(txs[..i]) + j < |AllIns(txs)|
    ensures AllIns(txs)[Spent(txs[..i]) + j] == Ins(txs[i])[j]
  {
    hide Ins;
    InsSize(txs);
    var front := txs[..|txs| - 1];
    if i < |front| {
      InsPart(front, i, j);
      assert front[..i] == txs[..i];
    } else {
      InsSize(front);
    }
  }

  lemma StillKnown(was: View, now: View, txs: seq<BlockTx>, i: nat, stxos: seq<SpentTxOut>, n: nat, m: nat, height: int,
                   unspendable: Unspendable, db: Database)
    requires i < |txs| && CoinbaseFirst(txs) && DistinctHashes(txs) && StxosFit(txs, stxos, height, unspendable) && n <= m <= |stxos|
    requires n == Spent(txs[..i]) && m == n + |Ins(txs[i])|
    requires ViewKnown(was, txs, i + 1, height, unspendable, db)
    requires GivenOrMade(was, now, txs[i], Redated(stxos[n..m], height), height, unspendable)
    ensures ViewKnown(now, txs, i, height, unspendable, db)
  {
    hide Ins, AllIns, SpendsOthers, AllDated, Spent, Redated, Findable, Outs, Known;
    forall k | 0 < k < i ensures Known(now, txs[k], height, unspendable, db) {
      forall o | o in now && o.hash == txs[k].hash && !(o in was && now[o].coin == was[o].coin)
        ensures Findable(txs[k], unspendable) && now[o].coin.height == height && !now[o].coin.isCoinBase
      {
        if o in Outs(txs[i], height, unspendable) { OwnHash(txs[i], height, unspendable, o); }
        var j :| 0 <= j < |Ins(txs[i])| && o == Ins(txs[i])[j] && now[o].coin == Redated(stxos[n..m], height)[j];
        InsPart(txs, i, j);
        RedatedAt(stxos, n, m, height, j);
      }
      KnownStays(was, now, txs[k], height, unspendable, db);
    }
  }

  lemma KnownStays(was: View, now: View, tx: BlockTx, height: int, unspendable: Unspendable, db: Database)
    requires Known(was, tx, height, unspendable, db)
    requires forall o :: o in now && o.hash == tx.hash && !(o in was && now[o].coin == was[o].coin) ==>
      Findable(tx, unspendable) && now[o].coin.height == height && !now[o].coin.isCoinBase
    ensures Known(now, tx, height, unspendable, db)
  {
    hide Findable, SpendsOthers;
  }

  lemma RedatedPart(stxos: seq<SpentTxOut>, n: nat, m: nat, height: int)
    requires n <= m <= |stxos|
    ensures Redated(stxos, height)[n..m] == Redated(stxos[n..m], height)
  {
  }

  lemma RedatedAt(stxos: seq<SpentTxOut>, n: nat, m: nat, height: int, i: nat)
    requires n <= m <= |stxos| && i < m - n
    ensures Redated(stxos[n..m], height)[i] == Redate(stxos[n + i], height)
  {
  }

  lemma FoundDate(entries: View, tx: BlockTx, height: int, utxo: Option<UtxoEntry>)
    requires Dates(entries, tx, height)
    requires (exists i :: 0 <= i < MAX_OUTPUTS_PER_BLOCK && At(tx, i) in entries) ==>
      exists i :: 0 <= i < MAX_OUTPUTS_PER_BLOCK && At(tx, i) in entries && utxo == Some(entries[At(tx, i)])
    ensures utxo.Some? && utxo.value.coin.height == height && !utxo.value.coin.isCoinBase
  {
  }

  lemma FoundNone(entries: View, tx: BlockTx)
    requires Absent(entries, tx.hash)
    ensures forall i :: 0 <= i < MAX_OUTPUTS_PER_BLOCK ==> At(tx, i) !in entries
  {
  }

  lemma DatesStay(entries: View, tx: BlockTx, height: int, db: Database, j: nat, e: UtxoEntry)
    requires j < |tx.body.inputs|
    ensures Dates(entries, tx, height) ==> Dates(entries[tx.body.inputs[j] := e], tx, height)
    ensures NoDate(entries, tx, db) ==> NoDate(entries[tx.body.inputs[j] := e], tx, db)
  {
  }

  lemma NoneChanged(was: View, spent: seq<OutPoint>, stxos: seq<SpentTxOut>)
    requires |spent| == |stxos|
    ensures GivenBack(was, was, spent, stxos)
  {
  }

  lemma GivenMore(was: View, now: View, spent: seq<OutPoint>, stxos: seq<SpentTxOut>, i: nat, e: UtxoEntry)
    requires |spent| == |stxos| && i < |spent| && e.coin == stxos[i] && GivenBack(was, now, spent, stxos)
    ensures GivenBack(was, now[spent[i] := e], spent, stxos)
  {
  }

  lemma NoneGiven(was: View, now: View, tx: BlockTx, none: seq<SpentTxOut>, height: int, unspendable: Unspendable)
    requires tx.isCoinBase && none == [] && CoinsFrom(was, now, Outs(tx, height, unspendable).Keys, height, true)
    ensures GivenOrMade(was, now, tx, none, height, unspendable)
  {
    hide Outs;
  }

  lemma GivenAfter(was: View, removed: View, now: View, tx: BlockTx, stxos: seq<SpentTxOut>, height: int, unspendable: Unspendable)
    requires |stxos| == |Ins(tx)| && CoinsFrom(was, removed, Outs(tx, height, unspendable).Keys, height, tx.isCoinBase)
    requires GivenBack(removed, now, Ins(tx), stxos)
    ensures GivenOrMade(was, now, tx, stxos, height, unspendable)
  {
    hide Ins, Outs;
  }

  /** Once the outputs of the transaction are removed its height is found, or known not to be. */
  lemma AfterRemoval(was: View, now: View, tx: BlockTx, height: int, unspendable: Unspendable, db: Database)
    requires Known(was, tx, height, unspendable, db) && !tx.isCoinBase
    requires CoinsFrom(was, now, Outs(tx, height, unspendable).Keys, height, false)
    requires forall i :: 0 <= i < |tx.outputs| && !unspendable(tx.outputs[i].script) ==> At(tx, i) in now
    ensures if Findable(tx, unspendable) then Dates(now, tx, height) else NoDate(now, tx, db)
  {
    hide At, Outs;
    forall o | o in Outs(tx, height, unspendable) ensures o.hash == tx.hash && Findable(tx, unspendable) {
      OwnFindable(tx, height, unspendable, o);
    }
  }

  lemma OwnFindable(tx: BlockTx, height: int, unspendable: Unspendable, o: OutPoint)
    requires o in Outs(tx, height, unspendable) && |tx.outputs| <= MAX_OUTPUTS_PER_BLOCK
    ensures o.hash == tx.hash && Findable(tx, unspendable)
  {
    OwnDated(tx, |tx.outputs|, height, unspendable, o);
    OwnOutputs(tx, |tx.outputs|, height, unspendable, o);
  }

  /** The inputs that are in the journal. */
  function Restorable(inputs: seq<OutPoint>, vdf: bool): (r: seq<OutPoint>) {
    if vdf then [] else Ordinary(inputs)
  }

  lemma RestorableStep(inputs: seq<OutPoint>, j: nat, vdf: bool)
    requires j < |inputs|
    ensures Restorable(inputs[..j + 1], vdf) ==
      if Sentinel(inputs[j]) || vdf then Restorable(inputs[..j], vdf) else Restorable(inputs[..j], vdf) + [inputs[j]]
  {
    hide Sentinel;
    assert inputs[..j + 1][..j] == inputs[..j];
  }

  lemma NoneRestorable(vdf: bool)
    ensures Restorable([], vdf) == []
  {
  }

  lemma NothingBack(u: Utxos, none: seq<SpentTxOut>)
    requires none == []
    ensures GiveBack(u, [], none) == u
  {
  }

  lemma SpentByOne(tx: Tx)
    requires tx.version != TX_VERSION_VDF_RESULT
    ensures SpentBy([tx]) == Spends(tx.inputs)
  {
    hide Spends;
    assert [tx][..0] == [];
    assert SpentBy([tx]) == SpentBy([]) + Spends(tx.inputs);
  }

  lemma {:induction false} BlockPrefix(u: Utxos, txs: seq<BlockTx>, i: nat, height: int, unspendable: Unspendable)
    requires i <= |txs| && BlockValid(u, txs, height, unspendable)
    ensures BlockValid(u, txs[..i], height, unspendable)
  {
    hide TxValid, ConnectAll;
    if i == |txs| {
      assert txs[..i] == txs;
    } else {
      BlockPrefix(u, txs[..|txs| - 1], i, height, unspendable);
      assert txs[..|txs| - 1][..i] == txs[..i];
    }
  }

  /** A valid transaction finds its inputs in the view, and the journal gets what was unspent. */
  lemma InputsThere(entries: View, tx: BlockTx, height: int, unspendable: Unspendable)
    requires TxValid(Unspent(entries), tx, height, unspendable)
    ensures forall i :: 0 <= i < |Ins(tx)| ==> Ins(tx)[i] in entries && Ins(tx)[i] in Unspent(entries)
    ensures Coins(entries, Ins(tx)) == Taken(Unspent(entries), Ins(tx))
  {
    hide Ins, Outs;
  }

  lemma GiveBackStep(u: Utxos, todo: seq<OutPoint>, o: OutPoint, stxos: seq<SpentTxOut>)
    requires |stxos| == |todo| + 1
    ensures GiveBack(u, todo + [o], stxos) == GiveBack(u[o := stxos[|todo|]], todo, stxos[..|todo|])
  {
    assert (todo + [o])[..|todo|] == todo;
  }

  lemma SpendEntry(entries: View, o: OutPoint, e: UtxoEntry)
    requires o in entries ==> e == entries[o]
    ensures Unspent(entries[o := Spend(e)]) == Unspent(entries) - {o}
  {
  }

  /** The outputs `done` have been spent in `entries`, which was `was`, and noted after `before`. */
  ghost predicate Spending(was: View, done: seq<OutPoint>, entries: View,
                           before: seq<SpentTxOut>, stxos: seq<SpentTxOut>)
  {
    && entries.Keys == was.Keys && (forall o :: o in was ==> entries[o].coin == was[o].coin)
    && (forall i :: 0 <= i < |done| ==> done[i] in was)
    && Unspent(entries) == Without(Unspent(was), done)
    && stxos == before + Coins(was, done)
  }

  lemma SpendingNone(was: View, before: seq<SpentTxOut>)
    ensures Spending(was, [], was, before, before)
  {
    assert Without(Unspent(was), []) == Unspent(was);
    assert before + Coins(was, []) == before;
  }

  lemma SpendingKeys(was: View, done: seq<OutPoint>, entries: View,
                     before: seq<SpentTxOut>, stxos: seq<SpentTxOut>)
    requires Spending(was, done, entries, before, stxos)
    ensures entries.Keys == was.Keys && forall o :: o in was ==> entries[o].coin == was[o].coin
  {
  }

  lemma SpendingAll(was: View, done: seq<OutPoint>, entries: View,
                    before: seq<SpentTxOut>, stxos: seq<SpentTxOut>)
    requires Spending(was, done, entries, before, stxos)
    ensures (forall i :: 0 <= i < |done| ==> done[i] in was)
    ensures Unspent(entries) == Without(Unspent(was), done) && stxos == before + Coins(was, done)
  {
  }

  lemma SpendingStep(was: View, done: seq<OutPoint>, entries: View,
                     before: seq<SpentTxOut>, stxos: seq<SpentTxOut>, o: OutPoint)
    requires Spending(was, done, entries, before, stxos) && o in entries
    ensures Spending(was, done + [o], entries[o := Spend(entries[o])], before, stxos + [entries[o].coin])
  {
    hide Unspent, Without;
    assert Coins(was, done + [o]) == Coins(was, done) + [was[o].coin];
    SpendOne(entries, o, Unspent(was), done);
  }

  lemma SetUnspent(entries: View, o: OutPoint, e: UtxoEntry)
    requires !e.spent
    ensures Unspent(entries[o := e]) == Unspent(entries)[o := e.coin]
  {
  }

  lemma SpendOne(entries: View, o: OutPoint, u: Utxos, done: seq<OutPoint>)
    requires o in entries && Unspent(entries) == Without(u, done)
    ensures Unspent(entries[o := Spend(entries[o])]) == Without(u, done + [o])
  {
    assert forall p :: p in done + [o] <==> p in done || p == o;
    assert Unspent(entries[o := Spend(entries[o])]) == Unspent(entries) - {o};
    assert Without(u, done) - {o} == Without(u, done + [o]);
  }

  /** An ordinary input is among the ordinary inputs. */
  lemma {:induction false} OrdinaryPart(inputs: seq<OutPoint>, j: nat)
    requires j < |inputs| && !Sentinel(inputs[j])
    ensures exists i :: 0 <= i < |Ordinary(inputs)| && Ordinary(inputs)[i] == inputs[j]
  {
    hide Sentinel;
    var front, last := inputs[..|inputs| - 1], inputs[|inputs| - 1];
    if j < |inputs| - 1 {
      OrdinaryPart(front, j);
      var i :| 0 <= i < |Ordinary(front)| && Ordinary(front)[i] == inputs[j];
      assert Ordinary(inputs)[i] == inputs[j];
    } else {
      assert Ordinary(inputs) == Ordinary(front) + [last];
      assert Ordinary(inputs)[|Ordinary(front)|] == last;
    }
  }

  // ---------------------------------------------------------------------------
  // There and back
  // ---------------------------------------------------------------------------

  /**
   The transactions are told apart by their hashes, are new to the view and do not spend from
   themselves; the database has nothing of one whose outputs cannot be spent.
   */
  ghost predicate NewToView(entries: View, txs: seq<BlockTx>, unspendable: Unspendable, db: Database) {
    && (forall k :: 0 <= k < |txs| ==> Absent(entries, txs[k].hash)) && DistinctHashes(txs)
    && (forall k :: 0 <= k < |txs| ==> SpendsOthers(txs[k]) && |txs[k].outputs| <= MAX_OUTPUTS_PER_BLOCK)
    && (forall k :: 0 <= k < |txs| && !Findable(txs[k], unspendable) ==> db(txs[k].hash).None?)
  }

  lemma {:induction false} ValidCoinbase(u: Utxos, txs: seq<BlockTx>, height: int, unspendable: Unspendable)
    requires BlockValid(u, txs, height, unspendable)
    ensures CoinbaseFirst(txs)
  {
    hide TxValid, ConnectAll;
    if txs != [] {
      var front := txs[..|txs| - 1];
      ValidCoinbase(u, front, height, unspendable);
      assert forall i :: 0 <= i < |front| ==> txs[i] == front[i];
    }
  }

  /** The entries of a journal for outputs that the block itself made say so. */
  lemma {:induction false} JournalFits(u: Utxos, txs: seq<BlockTx>, all: seq<BlockTx>, height: int, unspendable: Unspendable, i: nat, k: nat)
    requires BlockValid(u, txs, height, unspendable) && txs <= all && CoinbaseFirst(all) && DistinctHashes(all)
    requires 0 < k < |all| && |all[k].outputs| <= MAX_OUTPUTS_PER_BLOCK && forall o :: o in u ==> o.hash != all[k].hash
    requires i < |AllIns(txs)| && AllIns(txs)[i].hash == all[k].hash
    ensures |Journal(u, txs, height, unspendable)| == |AllIns(txs)| && Findable(all[k], unspendable)
    ensures var coin := Journal(u, txs, height, unspendable)[i]; coin.height == height && !coin.isCoinBase
  {
    hide ConnectTx, Ins, Outs, ConnectAll, TxValid, CoinbaseFirst, DistinctHashes, Findable;
    JournalSize(u, txs, height, unspendable);
    InsSize(txs);
    if txs != [] {
      var front, tx := txs[..|txs| - 1], txs[|txs| - 1];
      JournalSize(u, front, height, unspendable);
      InsSize(front);
      if i < |AllIns(front)| {
        JournalFits(u, front, all, height, unspendable, i, k);
      } else {
        var before, j := ConnectAll(u, front, height, unspendable), i - |AllIns(front)|;
        assert Ins(tx)[j] in before by { ValidIns(before, tx, height, unspendable, j); }
        assert Journal(u, txs, height, unspendable)[i] == before[Ins(tx)[j]];
        WhereFrom(u, front, height, unspendable, Ins(tx)[j]);
        MadeByPrefix(front, all, Ins(tx)[j], before[Ins(tx)[j]], height, unspendable);
        MadeOnce(all, Ins(tx)[j], before[Ins(tx)[j]], height, unspendable, k);
      }
    }
  }

  lemma ValidIns(u: Utxos, tx: BlockTx, height: int, unspendable: Unspendable, j: nat)
    requires TxValid(u, tx, height, unspendable) && j < |Ins(tx)|
    ensures Ins(tx)[j] in u
  {
  }

  /** A coin that the block made and that belongs to transaction `k` was made by that one. */
  lemma MadeOnce(txs: seq<BlockTx>, o: OutPoint, coin: SpentTxOut, height: int, unspendable: Unspendable, k: nat)
    requires MadeBy(txs, o, coin, height, unspendable) && DistinctHashes(txs) && CoinbaseFirst(txs)
    requires 0 < k < |txs| && o.hash == txs[k].hash && |txs[k].outputs| <= MAX_OUTPUTS_PER_BLOCK
    ensures Findable(txs[k], unspendable) && coin.height == height && !coin.isCoinBase
  {
    hide Outs, Findable;
    var j :| 0 <= j < |txs| && o in Outs(txs[j], height, unspendable) && coin.height == height && coin.isCoinBase == txs[j].isCoinBase;
    OwnHash(txs[j], height, unspendable, o);
    assert j == k;
    OwnFindable(txs[k], height, unspendable, o);
  }

  lemma OwnHash(tx: BlockTx, height: int, unspendable: Unspendable, o: OutPoint)
    requires o in Outs(tx, height, unspendable)
    ensures o.hash == tx.hash
  {
    OwnDated(tx, |tx.outputs|, height, unspendable, o);
  }

  lemma ConnectedKnown(was: View, now: View, txs: seq<BlockTx>, kept: seq<SpentTxOut>, height: int, unspendable: Unspendable, db: Database)
    requires BlockValid(Unspent(was), txs, height, unspendable) && NewToView(was, txs, unspendable, db)
    requires Erased(Journal(Unspent(was), txs, height, unspendable), kept)
    requires forall o :: o in now && !(o in was && now[o].coin == was[o].coin) ==> MadeBy(txs, o, now[o].coin, height, unspendable)
    ensures BlockKnown(now, txs, kept, height, unspendable, db)
  {
    hide BlockValid, Ins, AllIns, Journal, Findable, SpendsOthers, MadeBy, DistinctHashes, CoinbaseFirst;
    ValidCoinbase(Unspent(was), txs, height, unspendable);
    JournalSize(Unspent(was), txs, height, unspendable);
    InsSize(txs);
    forall k | 0 < k < |txs| ensures Known(now, txs[k], height, unspendable, db) {
      forall o | o in now && o.hash == txs[k].hash
        ensures Findable(txs[k], unspendable) && now[o].coin.height == height && !now[o].coin.isCoinBase
      {
        MadeOnce(txs, o, now[o].coin, height, unspendable, k);
      }
    }
    forall i, k | 0 <= i < |kept| && 0 < k < |txs| && AllIns(txs)[i].hash == txs[k].hash
      ensures Findable(txs[k], unspendable) && (kept[i].height == 0 || (kept[i].height == height && !kept[i].isCoinBase))
    {
      JournalFits(Unspent(was), txs, txs, height, unspendable, i, k);
    }
  }

  /**
   Connects a valid block and takes it back with the journal this left, or with what an old format
   kept of it.  This fails exactly if a height is missing for a transaction without an output
   that can be spent; and the unspent outputs are as before exactly if what is filled in is right.
   */
  method ConnectThenDisconnect(view: UtxoViewpoint, txs: seq<BlockTx>, kept: seq<SpentTxOut>, height: int, unspendable: Unspendable, db: Database)
    returns (ok: bool)
    requires BlockValid(Unspent(view.entries), txs, height, unspendable)
    requires Erased(Journal(Unspent(view.entries), txs, height, unspendable), kept)
    modifies view
    ensures |kept| == |AllIns(txs)| == Spent(txs)
    ensures AllDated(kept) || NewToView(old(view.entries), txs, unspendable, db) ==>
      && (ok <==> Datable(txs, kept, unspendable))
      && (ok ==>
            (Unspent(view.entries) == old(Unspent(view.entries)) <==> Guessed(old(Unspent(view.entries)), AllIns(txs), kept, height)))
  {
    hide BlockValid, Journal, ConnectAll, DisconnectAll, Unspent, AllDated, Redated, BlockKnown, NewToView, Ins, MadeBy, Guessed, AllIns, Erased, Datable;
    ghost var was, u := view.entries, Unspent(view.entries);
    ValidCoinbase(u, txs, height, unspendable);
    RedatedUndone(u, txs, kept, height, unspendable);
    var connected, stxos := view.ConnectTransactions(txs, height, unspendable);
    if NewToView(was, txs, unspendable, db) {
      ConnectedKnown(was, view.entries, txs, kept, height, unspendable, db);
    }
    ok := view.DisconnectTransactions(txs, kept, height, unspendable, db);
  }
}
