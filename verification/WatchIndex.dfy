/** Which clients watch which outpoints and addresses, kept both by key and by client. */
module WatchIndex {
  import opened ChainTypes

  type Client = nat

  /** Watched keys (outpoints or addresses) with their clients, and clients with the keys they asked for. */
  datatype Watch<K(!new, ==)> = Watch(clients: map<K, set<Client>>, requests: map<Client, set<K>>)
  {
    predicate Watches(c: Client, k: K) {
      k in clients && c in clients[k]
    }

    function Requests(c: Client): (keys: set<K>) {
      if c in requests then requests[c] else {}
    }

    /** The two directions agree, and no watched key is without a client. */
    ghost predicate Valid() {
      && (forall c, k :: Watches(c, k) <==> k in Requests(c))
      && (forall k :: k in clients ==> clients[k] != {})
    }
  }

  function Add<K(!new, ==)>(w: Watch<K>, c: Client, k: K): (r: Watch<K>) {
    Watch(w.clients[k := (if k in w.clients then w.clients[k] else {}) + {c}], w.requests[c := w.Requests(c) + {k}])
  }

  function Remove<K(!new, ==)>(w: Watch<K>, c: Client, k: K): (r: Watch<K>) {
    var requests := w.requests[c := w.Requests(c) - {k}];
    if k !in w.clients then Watch(w.clients, requests)
    else
      var left := w.clients[k] - {c};
      Watch(if left == {} then w.clients - {k} else w.clients[k := left], requests)
  }

  /** `r` watches what `w` does and also the pairs that `more` adds. */
  ghost predicate Extends<K(!new)>(w: Watch<K>, r: Watch<K>, more: (Client, K) -> bool) {
    r.Valid() && forall c, k :: r.Watches(c, k) <==> w.Watches(c, k) || more(c, k)
  }

  /** `r` watches what `w` does except the pairs that `less` takes away. */
  ghost predicate Shrinks<K(!new)>(w: Watch<K>, r: Watch<K>, less: (Client, K) -> bool) {
    r.Valid() && forall c, k :: r.Watches(c, k) <==> w.Watches(c, k) && !less(c, k)
  }

  lemma AddValid<K(!new)>(w: Watch<K>, c: Client, k: K)
    requires w.Valid()
    ensures Add(w, c, k).Valid()
    ensures forall d, j :: Add(w, c, k).Watches(d, j) <==> w.Watches(d, j) || (d == c && j == k)
  {
    var r := Add(w, c, k);
    forall d, j ensures r.Watches(d, j) <==> j in r.Requests(d) {
      assert w.Watches(d, j) <==> j in w.Requests(d);
    }
  }

  lemma RemoveWatches<K(!new)>(w: Watch<K>, c: Client, k: K, d: Client, j: K)
    ensures Remove(w, c, k).Watches(d, j) <==> w.Watches(d, j) && !(d == c && j == k)
  {
    if k in w.clients && w.clients[k] - {c} == {} {
      assert d != c ==> d !in w.clients[k] - {c};
    }
  }

  lemma RemoveValid<K(!new)>(w: Watch<K>, c: Client, k: K)
    requires w.Valid()
    ensures Remove(w, c, k).Valid()
    ensures forall d, j :: Remove(w, c, k).Watches(d, j) <==> w.Watches(d, j) && !(d == c && j == k)
  {
    var r := Remove(w, c, k);
    forall d, j ensures r.Watches(d, j) <==> w.Watches(d, j) && !(d == c && j == k) {
      RemoveWatches(w, c, k, d, j);
    }
    forall d, j ensures r.Watches(d, j) <==> j in r.Requests(d) {
      assert w.Watches(d, j) <==> j in w.Requests(d);
    }
  }

  /** One key per output or input, with the addresses an output pays to. */
  datatype Output<K, A> = Output(key: K, addrs: seq<A>)

  /** The output pays to an address that the client watches. */
  ghost predicate PaysTo<K, A(!new)>(addrs: Watch<A>, out: Output<K, A>, c: Client) {
    exists a :: a in out.addrs && addrs.Watches(c, a)
  }

  ghost predicate Paid<K(!new), A(!new)>(addrs: Watch<A>, outs: seq<Output<K, A>>, c: Client, k: K) {
    exists i :: 0 <= i < |outs| && outs[i].key == k && PaysTo(addrs, outs[i], c)
  }

  /** A transaction that waits in the pool, and the pool by the outpoints that its transactions spend. */
  datatype PoolTx<K> = PoolTx(id: nat, inputs: seq<K>)
  type Pool<!K> = K -> Option<PoolTx<K>>

  /** An outpoint leads to the transaction that spends it, and transactions are told apart by their ids. */
  ghost predicate PoolOk<K(!new)>(pool: Pool<K>) {
    && (forall k :: pool(k).Some? ==> k in pool(k).value.inputs)
    && (forall k, j :: pool(k).Some? && j in pool(k).value.inputs ==> pool(j) == pool(k))
    && (forall k, j :: pool(k).Some? && pool(j).Some? && pool(k).value.id == pool(j).value.id ==> pool(k) == pool(j))
  }

  /** A client is told that a transaction in the pool spends an outpoint it watches. */
  datatype Told = Told(tx: nat, client: Client)

  /** The pool spends `k` in transaction `t`, of which the client watches some input. */
  ghost predicate Hears<K(!new)>(w: Watch<K>, pool: Pool<K>, k: K, t: Told) {
    && pool(k).Some? && pool(k).value.id == t.tx
    && exists i :: 0 <= i < |pool(k).value.inputs| && w.Watches(t.client, pool(k).value.inputs[i])
  }

  predicate NoRepeats<T(==)>(s: seq<T>) {
    forall i, j :: 0 <= i < j < |s| ==> s[i] != s[j]
  }

  class Manager<K(!new, ==), A(!new, ==)> {
    var spent: Watch<K>
    var addrs: Watch<A>
    var blockNtfns: set<Client>
    var txNtfns: set<Client>
    var clients: set<Client>

    ghost predicate Valid()
      reads this
    {
      spent.Valid() && addrs.Valid()
    }

    constructor ()
      ensures Valid() && (forall c, k :: !spent.Watches(c, k)) && (forall c, a :: !addrs.Watches(c, a))
    {
      spent, addrs := Watch(map[], map[]), Watch(map[], map[]);
      blockNtfns, txNtfns, clients := {}, {}, {};
    }

    /**
     `addSpentRequests`: the client watches each of the outpoints, and whoever watches an input
     of a pool transaction that spends one of them is told of it.
     */
    method AddSpentRequests(c: Client, ops: seq<K>, pool: Pool<K>) returns (told: seq<Told>)
      requires Valid() && PoolOk(pool)
      modifies this`spent
      ensures Valid() && Extends(old(spent), spent, (d, k) => d == c && k in ops)
      ensures NoRepeats(told) && forall t :: t in told <==> exists i :: 0 <= i < |ops| && Hears(spent, pool, ops[i], t)
    {
      hide PoolOk, Hears;
      for i := 0 to |ops|
        invariant Valid() && Extends(old(spent), spent, (d, k) => d == c && k in ops[..i])
      {
        AddValid(spent, c, ops[i]);
        assert forall k :: k in ops[..i + 1] <==> k in ops[..i] || k == ops[i];
        spent := Add(spent, c, ops[i]);
      }
      assert ops[..|ops|] == ops;
      told := TellOfPool(ops, pool);
    }

    /** Collects the pool transactions that spend the outpoints, and tells each watching client once of each. */
    method TellOfPool(ops: seq<K>, pool: Pool<K>) returns (told: seq<Told>)
      requires Valid() && PoolOk(pool)
      modifies this`spent
      ensures spent == old(spent)
      ensures NoRepeats(told) && forall t :: t in told <==> exists i :: 0 <= i < |ops| && Hears(spent, pool, ops[i], t)
    {
      hide PoolOk, Hears, Watch.Valid;
      var spends: map<nat, PoolTx<K>> := map[];
      for i := 0 to |ops|
        invariant Collected(ops[..i], pool, spends) && spent == old(spent) && Valid()
      {
        assert ops[..i + 1][..i] == ops[..i];
        CollectMore(ops[..i + 1], pool, spends);
        var spend := pool(ops[i]);
        if spend.Some? {
          spends := spends[spend.value.id := spend.value];
        }
      }
      assert ops[..|ops|] == ops;
      told := [];
      var todo := spends.Keys;
      while todo != {}
        invariant todo <= spends.Keys && Valid() && spent == old(spent)
        invariant NoRepeats(told) && forall t :: t in told <==> t.tx in spends && t.tx !in todo && WatchesAny(spent, spends[t.tx].inputs, t.client)
        decreases |todo|
      {
        var id :| id in todo;
        todo := todo - {id};
        var notified := NotifyForTxIns(spends[id].inputs, false);
        TellMore(told, id, notified);
        told := told + seq(|notified|, i requires 0 <= i < |notified| => Told(id, notified[i]));
      }
      CollectedHear(spent, ops, pool, spends, told);
    }

    method AddAddrRequests(c: Client, more: seq<A>)
      requires Valid()
      modifies this`addrs
      ensures Valid() && Extends(old(addrs), addrs, (d, a) => d == c && a in more)
    {
      for i := 0 to |more|
        invariant Valid() && Extends(old(addrs), addrs, (d, a) => d == c && a in more[..i])
      {
        AddValid(addrs, c, more[i]);
        assert forall a :: a in more[..i + 1] <==> a in more[..i] || a == more[i];
        addrs := Add(addrs, c, more[i]);
      }
      assert more[..|more|] == more;
    }

    method RemoveSpentRequest(c: Client, op: K)
      requires Valid()
      modifies this`spent
      ensures Valid() && spent == Remove(old(spent), c, op)
    {
      RemoveValid(spent, c, op);
      spent := Remove(spent, c, op);
    }

    method RemoveAddrRequest(c: Client, a: A)
      requires Valid()
      modifies this`addrs
      ensures Valid() && addrs == Remove(old(addrs), c, a)
    {
      RemoveValid(addrs, c, a);
      addrs := Remove(addrs, c, a);
    }

    /** A client leaves: every request it made is taken back, by way of its own lists. */
    method UnregisterClient(c: Client)
      requires Valid()
      modifies this
      ensures Valid()
      ensures Shrinks(old(spent), spent, (d, k) => d == c) && Shrinks(old(addrs), addrs, (d, a) => d == c)
      ensures spent.Requests(c) == {} && addrs.Requests(c) == {}
      ensures clients == old(clients) - {c} && blockNtfns == old(blockNtfns) - {c} && txNtfns == old(txNtfns) - {c}
    {
      blockNtfns := blockNtfns - {c};
      txNtfns := txNtfns - {c};
      RemoveAllSpent(c);
      RemoveAllAddrs(c);
      clients := clients - {c};
    }

    method RemoveAllSpent(c: Client)
      requires Valid()
      modifies this`spent
      ensures Valid() && Shrinks(old(spent), spent, (d, k) => d == c) && spent.Requests(c) == {}
    {
      ghost var was := spent;
      while spent.Requests(c) != {}
        invariant Valid()
        invariant forall d, k :: spent.Watches(d, k) ==> was.Watches(d, k)
        invariant forall d, k :: d != c ==> (spent.Watches(d, k) <==> was.Watches(d, k))
        decreases spent.Requests(c)
      {
        var op :| op in spent.Requests(c);
        RemoveValid(spent, c, op);
        spent := Remove(spent, c, op);
      }
    }

    method RemoveAllAddrs(c: Client)
      requires Valid()
      modifies this`addrs
      ensures Valid() && Shrinks(old(addrs), addrs, (d, a) => d == c) && addrs.Requests(c) == {}
    {
      ghost var was := addrs;
      while addrs.Requests(c) != {}
        invariant Valid()
        invariant forall d, a :: addrs.Watches(d, a) ==> was.Watches(d, a)
        invariant forall d, a :: d != c ==> (addrs.Watches(d, a) <==> was.Watches(d, a))
        decreases addrs.Requests(c)
      {
        var a :| a in addrs.Requests(c);
        RemoveValid(addrs, c, a);
        addrs := Remove(addrs, c, a);
      }
    }

    /**
     A transaction spends some outpoints: every client watching one of them is notified once, and
     when the transaction is in a block the outpoints are no longer watched.
     */
    method NotifyForTxIns(inputs: seq<K>, inBlock: bool) returns (notified: seq<Client>)
      requires Valid()
      modifies this`spent
      ensures Valid() && NoRepeats(notified)
      ensures forall c :: c in notified <==> exists i :: 0 <= i < |inputs| && old(spent).Watches(c, inputs[i])
      ensures if inBlock then Shrinks(old(spent), spent, (c, k) => k in inputs) else spent == old(spent)
    {
      ghost var was := spent;
      notified := [];
      for i := 0 to |inputs|
        invariant Valid() && NoRepeats(notified)
        invariant forall c :: c in notified <==> exists j :: 0 <= j < i && was.Watches(c, inputs[j])
        invariant if inBlock then Shrinks(was, spent, (c, k) => k in inputs[..i]) else spent == was
      {
        assert forall k :: k in inputs[..i + 1] <==> k in inputs[..i] || k == inputs[i];
        notified := NotifyForTxIn(inputs[i], inBlock, notified);
      }
      assert inputs[..|inputs|] == inputs;
    }

    method NotifyForTxIn(op: K, inBlock: bool, before: seq<Client>) returns (notified: seq<Client>)
      requires Valid() && NoRepeats(before)
      modifies this`spent
      ensures Valid() && NoRepeats(notified)
      ensures forall c :: c in notified <==> c in before || old(spent).Watches(c, op)
      ensures if inBlock then Shrinks(old(spent), spent, (c, k) => k == op) else spent == old(spent)
    {
      notified := before;
      if op !in spent.clients {
        return;
      }
      ghost var was := spent;
      var todo := spent.clients[op];
      while todo != {}
        invariant Valid() && NoRepeats(notified) && todo <= was.clients[op]
        invariant forall c :: c in notified <==> c in before || (c in was.clients[op] && c !in todo)
        invariant if inBlock then Shrinks(was, spent, (c, k) => k == op && c !in todo) else spent == was
        decreases |todo|
      {
        var c :| c in todo;
        todo := todo - {c};
        if inBlock {
          RemoveValid(spent, c, op);
          spent := Remove(spent, c, op);
        }
        if c !in notified {
          notified := notified + [c];
        }
      }
    }

    /**
     A transaction pays to some addresses: every client watching one of them is notified once, and
     from then on watches the outputs that paid it.  Of every pool transaction that spends such an
     output all clients hear that watch one of its inputs by then.
     */
    method NotifyForTxOuts(outs: seq<Output<K, A>>, pool: Pool<K>) returns (notified: seq<Client>, told: seq<Told>)
      requires Valid() && PoolOk(pool)
      modifies this`spent
      ensures Valid() && NoRepeats(notified)
      ensures forall c :: c in notified <==> exists i :: 0 <= i < |outs| && PaysTo(addrs, outs[i], c)
      ensures forall c, k :: spent.Watches(c, k) <==> old(spent).Watches(c, k) || Paid(addrs, outs, c, k)
      ensures forall t :: t in told <==> exists i :: 0 <= i < |outs| && PaysSome(addrs, outs[i]) && Hears(spent, pool, outs[i].key, t)
    {
      hide PaysTo, PaysSome, PoolOk, Hears;
      ghost var was := spent;
      notified, told := [], [];
      for i := 0 to |outs|
        invariant Valid() && NoRepeats(notified)
        invariant forall c :: c in notified <==> exists j :: 0 <= j < i && PaysTo(addrs, outs[j], c)
        invariant forall c, k :: spent.Watches(c, k) <==> was.Watches(c, k) || Paid(addrs, outs[..i], c, k)
        invariant forall t :: t in told <==> exists j :: 0 <= j < i && PaysSome(addrs, outs[j]) && Hears(spent, pool, outs[j].key, t)
      {
        PaidStep(addrs, outs, i);
        ghost var before, had := spent, told;
        var more: seq<Told>;
        notified, more := NotifyForTxOut(outs[i], notified, pool);
        told := told + more;
        HearMore(before, spent, addrs, outs, i, pool, had, told);
      }
      assert outs[..|outs|] == outs;
    }

    method NotifyForTxOut(out: Output<K, A>, before: seq<Client>, pool: Pool<K>) returns (notified: seq<Client>, told: seq<Told>)
      requires Valid() && NoRepeats(before) && PoolOk(pool)
      modifies this`spent
      ensures Valid() && NoRepeats(notified)
      ensures forall c :: c in notified <==> c in before || PaysTo(addrs, out, c)
      ensures forall c, k :: spent.Watches(c, k) <==> old(spent).Watches(c, k) || (k == out.key && PaysTo(addrs, out, c))
      ensures forall t :: t in told <==> PaysSome(addrs, out) && Hears(spent, pool, out.key, t)
    {
      hide PaysTo, PaysSome, PoolOk, Hears;
      ghost var was := spent;
      notified, told := before, [];
      PaysNone(addrs, Output(out.key, out.addrs[..0]));
      for j := 0 to |out.addrs|
        invariant Valid() && NoRepeats(notified)
        invariant forall c :: c in notified <==> c in before || PaysTo(addrs, Output(out.key, out.addrs[..j]), c)
        invariant forall c, k :: spent.Watches(c, k) <==>
          was.Watches(c, k) || (k == out.key && PaysTo(addrs, Output(out.key, out.addrs[..j]), c))
        invariant forall t :: t in told <==> PaysSome(addrs, Output(out.key, out.addrs[..j])) && Hears(spent, pool, out.key, t)
      {
        PaysToStep(addrs, out, j);
        PaysSomeStep(addrs, out, j);
        if out.addrs[j] in addrs.clients {
          ghost var had := spent;
          var more: seq<Told>;
          notified, more := NotifyAll(addrs.clients[out.addrs[j]], out.key, notified, pool);
          HearGrows(had, spent, pool, out.key);
          told := told + more;
        }
      }
      assert Output(out.key, out.addrs[..|out.addrs|]) == out;
    }

    method NotifyAll(cs: set<Client>, op: K, before: seq<Client>, pool: Pool<K>) returns (notified: seq<Client>, told: seq<Told>)
      requires Valid() && NoRepeats(before) && PoolOk(pool)
      modifies this`spent
      ensures Valid() && NoRepeats(notified)
      ensures forall c :: c in notified <==> c in before || c in cs
      ensures forall c, k :: spent.Watches(c, k) <==> old(spent).Watches(c, k) || (k == op && c in cs)
      ensures forall t :: t in told <==> cs != {} && Hears(spent, pool, op, t)
    {
      hide PoolOk, Hears;
      ghost var was := spent;
      notified, told := before, [];
      var todo := cs;
      while todo != {}
        invariant Valid() && NoRepeats(notified) && todo <= cs
        invariant forall c :: c in notified <==> c in before || (c in cs && c !in todo)
        invariant forall c, k :: spent.Watches(c, k) <==> was.Watches(c, k) || (k == op && c in cs && c !in todo)
        invariant forall t :: t in told <==> cs != todo && Hears(spent, pool, op, t)
        decreases |todo|
      {
        var c :| c in todo;
        todo := todo - {c};
        ghost var had := spent;
        var more := AddSpentRequests(c, [op], pool);
        assert forall t :: t in more <==> Hears(spent, pool, [op][0], t);
        HearGrows(had, spent, pool, op);
        told := told + more;
        if c !in notified {
          notified := notified + [c];
        }
      }
    }
  }

  // ---------------------------------------------------------------------------
  // Transactions in the pool
  // ---------------------------------------------------------------------------

  ghost predicate WatchesAny<K(!new)>(w: Watch<K>, keys: seq<K>, c: Client) {
    exists i :: 0 <= i < |keys| && w.Watches(c, keys[i])
  }

  ghost predicate PaysSome<K, A(!new)>(addrs: Watch<A>, out: Output<K, A>) {
    exists c :: PaysTo(addrs, out, c)
  }

  /** `spends` are the pool transactions that spend the outpoints. */
  ghost predicate Collected<K(!new)>(ops: seq<K>, pool: Pool<K>, spends: map<nat, PoolTx<K>>) {
    && (forall id :: id in spends ==> exists i :: 0 <= i < |ops| && pool(ops[i]) == Some(spends[id]) && spends[id].id == id)
    && (forall i :: 0 <= i < |ops| && pool(ops[i]).Some? ==> pool(ops[i]).value.id in spends)
  }

  lemma CollectMore<K(!new)>(ops: seq<K>, pool: Pool<K>, spends: map<nat, PoolTx<K>>)
    requires ops != [] && Collected(ops[..|ops| - 1], pool, spends)
    ensures var spend := pool(ops[|ops| - 1]);
      Collected(ops, pool, if spend.Some? then spends[spend.value.id := spend.value] else spends)
  {
    var front := ops[..|ops| - 1];
    assert forall i :: 0 <= i < |front| ==> front[i] == ops[i];
  }

  lemma TellMore(told: seq<Told>, id: nat, notified: seq<Client>)
    requires NoRepeats(told) && NoRepeats(notified) && forall t :: t in told ==> t.tx != id
    ensures var more := seq(|notified|, i requires 0 <= i < |notified| => Told(id, notified[i]));
      NoRepeats(told + more) && forall t :: t in told + more <==> t in told || (t.tx == id && t.client in notified)
  {
    var more := seq(|notified|, i requires 0 <= i < |notified| => Told(id, notified[i]));
    forall t ensures t in more <==> t.tx == id && t.client in notified {
      if t.tx == id && t.client in notified {
        var i :| 0 <= i < |notified| && notified[i] == t.client;
        assert more[i] == t;
      }
    }
  }

  lemma CollectedHear<K(!new)>(w: Watch<K>, ops: seq<K>, pool: Pool<K>, spends: map<nat, PoolTx<K>>, told: seq<Told>)
    requires PoolOk(pool) && Collected(ops, pool, spends)
    requires forall t :: t in told <==> t.tx in spends && WatchesAny(w, spends[t.tx].inputs, t.client)
    ensures forall t :: t in told <==> exists i :: 0 <= i < |ops| && Hears(w, pool, ops[i], t)
  {
    forall t ensures t in told <==> exists i :: 0 <= i < |ops| && Hears(w, pool, ops[i], t) {
      if t in told {
        var i :| 0 <= i < |ops| && pool(ops[i]) == Some(spends[t.tx]) && spends[t.tx].id == t.tx;
        assert Hears(w, pool, ops[i], t);
      }
      if i :| 0 <= i < |ops| && Hears(w, pool, ops[i], t) {
        var j :| 0 <= j < |ops| && pool(ops[j]) == Some(spends[t.tx]) && spends[t.tx].id == t.tx;
        assert pool(ops[i]) == pool(ops[j]);
      }
    }
  }

  /** Who watches more hears more. */
  lemma HearGrows<K(!new)>(w: Watch<K>, w': Watch<K>, pool: Pool<K>, k: K)
    requires forall c, j :: w.Watches(c, j) ==> w'.Watches(c, j)
    ensures forall t :: Hears(w, pool, k, t) ==> Hears(w', pool, k, t)
  {
    forall t | Hears(w, pool, k, t) ensures Hears(w', pool, k, t) {
      var i :| 0 <= i < |pool(k).value.inputs| && w.Watches(t.client, pool(k).value.inputs[i]);
      assert w'.Watches(t.client, pool(k).value.inputs[i]);
    }
  }

  lemma PaysNone<K, A(!new)>(addrs: Watch<A>, out: Output<K, A>)
    requires out.addrs == []
    ensures !PaysSome(addrs, out) && forall c :: !PaysTo(addrs, out, c)
  {
  }

  lemma PaysSomeStep<K(!new), A(!new)>(addrs: Watch<A>, out: Output<K, A>, j: nat)
    requires addrs.Valid() && j < |out.addrs|
    ensures PaysSome(addrs, Output(out.key, out.addrs[..j + 1])) <==>
      PaysSome(addrs, Output(out.key, out.addrs[..j])) || out.addrs[j] in addrs.clients
  {
    hide PaysTo;
    PaysToStep(addrs, out, j);
    var front, more := Output(out.key, out.addrs[..j]), Output(out.key, out.addrs[..j + 1]);
    if out.addrs[j] in addrs.clients {
      var c :| c in addrs.clients[out.addrs[j]];
      assert PaysTo(addrs, more, c);
    }
    if c :| PaysTo(addrs, front, c) {
      assert PaysTo(addrs, more, c);
    } else if c :| PaysTo(addrs, more, c) {
      assert !PaysTo(addrs, front, c);
    }
  }

  /** A client that comes to watch an output hears of the pool transaction that spends it through that output. */
  lemma HearMore<K(!new), A(!new)>(w: Watch<K>, w': Watch<K>, addrs: Watch<A>, outs: seq<Output<K, A>>, i: nat, pool: Pool<K>,
                                   had: seq<Told>, told: seq<Told>)
    requires PoolOk(pool) && i < |outs|
    requires forall c, k :: w'.Watches(c, k) <==> w.Watches(c, k) || (k == outs[i].key && PaysTo(addrs, outs[i], c))
    requires forall t :: t in had <==> exists j :: 0 <= j < i && PaysSome(addrs, outs[j]) && Hears(w, pool, outs[j].key, t)
    requires forall t :: t in told <==> t in had || (PaysSome(addrs, outs[i]) && Hears(w', pool, outs[i].key, t))
    ensures forall t :: t in told <==> exists j :: 0 <= j < i + 1 && PaysSome(addrs, outs[j]) && Hears(w', pool, outs[j].key, t)
  {
    hide PaysTo;
    forall t ensures t in told <==> exists j :: 0 <= j < i + 1 && PaysSome(addrs, outs[j]) && Hears(w', pool, outs[j].key, t) {
      if t in had {
        var j :| 0 <= j < i && PaysSome(addrs, outs[j]) && Hears(w, pool, outs[j].key, t);
        HearGrows(w, w', pool, outs[j].key);
      }
      if j :| 0 <= j < i && PaysSome(addrs, outs[j]) && Hears(w', pool, outs[j].key, t) && !Hears(w, pool, outs[j].key, t) {
        var inputs := pool(outs[j].key).value.inputs;
        var n :| 0 <= n < |inputs| && w'.Watches(t.client, inputs[n]);
        assert !w.Watches(t.client, inputs[n]);
        assert pool(outs[i].key) == pool(outs[j].key);
        assert Hears(w', pool, outs[i].key, t);
      }
    }
  }

  lemma PaidStep<K(!new), A(!new)>(addrs: Watch<A>, outs: seq<Output<K, A>>, i: nat)
    requires i < |outs|
    ensures forall c, k :: Paid(addrs, outs[..i + 1], c, k) <==> Paid(addrs, outs[..i], c, k) || (k == outs[i].key && PaysTo(addrs, outs[i], c))
  {
    hide PaysTo;
    forall c, k ensures Paid(addrs, outs[..i + 1], c, k) <==> Paid(addrs, outs[..i], c, k) || (k == outs[i].key && PaysTo(addrs, outs[i], c)) {
      if Paid(addrs, outs[..i], c, k) {
        var j :| 0 <= j < i && outs[..i][j].key == k && PaysTo(addrs, outs[..i][j], c);
        assert outs[..i + 1][j] == outs[..i][j];
      }
      if k == outs[i].key && PaysTo(addrs, outs[i], c) {
        assert outs[..i + 1][i] == outs[i];
      }
    }
  }

  lemma PaysToStep<K(!new), A(!new)>(addrs: Watch<A>, out: Output<K, A>, j: nat)
    requires j < |out.addrs|
    ensures forall c :: PaysTo(addrs, Output(out.key, out.addrs[..j + 1]), c) <==>
      PaysTo(addrs, Output(out.key, out.addrs[..j]), c) || (out.addrs[j] in addrs.clients && c in addrs.clients[out.addrs[j]])
  {
    var front, more := Output(out.key, out.addrs[..j]), Output(out.key, out.addrs[..j + 1]);
    assert forall a :: a in more.addrs <==> a in front.addrs || a == out.addrs[j];
    forall c ensures PaysTo(addrs, more, c) <==> PaysTo(addrs, front, c) || addrs.Watches(c, out.addrs[j]) {
      if PaysTo(addrs, front, c) {
        var a :| a in front.addrs && addrs.Watches(c, a);
        assert a in more.addrs;
      }
      assert out.addrs[j] in more.addrs;
    }
  }
}
