/** The life of peers as a state machine: connections, their event queue and the server's peer maps. */
module PeerNet {
  type Ref = nat
  datatype Group = Group(text: string)

  /**
   One connection. `decided`, `sentAdd` and `sentDone` say how far its lifecycle goroutine is;
   `handledAdd` and `handledDone` record which of its events the server has handled, `kicked`
   whether a query removed it, and the two call counts how often the sync manager was told that
   the peer is new, and that it is gone.
   */
  datatype Peer = Peer(inbound: bool, persistent: bool, group: Group, id: nat, versionKnown: bool, verAck: bool,
                       connected: bool, decided: bool, sentAdd: bool, sentDone: bool, handledAdd: bool,
                       handledDone: bool, added: bool, kicked: bool, newCalls: nat, doneCalls: nat)
  {
    ghost predicate Ok() {
      && (id > 0 <==> versionKnown) && (verAck ==> versionKnown) && (inbound ==> !persistent)
      && (sentAdd ==> verAck && decided) && (sentDone ==> decided && !connected)
      && (handledAdd ==> sentAdd) && (handledDone ==> sentDone) && (handledDone && sentAdd ==> handledAdd)
      && (added ==> handledAdd) && (kicked ==> added)
      && newCalls == (if added then 1 else 0) && doneCalls == (if added && handledDone then 1 else 0)
    }

    /** Added, and neither finished nor removed by a query. */
    predicate Active() {
      added && !handledDone && !kicked
    }
  }

  datatype Event = Add(ref: Ref) | Done(ref: Ref)

  /** The three peer maps. */
  datatype Kind = Inbound | Outbound | Persistent

  function KindOf(p: Peer): (kind: Kind) {
    if p.persistent then Persistent else if p.inbound then Inbound else Outbound
  }

  datatype Net = Net(peers: map<Ref, Peer>, queue: seq<Event>, inboundPeers: map<nat, Ref>, outboundPeers: map<nat, Ref>,
                     persistentPeers: map<nat, Ref>, outboundGroups: map<Group, int>, maxPeers: nat)
  {
    function Count(): (n: nat) {
      |inboundPeers| + |outboundPeers| + |persistentPeers|
    }

    function Of(kind: Kind): (m: map<nat, Ref>) {
      match kind
      case Inbound => inboundPeers
      case Outbound => outboundPeers
      case Persistent => persistentPeers
    }

    function With(kind: Kind, m: map<nat, Ref>): (r: Net) {
      match kind
      case Inbound => this.(inboundPeers := m)
      case Outbound => this.(outboundPeers := m)
      case Persistent => this.(persistentPeers := m)
    }

    /** Whether a map of this kind holds `i`. */
    predicate Holds(kind: Kind, i: Ref)
      requires i in peers
    {
      peers[i].id in Of(kind) && Of(kind)[peers[i].id] == i
    }

    /** The outbound peers of a group, persistent ones included. */
    function InGroup(g: Group): (r: set<Ref>) {
      set i | i in peers && Counted(g, i)
    }

    predicate Counted(g: Group, i: Ref)
      requires i in peers
    {
      peers[i].group == g && (Holds(Outbound, i) || Holds(Persistent, i))
    }

    function Groups(g: Group): (n: int) {
      if g in outboundGroups then outboundGroups[g] else 0
    }

    /** The queue holds exactly the events sent and not yet handled, the addition first. */
    ghost predicate QueueOk(i: Ref)
      requires i in peers
    {
      var p := peers[i];
      && (Add(i) in queue <==> p.sentAdd && !p.handledAdd)
      && (Done(i) in queue <==> p.sentDone && !p.handledDone)
      && (forall j, k :: 0 <= j < |queue| && 0 <= k < |queue| && queue[j] == Add(i) && queue[k] == Done(i) ==> j < k)
    }

    /** An entry of a peer map: the peer is filed under its own id, and was added but not removed. */
    ghost predicate EntryOk(kind: Kind, id: nat)
      requires id in Of(kind)
    {
      var i := Of(kind)[id];
      i in peers && peers[i].id == id && KindOf(peers[i]) == kind && peers[i].Active()
    }

    ghost predicate PeersOk() {
      forall i :: i in peers ==> peers[i].Ok()
    }

    ghost predicate IdsOk() {
      forall i, j :: i in peers && j in peers && peers[i].id == peers[j].id > 0 ==> i == j
    }

    ghost predicate QueuesOk() {
      NoRepeats(queue) && (forall e :: e in queue ==> e.ref in peers) && (forall i :: i in peers ==> QueueOk(i))
    }

    ghost predicate MapsOk() {
      forall kind: Kind, id :: id in Of(kind) ==> EntryOk(kind, id)
    }

    /** Active peers are in the map of their kind, except those in `but`. */
    ghost predicate AllListed(but: set<Ref>) {
      forall i :: i in peers && i !in but && peers[i].Active() ==> Holds(KindOf(peers[i]), i)
    }

    ghost predicate GroupsOk() {
      forall g :: Groups(g) == |InGroup(g)|
    }

    ghost predicate Valid() {
      PeersOk() && IdsOk() && QueuesOk() && MapsOk() && AllListed({}) && GroupsOk() && Count() <= maxPeers
    }
  }

  predicate NoRepeats(s: seq<Event>) {
    forall i, j :: 0 <= i < j < |s| ==> s[i] != s[j]
  }

  // ---------------------------------------------------------------------------
  // Steps
  // ---------------------------------------------------------------------------

  function Start(maxPeers: nat): (s: Net) {
    Net(map[], [], map[], map[], map[], map[], maxPeers)
  }

  function SetPeer(s: Net, i: Ref, p: Peer): (t: Net) {
    s.(peers := s.peers[i := p])
  }

  /** A new connection. */
  function Connect(s: Net, i: Ref, inbound: bool, persistent: bool, group: Group): (t: Net) {
    SetPeer(s, i, Peer(inbound, persistent, group, 0, false, false, true, false, false, false, false, false, false, false, 0, 0))
  }

  /** The remote version arrives, and the peer gets its id. */
  function Version(s: Net, i: Ref, id: nat): (t: Net)
    requires i in s.peers
  {
    SetPeer(s, i, s.peers[i].(id := id, versionKnown := true))
  }

  function VerAck(s: Net, i: Ref): (t: Net)
    requires i in s.peers
  {
    SetPeer(s, i, s.peers[i].(verAck := true))
  }

  function Disconnect(s: Net, i: Ref): (t: Net)
    requires i in s.peers
  {
    SetPeer(s, i, s.peers[i].(connected := false))
  }

  /** The lifecycle goroutine sees the verack. */
  function SendAdd(s: Net, i: Ref): (t: Net)
    requires i in s.peers
  {
    SetPeer(s, i, s.peers[i].(decided := true, sentAdd := true)).(queue := s.queue + [Add(i)])
  }

  /** The lifecycle goroutine sees the disconnect first. */
  function Skip(s: Net, i: Ref): (t: Net)
    requires i in s.peers
  {
    SetPeer(s, i, s.peers[i].(decided := true))
  }

  function SendDone(s: Net, i: Ref): (t: Net)
    requires i in s.peers
  {
    SetPeer(s, i, s.peers[i].(sentDone := true)).(queue := s.queue + [Done(i)])
  }

  function Enlist(s: Net, i: Ref): (t: Net)
    requires i in s.peers
  {
    var p := s.peers[i];
    var kind := KindOf(p);
    var t := s.With(kind, s.Of(kind)[p.id := i]);
    if kind == Inbound then t else t.(outboundGroups := s.outboundGroups[p.group := s.Groups(p.group) + 1])
  }

  function Unlist(s: Net, kind: Kind, id: nat): (t: Net)
    requires id in s.Of(kind) && s.Of(kind)[id] in s.peers
  {
    var p := s.peers[s.Of(kind)[id]];
    var t := s.With(kind, s.Of(kind) - {id});
    if kind == Inbound then t else t.(outboundGroups := s.outboundGroups[p.group := s.Groups(p.group) - 1])
  }

  /** The server handles an addition; `refuse` stands for its agent, shutdown and ban checks. */
  function HandleAdd(s: Net, i: Ref, refuse: bool): (t: Net)
    requires i in s.peers
  {
    var p := s.peers[i];
    if !p.connected then SetPeer(s, i, p.(handledAdd := true))
    else if refuse || s.Count() >= s.maxPeers then SetPeer(s, i, p.(handledAdd := true, connected := false))
    else SetPeer(Enlist(s, i), i, p.(handledAdd := true, added := true, newCalls := p.newCalls + 1))
  }

  /** The server handles a removal. */
  function HandleDone(s: Net, i: Ref): (t: Net)
    requires i in s.peers && (s.peers[i].id in s.Of(KindOf(s.peers[i])) ==> s.Of(KindOf(s.peers[i]))[s.peers[i].id] in s.peers)
  {
    var p := s.peers[i];
    var t := if p.id in s.Of(KindOf(p)) then Unlist(s, KindOf(p), p.id) else s;
    SetPeer(t, i, p.(handledDone := true, doneCalls := p.doneCalls + if p.added then 1 else 0))
  }

  function Pop(s: Net): (t: Net)
    requires s.queue != []
  {
    s.(queue := s.queue[1..])
  }

  /** An administrator's request drops a listed peer. */
  function Kick(s: Net, kind: Kind, id: nat): (t: Net)
    requires id in s.Of(kind) && s.Of(kind)[id] in s.peers
  {
    var i := s.Of(kind)[id];
    SetPeer(Unlist(s, kind, id), i, Kicked(s.peers[i]))
  }

  function Kicked(p: Peer): (q: Peer) {
    p.(connected := false, kicked := true)
  }

  // ---------------------------------------------------------------------------
  // Updating one peer
  // ---------------------------------------------------------------------------

  /** Changes to a peer that the maps, groups and ids do not see. */
  predicate SameToMaps(p: Peer, q: Peer) {
    && p.id == q.id && p.inbound == q.inbound && p.persistent == q.persistent && p.group == q.group
    && p.added == q.added && p.handledDone == q.handledDone && p.kicked == q.kicked
  }

  predicate SameToQueue(p: Peer, q: Peer) {
    p.sentAdd == q.sentAdd && p.sentDone == q.sentDone && p.handledAdd == q.handledAdd && p.handledDone == q.handledDone
  }

  lemma SetPeerMaps(s: Net, i: Ref, q: Peer)
    requires i in s.peers && s.IdsOk() && s.MapsOk() && s.GroupsOk() && SameToMaps(s.peers[i], q)
    ensures SetPeer(s, i, q).IdsOk() && SetPeer(s, i, q).MapsOk() && SetPeer(s, i, q).GroupsOk()
  {
    var t := SetPeer(s, i, q);
    forall kind: Kind, id | id in t.Of(kind) ensures t.EntryOk(kind, id) {
      assert s.EntryOk(kind, id);
    }
    hide Net.MapsOk;
    forall g ensures t.Groups(g) == |t.InGroup(g)| {
      assert s.Groups(g) == |s.InGroup(g)|;
      SetPeerGroup(s, i, q, g);
    }
  }

  lemma SetPeerGroup(s: Net, i: Ref, q: Peer, g: Group)
    requires i in s.peers && SameToMaps(s.peers[i], q)
    ensures SetPeer(s, i, q).InGroup(g) == s.InGroup(g)
  {
  }

  lemma SetPeerQueues(s: Net, i: Ref, q: Peer)
    requires i in s.peers && s.QueuesOk() && SameToQueue(s.peers[i], q)
    ensures SetPeer(s, i, q).QueuesOk()
  {
    var t := SetPeer(s, i, q);
    forall j | j in t.peers ensures t.QueueOk(j) {
      assert s.QueueOk(j);
    }
  }

  lemma SetPeerListed(s: Net, i: Ref, q: Peer)
    requires i in s.peers && s.AllListed({}) && SameToMaps(s.peers[i], q)
    ensures SetPeer(s, i, q).AllListed({})
  {
    var t := SetPeer(s, i, q);
    forall j | j in t.peers && t.peers[j].Active() ensures t.Holds(KindOf(t.peers[j]), j) {
      assert s.Holds(KindOf(s.peers[j]), j);
    }
  }

  lemma SetPeerValid(s: Net, i: Ref, q: Peer)
    requires s.Valid() && i in s.peers && q.Ok() && SameToMaps(s.peers[i], q) && SameToQueue(s.peers[i], q)
    ensures SetPeer(s, i, q).Valid()
  {
    hide Net.QueuesOk, Net.MapsOk, Net.AllListed, Net.GroupsOk, Net.IdsOk;
    SetPeerMaps(s, i, q);
    SetPeerListed(s, i, q);
    SetPeerQueues(s, i, q);
  }

  // ---------------------------------------------------------------------------
  // Connections and their lifecycle goroutines
  // ---------------------------------------------------------------------------

  lemma StartValid(maxPeers: nat)
    ensures Start(maxPeers).Valid()
  {
    var s := Start(maxPeers);
    forall g ensures s.Groups(g) == |s.InGroup(g)| {
      assert s.InGroup(g) == {};
    }
  }

  /** No map has an entry under id zero or under an id that no peer has. */
  lemma NoEntry(s: Net, kind: Kind, id: nat)
    requires s.PeersOk() && s.MapsOk() && (id == 0 || forall j :: j in s.peers ==> s.peers[j].id != id)
    ensures id !in s.Of(kind)
  {
    forall d | d in s.Of(kind) ensures d > 0 && s.Of(kind)[d] in s.peers && s.peers[s.Of(kind)[d]].id == d {
      assert s.EntryOk(kind, d);
      assert s.peers[s.Of(kind)[d]].Ok();
    }
  }

  /** A peer that the maps do not hold, before and after. */
  predicate Newcomer(s: Net, i: Ref, q: Peer) {
    && (i in s.peers ==> s.peers[i].id == 0)
    && (q.id == 0 || forall j :: j in s.peers ==> s.peers[j].id != q.id)
  }

  lemma NewcomerMaps(s: Net, i: Ref, q: Peer)
    requires s.PeersOk() && s.IdsOk() && s.MapsOk() && s.GroupsOk() && Newcomer(s, i, q)
    ensures SetPeer(s, i, q).IdsOk() && SetPeer(s, i, q).MapsOk() && SetPeer(s, i, q).GroupsOk()
  {
    var t := SetPeer(s, i, q);
    forall kind: Kind, id | id in t.Of(kind) ensures t.EntryOk(kind, id) {
      hide Newcomer;
      NewcomerEntry(s, i, q, kind, id);
    }
    hide Net.PeersOk, Net.MapsOk;
    forall g ensures t.Groups(g) == |t.InGroup(g)| {
      hide Newcomer, Net.InGroup;
      assert s.Groups(g) == |s.InGroup(g)|;
      NewcomerGroup(s, i, q, g);
    }
  }

  lemma NewcomerListed(s: Net, i: Ref, q: Peer)
    requires s.AllListed({}) && !q.Active()
    ensures SetPeer(s, i, q).AllListed({})
  {
    var t := SetPeer(s, i, q);
    forall j | j in t.peers && t.peers[j].Active() ensures t.Holds(KindOf(t.peers[j]), j) {
      assert s.Holds(KindOf(s.peers[j]), j);
    }
  }

  lemma NewcomerEntry(s: Net, i: Ref, q: Peer, kind: Kind, id: nat)
    requires s.PeersOk() && s.MapsOk() && Newcomer(s, i, q) && id in s.Of(kind)
    ensures SetPeer(s, i, q).EntryOk(kind, id)
  {
    assert s.EntryOk(kind, id);
    assert s.peers[s.Of(kind)[id]].Ok();
  }

  lemma NewcomerGroup(s: Net, i: Ref, q: Peer, g: Group)
    requires s.PeersOk() && s.MapsOk() && Newcomer(s, i, q)
    ensures SetPeer(s, i, q).InGroup(g) == s.InGroup(g)
  {
    NoEntry(s, Outbound, 0);
    NoEntry(s, Persistent, 0);
    NoEntry(s, Outbound, q.id);
    NoEntry(s, Persistent, q.id);
    hide Net.PeersOk, Net.MapsOk;
    var t := SetPeer(s, i, q);
    assert !t.Counted(g, i) && (i in s.peers ==> !s.Counted(g, i));
    forall j | j in s.peers && j != i ensures t.Counted(g, j) <==> s.Counted(g, j) {
    }
    hide Net.Counted;
    assert t.InGroup(g) == s.InGroup(g);
  }

  lemma ConnectValid(s: Net, i: Ref, inbound: bool, persistent: bool, group: Group)
    requires s.Valid() && i !in s.peers && (inbound ==> !persistent)
    ensures Connect(s, i, inbound, persistent, group).Valid()
  {
    hide Net.MapsOk, Net.AllListed, Net.GroupsOk, Net.IdsOk, Newcomer;
    var t := Connect(s, i, inbound, persistent, group);
    assert Newcomer(s, i, t.peers[i]) by { NewcomerConnect(s, i, t.peers[i]); }
    NewcomerMaps(s, i, t.peers[i]);
    NewcomerListed(s, i, t.peers[i]);
    forall j | j in t.peers ensures t.QueueOk(j) {
      if j in s.peers { assert s.QueueOk(j); }
    }
  }

  lemma NewcomerConnect(s: Net, i: Ref, q: Peer)
    requires i !in s.peers && q.id == 0
    ensures Newcomer(s, i, q)
  {
  }

  lemma VersionValid(s: Net, i: Ref, id: nat)
    requires s.Valid() && i in s.peers && !s.peers[i].versionKnown
    requires id > 0 && forall j :: j in s.peers ==> s.peers[j].id != id
    ensures Version(s, i, id).Valid()
  {
    hide Net.MapsOk, Net.AllListed, Net.GroupsOk, Net.IdsOk, Net.QueuesOk;
    var q := s.peers[i].(id := id, versionKnown := true);
    assert s.peers[i].Ok();
    SetPeerQueues(s, i, q);
    NewcomerMaps(s, i, q);
    NewcomerListed(s, i, q);
  }

  lemma Append(q: seq<Event>, e: Event)
    requires NoRepeats(q) && e !in q
    ensures NoRepeats(q + [e]) && forall x :: x in q + [e] <==> x in q || x == e
  {
  }

  lemma SendQueues(s: Net, i: Ref, q: Peer, e: Event)
    requires s.QueuesOk() && i in s.peers && e.ref == i && q.handledAdd == s.peers[i].handledAdd && q.handledDone == s.peers[i].handledDone
    requires e.Add? ==> !s.peers[i].sentAdd && q.sentAdd && !s.peers[i].sentDone && !q.sentDone && !q.handledAdd && !q.handledDone
    requires e.Done? ==> !s.peers[i].sentDone && q.sentDone && q.sentAdd == s.peers[i].sentAdd && !q.handledDone
    ensures SetPeer(s, i, q).(queue := s.queue + [e]).QueuesOk()
  {
    var t := SetPeer(s, i, q).(queue := s.queue + [e]);
    assert s.QueueOk(i);
    Append(s.queue, e);
    forall j | j in t.peers ensures t.QueueOk(j) {
      assert s.QueueOk(j);
    }
  }

  lemma SendAddValid(s: Net, i: Ref)
    requires s.Valid() && i in s.peers && !s.peers[i].decided && s.peers[i].verAck
    ensures SendAdd(s, i).Valid()
  {
    hide Net.QueuesOk, Net.MapsOk, Net.AllListed, Net.GroupsOk, Net.IdsOk;
    assert s.peers[i].Ok();
    var q := s.peers[i].(decided := true, sentAdd := true);
    SetPeerMaps(s, i, q);
    SetPeerListed(s, i, q);
    SendQueues(s, i, q, Add(i));
    QueueOnly(SetPeer(s, i, q), s.queue + [Add(i)]);
  }

  lemma SendDoneValid(s: Net, i: Ref)
    requires s.Valid() && i in s.peers && s.peers[i].decided && !s.peers[i].connected && !s.peers[i].sentDone
    ensures SendDone(s, i).Valid()
  {
    hide Net.QueuesOk, Net.MapsOk, Net.AllListed, Net.GroupsOk, Net.IdsOk;
    assert s.peers[i].Ok();
    var q := s.peers[i].(sentDone := true);
    SetPeerMaps(s, i, q);
    SetPeerListed(s, i, q);
    SendQueues(s, i, q, Done(i));
    QueueOnly(SetPeer(s, i, q), s.queue + [Done(i)]);
  }

  /** The queue does not matter to ids, maps and groups. */
  lemma QueueOnly(s: Net, q: seq<Event>)
    requires s.IdsOk() && s.MapsOk() && s.AllListed({}) && s.GroupsOk()
    ensures s.(queue := q).IdsOk() && s.(queue := q).MapsOk() && s.(queue := q).AllListed({}) && s.(queue := q).GroupsOk()
  {
    var t := s.(queue := q);
    forall j | j in t.peers && t.peers[j].Active() ensures t.Holds(KindOf(t.peers[j]), j) {
      assert s.Holds(KindOf(s.peers[j]), j);
    }
    forall kind: Kind, id | id in t.Of(kind) ensures t.EntryOk(kind, id) {
      assert s.EntryOk(kind, id);
    }
    forall g ensures t.Groups(g) == |t.InGroup(g)| {
      assert s.Groups(g) == |s.InGroup(g)|;
      assert t.InGroup(g) == s.InGroup(g);
    }
  }

  // ---------------------------------------------------------------------------
  // Handling events
  // ---------------------------------------------------------------------------

  /** Whether some peer map has `i`. */
  predicate Listed(s: Net, i: Ref) {
    exists kind: Kind :: i in s.Of(kind).Values
  }

  lemma EntryFacts(s: Net, kind: Kind, id: nat)
    requires s.MapsOk() && id in s.Of(kind)
    ensures s.EntryOk(kind, id)
  {
  }

  /** Maps hold only peers that were added and are not done. */
  lemma ListedFacts(s: Net, i: Ref)
    requires s.MapsOk() && i in s.peers && !s.peers[i].Active()
    ensures !Listed(s, i)
  {
    forall kind: Kind ensures i !in s.Of(kind).Values {
      forall id | id in s.Of(kind) ensures s.Of(kind)[id] != i {
        EntryFacts(s, kind, id);
      }
    }
  }

  /** A peer that no map holds can change in any way that keeps its id and kind. */
  lemma UnlistedMaps(s: Net, i: Ref, q: Peer)
    requires i in s.peers && s.IdsOk() && s.MapsOk() && s.GroupsOk() && !Listed(s, i) && q.id == s.peers[i].id
    ensures SetPeer(s, i, q).IdsOk() && SetPeer(s, i, q).MapsOk() && SetPeer(s, i, q).GroupsOk()
  {
    var t := SetPeer(s, i, q);
    forall kind: Kind, id | id in t.Of(kind) ensures t.EntryOk(kind, id) {
      assert s.Of(kind)[id] in s.Of(kind).Values;
      EntryFacts(s, kind, id);
    }
    hide Net.MapsOk;
    forall g ensures t.Groups(g) == |t.InGroup(g)| {
      assert s.Groups(g) == |s.InGroup(g)|;
      UnlistedGroup(s, i, q, g);
    }
  }

  lemma UnlistedListed(s: Net, i: Ref, q: Peer)
    requires s.AllListed({i}) && !q.Active()
    ensures SetPeer(s, i, q).AllListed({})
  {
    var t := SetPeer(s, i, q);
    forall j | j in t.peers && t.peers[j].Active() ensures t.Holds(KindOf(t.peers[j]), j) {
      assert s.Holds(KindOf(s.peers[j]), j);
    }
  }

  lemma UnlistedGroup(s: Net, i: Ref, q: Peer, g: Group)
    requires i in s.peers && !Listed(s, i) && q.id == s.peers[i].id
    ensures SetPeer(s, i, q).InGroup(g) == s.InGroup(g)
  {
    assert i !in s.Of(Outbound).Values && i !in s.Of(Persistent).Values;
    assert !s.Holds(Outbound, i) && !s.Holds(Persistent, i);
    assert i !in SetPeer(s, i, q).InGroup(g);
  }

  lemma PopQueues(s: Net, i: Ref, q: Peer)
    requires s.QueuesOk() && s.queue != [] && s.queue[0].ref == i && i in s.peers
    requires q.sentAdd == s.peers[i].sentAdd && q.sentDone == s.peers[i].sentDone
    requires q.handledAdd == (s.peers[i].handledAdd || s.queue[0].Add?) && q.handledDone == (s.peers[i].handledDone || s.queue[0].Done?)
    ensures SetPeer(Pop(s), i, q).QueuesOk()
    ensures s.queue[0].Done? && s.peers[i].sentAdd ==> s.peers[i].handledAdd
    ensures if s.queue[0].Add? then s.peers[i].sentAdd && !s.peers[i].handledAdd else s.peers[i].sentDone && !s.peers[i].handledDone
  {
    var t := SetPeer(Pop(s), i, q);
    var head, rest := s.queue[0], s.queue[1..];
    assert s.QueueOk(i);
    assert forall e :: e in s.queue <==> e == head || e in rest;
    assert head !in rest;
    forall j | j in t.peers ensures t.QueueOk(j) {
      assert s.QueueOk(j);
    }
  }

  /** Entering a peer that is added for the first time. */
  lemma EnlistMaps(s: Net, i: Ref, q: Peer)
    requires s.PeersOk() && s.IdsOk() && s.MapsOk() && s.GroupsOk() && i in s.peers && s.peers[i].id > 0 && !s.peers[i].added
    requires q == s.peers[i].(handledAdd := true, added := true, newCalls := q.newCalls) && q.Active()
    ensures var t := SetPeer(Enlist(s, i), i, q); t.IdsOk() && t.MapsOk() && t.GroupsOk() && t.Count() == s.Count() + 1
  {
    var t, kind := SetPeer(Enlist(s, i), i, q), KindOf(q);
    ListedFacts(s, i);
    IdUnused(s, i, kind);
    forall k: Kind, id | id in t.Of(k) ensures t.EntryOk(k, id) {
      EnlistEntry(s, i, q, k, id);
    }
    forall g ensures t.Groups(g) == |t.InGroup(g)| {
      hide Net.PeersOk, Net.MapsOk, Net.IdsOk;
      EnlistGroup(s, i, q, g);
    }
  }

  lemma EnlistListed(s: Net, i: Ref, q: Peer)
    requires s.AllListed({}) && i in s.peers && s.peers[i].id !in s.Of(KindOf(s.peers[i]))
    requires q.id == s.peers[i].id && KindOf(q) == KindOf(s.peers[i])
    ensures SetPeer(Enlist(s, i), i, q).AllListed({})
  {
    var t := SetPeer(Enlist(s, i), i, q);
    forall j | j in t.peers && t.peers[j].Active() ensures t.Holds(KindOf(t.peers[j]), j) {
      if j != i {
        assert s.Holds(KindOf(s.peers[j]), j);
      }
    }
  }

  lemma IdUnused(s: Net, i: Ref, kind: Kind)
    requires s.IdsOk() && s.MapsOk() && i in s.peers && s.peers[i].id > 0 && !Listed(s, i)
    ensures s.peers[i].id !in s.Of(kind)
  {
    forall id | id in s.Of(kind) ensures id != s.peers[i].id {
      EntryFacts(s, kind, id);
      assert s.Of(kind)[id] in s.Of(kind).Values;
    }
  }

  lemma EnlistEntry(s: Net, i: Ref, q: Peer, k: Kind, id: nat)
    requires s.MapsOk() && i in s.peers && !Listed(s, i)
    requires q == s.peers[i].(handledAdd := true, added := true, newCalls := q.newCalls) && q.Active()
    requires id in SetPeer(Enlist(s, i), i, q).Of(k)
    ensures SetPeer(Enlist(s, i), i, q).EntryOk(k, id)
  {
    if id in s.Of(k) {
      EntryFacts(s, k, id);
      assert s.Of(k)[id] in s.Of(k).Values;
    }
  }

  lemma EnlistGroup(s: Net, i: Ref, q: Peer, g: Group)
    requires s.GroupsOk() && i in s.peers && !Listed(s, i)
    requires s.peers[i].id !in s.Of(KindOf(q))
    requires q == s.peers[i].(handledAdd := true, added := true, newCalls := q.newCalls)
    ensures var t := SetPeer(Enlist(s, i), i, q); t.Groups(g) == |t.InGroup(g)|
  {
    hide Enlist, SetPeer, Net.Counted, Net.Groups, Listed;
    var t := SetPeer(Enlist(s, i), i, q);
    assert s.Groups(g) == |s.InGroup(g)|;
    EnlistTotal(s, i, q, g);
    forall j | j in s.peers ensures t.Counted(g, j) <==> s.Counted(g, j) || (Joins(q, g) && j == i) {
      EnlistCounted(s, i, q, g, j);
    }
    NotCounted(s, g, i);
    GroupPlus(s, t, g, i, Joins(q, g));
  }

  predicate Joins(q: Peer, g: Group) {
    KindOf(q) != Inbound && q.group == g
  }

  lemma EnlistTotal(s: Net, i: Ref, q: Peer, g: Group)
    requires i in s.peers && KindOf(q) == KindOf(s.peers[i]) && q.group == s.peers[i].group
    ensures var t := SetPeer(Enlist(s, i), i, q);
      t.peers.Keys == s.peers.Keys && t.Groups(g) == s.Groups(g) + if Joins(q, g) then 1 else 0
  {
  }

  lemma GroupPlus(s: Net, t: Net, g: Group, i: Ref, joins: bool)
    requires t.peers.Keys == s.peers.Keys && i in s.peers && !s.Counted(g, i)
    requires forall j :: j in s.peers ==> (t.Counted(g, j) <==> s.Counted(g, j) || (joins && j == i))
    ensures |t.InGroup(g)| == |s.InGroup(g)| + if joins then 1 else 0
  {
    hide Net.Counted;
    assert t.InGroup(g) == s.InGroup(g) + if joins then {i} else {};
  }

  lemma NotCounted(s: Net, g: Group, i: Ref)
    requires i in s.peers && !Listed(s, i)
    ensures !s.Counted(g, i)
  {
    assert i !in s.Of(Outbound).Values && i !in s.Of(Persistent).Values;
  }

  lemma EnlistCounted(s: Net, i: Ref, q: Peer, g: Group, j: Ref)
    requires i in s.peers && j in s.peers && !Listed(s, i) && s.peers[i].id !in s.Of(KindOf(q))
    requires q == s.peers[i].(handledAdd := true, added := true, newCalls := q.newCalls)
    ensures SetPeer(Enlist(s, i), i, q).Counted(g, j) <==> s.Counted(g, j) || (Joins(q, g) && j == i)
  {
    NotCounted(s, g, i);
  }

  /** Taking an entry out of a map. */
  lemma UnlistMaps(s: Net, kind: Kind, id: nat)
    requires s.IdsOk() && s.MapsOk() && s.GroupsOk() && id in s.Of(kind) && s.Of(kind)[id] in s.peers
    ensures var t := Unlist(s, kind, id);
      t.IdsOk() && t.MapsOk() && t.GroupsOk() && t.Count() == s.Count() - 1 && !Listed(t, s.Of(kind)[id])
  {
    hide Net.EntryOk, Net.Groups;
    var t, i := Unlist(s, kind, id), s.Of(kind)[id];
    forall k: Kind, d | d in t.Of(k) ensures t.EntryOk(k, d) && t.Of(k)[d] != i {
      UnlistEntry(s, kind, id, k, d);
    }
    forall g ensures t.Groups(g) == |t.InGroup(g)| {
      UnlistGroup(s, kind, id, g);
    }
    assert |s.Of(kind) - {id}| == |s.Of(kind)| - 1;
  }

  lemma UnlistListed(s: Net, kind: Kind, id: nat)
    requires s.AllListed({}) && id in s.Of(kind) && s.Of(kind)[id] in s.peers
    ensures Unlist(s, kind, id).AllListed({s.Of(kind)[id]})
  {
    var t := Unlist(s, kind, id);
    forall j | j in t.peers && j != s.Of(kind)[id] && t.peers[j].Active() ensures t.Holds(KindOf(t.peers[j]), j) {
      assert s.Holds(KindOf(s.peers[j]), j);
    }
  }

  lemma UnlistEntry(s: Net, kind: Kind, id: nat, k: Kind, d: nat)
    requires s.MapsOk() && id in s.Of(kind) && s.Of(kind)[id] in s.peers && d in Unlist(s, kind, id).Of(k)
    ensures Unlist(s, kind, id).EntryOk(k, d) && Unlist(s, kind, id).Of(k)[d] != s.Of(kind)[id]
  {
    assert d in s.Of(k) && Unlist(s, kind, id).Of(k)[d] == s.Of(k)[d];
    EntryFacts(s, kind, id);
    EntryFacts(s, k, d);
  }

  lemma UnlistGroup(s: Net, kind: Kind, id: nat, g: Group)
    requires s.MapsOk() && s.GroupsOk() && id in s.Of(kind) && s.Of(kind)[id] in s.peers
    ensures var t := Unlist(s, kind, id); t.Groups(g) == |t.InGroup(g)|
  {
    hide Unlist, Net.Counted, Net.Groups, Net.MapsOk;
    var t, i := Unlist(s, kind, id), s.Of(kind)[id];
    var leaves := kind != Inbound && s.peers[i].group == g;
    assert s.Groups(g) == |s.InGroup(g)|;
    UnlistTotal(s, kind, id, g);
    forall j | j in s.peers ensures t.Counted(g, j) <==> s.Counted(g, j) && !(leaves && j == i) {
      UnlistCounted(s, kind, id, g, j);
    }
    GroupMinus(s, t, g, i, leaves);
  }

  lemma UnlistTotal(s: Net, kind: Kind, id: nat, g: Group)
    requires s.MapsOk() && id in s.Of(kind) && s.Of(kind)[id] in s.peers
    ensures var t, i := Unlist(s, kind, id), s.Of(kind)[id];
      var leaves := kind != Inbound && s.peers[i].group == g;
      t.peers == s.peers && t.Groups(g) == s.Groups(g) - (if leaves then 1 else 0) && (leaves ==> s.Counted(g, i))
  {
    EntryFacts(s, kind, id);
  }

  lemma GroupMinus(s: Net, t: Net, g: Group, i: Ref, leaves: bool)
    requires t.peers == s.peers && i in s.peers && (leaves ==> s.Counted(g, i))
    requires forall j :: j in s.peers ==> (t.Counted(g, j) <==> s.Counted(g, j) && !(leaves && j == i))
    ensures |t.InGroup(g)| == |s.InGroup(g)| - if leaves then 1 else 0
  {
    hide Net.Counted;
    assert t.InGroup(g) == s.InGroup(g) - if leaves then {i} else {};
  }

  lemma UnlistCounted(s: Net, kind: Kind, id: nat, g: Group, j: Ref)
    requires s.MapsOk() && id in s.Of(kind) && s.Of(kind)[id] in s.peers && j in s.peers
    ensures Unlist(s, kind, id).Counted(g, j) <==>
            s.Counted(g, j) && !(kind != Inbound && s.peers[s.Of(kind)[id]].group == g && j == s.Of(kind)[id])
  {
    UnlistHolds(s, kind, id, Outbound, j);
    UnlistHolds(s, kind, id, Persistent, j);
    UnlistTotal(s, kind, id, g);
    hide Unlist, Net.Holds, Net.MapsOk;
  }

  lemma UnlistHolds(s: Net, kind: Kind, id: nat, k: Kind, j: Ref)
    requires s.MapsOk() && id in s.Of(kind) && s.Of(kind)[id] in s.peers && j in s.peers
    ensures Unlist(s, kind, id).Holds(k, j) <==> s.Holds(k, j) && j != s.Of(kind)[id]
    ensures kind == Inbound && k != Inbound ==> !s.Holds(k, s.Of(kind)[id])
  {
    EntryFacts(s, kind, id);
    if k == kind {
      SameKindHolds(s, kind, id, j);
    } else {
      assert Unlist(s, kind, id).Of(k) == s.Of(k);
      if id in s.Of(k) {
        EntryFacts(s, k, id);
      }
    }
  }

  lemma SameKindHolds(s: Net, kind: Kind, id: nat, j: Ref)
    requires s.EntryOk.requires(kind, id) && s.EntryOk(kind, id) && j in s.peers
    ensures Unlist(s, kind, id).Holds(kind, j) <==> s.Holds(kind, j) && j != s.Of(kind)[id]
  {
    assert Unlist(s, kind, id).Of(kind) == s.Of(kind) - {id};
  }

  /** The first event of the queue, and what is known about its peer. */
  lemma HeadFacts(s: Net)
    requires s.Valid() && s.queue != []
    ensures var i := s.queue[0].ref;
      && i in s.peers && s.peers[i].Ok()
      && Pop(s).PeersOk() && Pop(s).IdsOk() && Pop(s).MapsOk() && Pop(s).AllListed({}) && Pop(s).GroupsOk()
      && Pop(s).Count() == s.Count()
  {
    hide Net.MapsOk, Net.AllListed, Net.GroupsOk, Net.IdsOk;
    assert s.queue[0] in s.queue;
    QueueOnly(s, s.queue[1..]);
  }

  lemma HandleAddValid(s: Net, refuse: bool)
    requires s.Valid() && s.queue != [] && s.queue[0].Add?
    ensures s.queue[0].ref in s.peers && HandleAdd(Pop(s), s.queue[0].ref, refuse).Valid()
  {
    hide Net.MapsOk, Net.AllListed, Net.GroupsOk, Net.IdsOk, Net.QueuesOk, Net.PeersOk, Enlist, Net.Count, Peer.Ok;
    HeadFacts(s);
    var i := s.queue[0].ref;
    var p := s.peers[i];
    if !p.connected {
      TurnedAway(s, p.(handledAdd := true));
    } else if refuse || Pop(s).Count() >= s.maxPeers {
      TurnedAway(s, p.(handledAdd := true, connected := false));
    } else {
      Admitted(s, p.(handledAdd := true, added := true, newCalls := p.newCalls + 1));
    }
  }

  lemma TurnedAway(s: Net, q: Peer)
    requires s.Valid() && s.queue != [] && s.queue[0].Add? && s.queue[0].ref in s.peers
    requires var p := s.peers[s.queue[0].ref]; q == p.(handledAdd := true, connected := q.connected) && (q.connected ==> p.connected)
    ensures SetPeer(Pop(s), s.queue[0].ref, q).Valid()
  {
    hide Net.MapsOk, Net.AllListed, Net.GroupsOk, Net.IdsOk, Net.QueuesOk;
    HeadFacts(s);
    PopQueues(s, s.queue[0].ref, q);
    SetPeerMaps(Pop(s), s.queue[0].ref, q);
    SetPeerListed(Pop(s), s.queue[0].ref, q);
  }

  lemma Admitted(s: Net, q: Peer)
    requires s.Valid() && s.queue != [] && s.queue[0].Add? && s.queue[0].ref in s.peers && Pop(s).Count() < s.maxPeers
    requires var p := s.peers[s.queue[0].ref]; q == p.(handledAdd := true, added := true, newCalls := p.newCalls + 1)
    requires q.connected
    ensures SetPeer(Enlist(Pop(s), s.queue[0].ref), s.queue[0].ref, q).Valid()
  {
    hide Net.MapsOk, Net.AllListed, Net.GroupsOk, Net.IdsOk, Net.QueuesOk, Net.PeersOk, Enlist, Net.Count;
    HeadFacts(s);
    PopQueues(s, s.queue[0].ref, q);
    AdmittedOk(s.peers[s.queue[0].ref], q);
    EnlistMaps(Pop(s), s.queue[0].ref, q);
    ListedFacts(Pop(s), s.queue[0].ref);
    IdUnused(Pop(s), s.queue[0].ref, KindOf(q));
    EnlistListed(Pop(s), s.queue[0].ref, q);
    EnlistRest(Pop(s), s.queue[0].ref);
    SetPeerOk(Pop(s), s.queue[0].ref, q);
    SameRest(SetPeer(Pop(s), s.queue[0].ref, q), SetPeer(Enlist(Pop(s), s.queue[0].ref), s.queue[0].ref, q));
  }

  lemma AdmittedOk(p: Peer, q: Peer)
    requires p.Ok() && p.sentAdd && !p.handledAdd && p.connected
    requires q == p.(handledAdd := true, added := true, newCalls := p.newCalls + 1)
    ensures q.Ok() && !p.added && p.id > 0 && q.Active()
  {
  }

  lemma SetPeerOk(s: Net, i: Ref, q: Peer)
    requires s.PeersOk() && q.Ok()
    ensures SetPeer(s, i, q).PeersOk()
  {
  }

  lemma EnlistRest(s: Net, i: Ref)
    requires i in s.peers
    ensures var t := Enlist(s, i); t.peers == s.peers && t.queue == s.queue && t.maxPeers == s.maxPeers
  {
  }

  lemma UnlistRest(s: Net, kind: Kind, id: nat)
    requires id in s.Of(kind) && s.Of(kind)[id] in s.peers
    ensures var t := Unlist(s, kind, id); t.peers == s.peers && t.queue == s.queue && t.maxPeers == s.maxPeers
  {
  }

  /** Peers and queue decide these two parts of the invariant. */
  lemma SameRest(s: Net, t: Net)
    requires s.peers == t.peers && s.queue == t.queue && s.PeersOk() && s.QueuesOk()
    ensures t.PeersOk() && t.QueuesOk()
  {
    forall j | j in t.peers ensures t.QueueOk(j) {
      assert s.QueueOk(j);
    }
  }

  function Gone(p: Peer): (q: Peer) {
    p.(handledDone := true, doneCalls := p.doneCalls + if p.added then 1 else 0)
  }

  lemma HandleDoneValid(s: Net)
    requires s.Valid() && s.queue != [] && s.queue[0].Done?
    ensures HandleDone.requires(Pop(s), s.queue[0].ref) && HandleDone(Pop(s), s.queue[0].ref).Valid()
    ensures !Listed(HandleDone(Pop(s), s.queue[0].ref), s.queue[0].ref)
  {
    hide Net.MapsOk, Net.AllListed, Net.GroupsOk, Net.IdsOk, Net.QueuesOk, Net.PeersOk, Unlist, Net.Count, Peer.Ok;
    HeadFacts(s);
    var u, i := Pop(s), s.queue[0].ref;
    var kind, id := KindOf(u.peers[i]), u.peers[i].id;
    if id in u.Of(kind) {
      EntryFacts(u, kind, id);
      SameIdSamePeer(u, i, u.Of(kind)[id]);
      UnlistMaps(u, kind, id);
      UnlistListed(u, kind, id);
      UnlistRest(u, kind, id);
      Departed(s, Unlist(u, kind, id));
    } else {
      NowhereElse(u, i);
      ListedBut(u, i);
      Departed(s, u);
    }
  }

  lemma ListedBut(s: Net, i: Ref)
    requires s.AllListed({})
    ensures s.AllListed({i})
  {
  }

  /** Marking a peer as done once no map lists it. */
  lemma Departed(s: Net, u: Net)
    requires s.Valid() && s.queue != [] && s.queue[0].Done? && s.queue[0].ref in s.peers
    requires u.peers == s.peers && u.queue == s.queue[1..] && u.maxPeers == s.maxPeers && u.Count() <= s.Count()
    requires u.IdsOk() && u.MapsOk() && u.AllListed({s.queue[0].ref}) && u.GroupsOk() && !Listed(u, s.queue[0].ref)
    ensures var i := s.queue[0].ref; var t := SetPeer(u, i, Gone(u.peers[i])); t.Valid() && !Listed(t, i)
  {
    hide Net.MapsOk, Net.AllListed, Net.GroupsOk, Net.IdsOk, Net.QueuesOk, Net.PeersOk, Net.Count, Peer.Ok, Listed, Gone;
    HeadFacts(s);
    var i := s.queue[0].ref;
    var q := Gone(s.peers[i]);
    GoneFlags(s.peers[i]);
    PopQueues(s, i, q);
    GoneOk(s.peers[i]);
    SetPeerOk(Pop(s), i, q);
    SameRest(SetPeer(Pop(s), i, q), SetPeer(u, i, q));
    UnlistedMaps(u, i, q);
    UnlistedListed(u, i, q);
    StaysUnlisted(u, i, q);
    SameCount(u, i, q);
  }

  lemma GoneFlags(p: Peer)
    ensures var q := Gone(p);
      q.id == p.id && q.sentAdd == p.sentAdd && q.sentDone == p.sentDone && q.handledAdd == p.handledAdd && q.handledDone
  {
  }

  lemma GoneOk(p: Peer)
    requires p.Ok() && p.sentDone && !p.handledDone && (p.sentAdd ==> p.handledAdd)
    ensures Gone(p).Ok()
  {
  }

  lemma SameCount(s: Net, i: Ref, q: Peer)
    ensures SetPeer(s, i, q).Count() == s.Count()
  {
  }

  lemma SameIdSamePeer(s: Net, i: Ref, j: Ref)
    requires s.PeersOk() && s.IdsOk() && i in s.peers && j in s.peers && s.peers[i].id == s.peers[j].id && s.peers[j].added
    ensures i == j
  {
    assert s.peers[j].Ok();
  }

  lemma StaysUnlisted(s: Net, i: Ref, q: Peer)
    requires !Listed(s, i)
    ensures !Listed(SetPeer(s, i, q), i)
  {
    var t := SetPeer(s, i, q);
    forall kind: Kind ensures i !in t.Of(kind).Values {
      assert t.Of(kind) == s.Of(kind);
    }
  }

  /** A peer is listed only in the map of its kind and under its id. */
  lemma NowhereElse(s: Net, i: Ref)
    requires s.MapsOk() && i in s.peers && s.peers[i].id !in s.Of(KindOf(s.peers[i]))
    ensures !Listed(s, i)
  {
    forall kind: Kind ensures i !in s.Of(kind).Values {
      forall id | id in s.Of(kind) ensures s.Of(kind)[id] != i {
        EntryFacts(s, kind, id);
      }
    }
  }

  lemma KickValid(s: Net, kind: Kind, id: nat)
    requires s.Valid() && id in s.Of(kind)
    ensures s.Of(kind)[id] in s.peers && Kick(s, kind, id).Valid()
  {
    hide Net.MapsOk, Net.AllListed, Net.GroupsOk, Net.IdsOk, Net.QueuesOk, Net.PeersOk, Unlist, Net.Count;
    EntryFacts(s, kind, id);
    var i := s.Of(kind)[id];
    var q := Kicked(s.peers[i]);
    PeerFacts(s, i);
    UnlistMaps(s, kind, id);
    UnlistListed(s, kind, id);
    UnlistRest(s, kind, id);
    SetPeerQueues(s, i, q);
    SetPeerOk(s, i, q);
    SameRest(SetPeer(s, i, q), SetPeer(Unlist(s, kind, id), i, q));
    UnlistedMaps(Unlist(s, kind, id), i, q);
    UnlistedListed(Unlist(s, kind, id), i, q);
    SameCount(Unlist(s, kind, id), i, q);
  }

  lemma PeerFacts(s: Net, i: Ref)
    requires s.PeersOk() && i in s.peers
    ensures s.peers[i].Ok()
  {
  }

  // ---------------------------------------------------------------------------
  // Runs
  // ---------------------------------------------------------------------------

  /** One step of a connection, of its lifecycle goroutine, of the server or of an administrator. */
  datatype Step =
    | DoConnect(i: Ref, inbound: bool, persistent: bool, group: Group)
    | DoVersion(i: Ref, id: nat)
    | DoVerAck(i: Ref)
    | DoDisconnect(i: Ref)
    | DoSendAdd(i: Ref)
    | DoSkip(i: Ref)
    | DoSendDone(i: Ref)
    | DoHandle(refuse: bool)
    | DoKick(kind: Kind, id: nat)

  /** When a step can be taken: what the protocol makes it wait for. */
  ghost predicate Enabled(s: Net, step: Step) {
    match step
    case DoConnect(i, inbound, persistent, _) => i !in s.peers && (inbound ==> !persistent)
    case DoVersion(i, id) => i in s.peers && !s.peers[i].versionKnown && id > 0 && forall j :: j in s.peers ==> s.peers[j].id != id
    case DoVerAck(i) => i in s.peers && s.peers[i].versionKnown
    case DoDisconnect(i) => i in s.peers
    case DoSendAdd(i) => i in s.peers && !s.peers[i].decided && s.peers[i].verAck
    case DoSkip(i) => i in s.peers && !s.peers[i].decided && !s.peers[i].connected
    case DoSendDone(i) => i in s.peers && s.peers[i].decided && !s.peers[i].connected && !s.peers[i].sentDone
    case DoHandle(_) => s.queue != [] && CanHandle(s, s.queue[0])
    case DoKick(kind, id) => id in s.Of(kind) && s.Of(kind)[id] in s.peers
  }

  predicate CanHandle(s: Net, e: Event) {
    && e.ref in s.peers
    && var id, kind := s.peers[e.ref].id, KindOf(s.peers[e.ref]);
       id in s.Of(kind) ==> s.Of(kind)[id] in s.peers
  }

  function After(s: Net, step: Step): (t: Net)
    requires Enabled(s, step)
  {
    match step
    case DoConnect(i, inbound, persistent, group) => Connect(s, i, inbound, persistent, group)
    case DoVersion(i, id) => Version(s, i, id)
    case DoVerAck(i) => VerAck(s, i)
    case DoDisconnect(i) => Disconnect(s, i)
    case DoSendAdd(i) => SendAdd(s, i)
    case DoSkip(i) => Skip(s, i)
    case DoSendDone(i) => SendDone(s, i)
    case DoHandle(refuse) => Handle(s, refuse)
    case DoKick(kind, id) => Kick(s, kind, id)
  }

  /** The server takes the next event from the queue. */
  function Handle(s: Net, refuse: bool): (t: Net)
    requires s.queue != [] && CanHandle(s, s.queue[0])
  {
    if s.queue[0].Add? then HandleAdd(Pop(s), s.queue[0].ref, refuse) else HandleDone(Pop(s), s.queue[0].ref)
  }

  lemma StepValid(s: Net, step: Step)
    requires s.Valid() && Enabled(s, step)
    ensures After(s, step).Valid()
  {
    hide Net.Valid, Connect, Version, VerAck, Disconnect, SendAdd, Skip, SendDone, HandleAdd, HandleDone, Kick, Pop, CanHandle;
    match step
    case DoConnect(i, inbound, persistent, group) => ConnectValid(s, i, inbound, persistent, group);
    case DoVersion(i, id) => VersionValid(s, i, id);
    case DoVerAck(i) => FlagValid(s, i);
    case DoDisconnect(i) => FlagValid(s, i);
    case DoSendAdd(i) => SendAddValid(s, i);
    case DoSkip(i) => FlagValid(s, i);
    case DoSendDone(i) => SendDoneValid(s, i);
    case DoHandle(refuse) => if s.queue[0].Add? { HandleAddValid(s, refuse); } else { HandleDoneValid(s); }
    case DoKick(kind, id) => KickValid(s, kind, id);
  }

  /** Steps that only set a flag. */
  lemma FlagValid(s: Net, i: Ref)
    requires s.Valid() && i in s.peers
    ensures Disconnect(s, i).Valid() && Skip(s, i).Valid() && (s.peers[i].versionKnown ==> VerAck(s, i).Valid())
  {
    hide Net.QueuesOk, Net.MapsOk, Net.AllListed, Net.GroupsOk, Net.IdsOk;
    assert s.peers[i].Ok();
    SetPeerValid(s, i, s.peers[i].(connected := false));
    SetPeerValid(s, i, s.peers[i].(decided := true));
    if s.peers[i].versionKnown {
      SetPeerValid(s, i, s.peers[i].(verAck := true));
    }
  }

  ghost predicate Run(states: seq<Net>, steps: seq<Step>) {
    && |states| == |steps| + 1 && states[0] == Start(states[0].maxPeers)
    && forall n :: 0 <= n < |steps| ==> Enabled(states[n], steps[n]) && states[n + 1] == After(states[n], steps[n])
  }

  /**
   Every state of every run: group counts are exact and never negative, there are never more than
   the allowed number of peers, the sync manager hears of each peer at most once, and of its end at
   most once and only after that, and the maps list exactly the peers that were added and neither
   finished nor removed by a query.
   */
  lemma {:induction false} RunSafe(states: seq<Net>, steps: seq<Step>, n: nat)
    requires Run(states, steps) && n < |states|
    ensures var s := states[n];
      && s.Valid() && s.Count() <= s.maxPeers
      && (forall g :: s.Groups(g) == |s.InGroup(g)|)
      && (forall i :: i in s.peers ==> s.peers[i].doneCalls <= s.peers[i].newCalls <= 1)
      && (forall i :: i in s.peers ==> (Listed(s, i) <==> s.peers[i].Active()))
    decreases n
  {
    hide Enabled, After, Listed, Net.QueuesOk, Net.IdsOk, Net.Count;
    if n == 0 {
      StartValid(states[0].maxPeers);
    } else {
      RunSafe(states, steps, n - 1);
      StepValid(states[n - 1], steps[n - 1]);
    }
    var s := states[n];
    forall i | i in s.peers ensures s.peers[i].doneCalls <= s.peers[i].newCalls <= 1 {
      assert s.peers[i].Ok();
    }
    forall i | i in s.peers ensures Listed(s, i) <==> s.peers[i].Active() {
      ListedIffActive(s, i);
    }
  }

  lemma ListedIffActive(s: Net, i: Ref)
    requires s.MapsOk() && s.AllListed({}) && i in s.peers
    ensures Listed(s, i) <==> s.peers[i].Active()
  {
    if s.peers[i].Active() {
      assert s.Holds(KindOf(s.peers[i]), i);
      assert i in s.Of(KindOf(s.peers[i])).Values;
    } else {
      ListedFacts(s, i);
    }
  }

  /** When every connection has ended and every event has been handled, nothing is left behind. */
  lemma NothingLeaks(s: Net)
    requires s.Valid() && s.queue == [] && forall i :: i in s.peers ==> s.peers[i].sentDone
    ensures s.Count() == 0 && (forall g :: s.Groups(g) == 0)
    ensures forall i :: i in s.peers ==> s.peers[i].newCalls == s.peers[i].doneCalls
  {
    forall i | i in s.peers ensures s.peers[i].handledDone && s.peers[i].newCalls == s.peers[i].doneCalls {
      assert s.QueueOk(i) && s.peers[i].Ok();
    }
    forall kind: Kind ensures s.Of(kind) == map[] {
      forall id | id in s.Of(kind) ensures s.EntryOk(kind, id) {
      }
    }
    assert s.Of(Inbound) == map[] && s.Of(Outbound) == map[] && s.Of(Persistent) == map[];
    forall g ensures s.Groups(g) == 0 {
      assert s.InGroup(g) == {};
    }
  }
}
