/** The server's peer handler: the code that adds, removes and disconnects peers. */
module PeerServer {
  import opened PeerNet

  /** Drops the first listed peer that matches, if there is one. */
  ghost predicate DropsOne(s: Net, t: Net, kind: Kind, matches: Ref -> bool, found: bool) {
    if found then exists id :: id in s.Of(kind) && s.Of(kind)[id] in s.peers && matches(s.Of(kind)[id]) && t == Kick(s, kind, id)
    else t == s && forall id :: id in s.Of(kind) ==> !matches(s.Of(kind)[id])
  }

  /** What is left of a map once every match is gone. */
  function Unmatched(m: map<nat, Ref>, matches: Ref -> bool): (r: map<nat, Ref>) {
    map id | id in m && !matches(m[id]) :: m[id]
  }

  class Server {
    var peers: map<Ref, Peer>
    var queue: seq<Event>
    var inboundPeers: map<nat, Ref>
    var outboundPeers: map<nat, Ref>
    var persistentPeers: map<nat, Ref>
    var outboundGroups: map<Group, int>
    const maxPeers: nat

    function State(): (s: Net)
      reads this
    {
      Net(peers, queue, inboundPeers, outboundPeers, persistentPeers, outboundGroups, maxPeers)
    }

    ghost predicate Valid()
      reads this
    {
      State().Valid()
    }

    constructor (maxPeers: nat)
      ensures State() == Start(maxPeers) && Valid()
    {
      this.maxPeers := maxPeers;
      peers, queue, inboundPeers, outboundPeers, persistentPeers, outboundGroups := map[], [], map[], map[], map[], map[];
      StartValid(maxPeers);
    }

    function GroupCount(g: Group): (n: int)
      reads this
    {
      if g in outboundGroups then outboundGroups[g] else 0
    }

    method Update(i: Ref, p: Peer)
      modifies this
      ensures State() == SetPeer(old(State()), i, p)
    {
      peers := peers[i := p];
    }

    /** Files a peer in the map of its kind and counts it in its group. */
    method File(i: Ref)
      requires i in peers && (peers[i].inbound ==> !peers[i].persistent)
      modifies this
      ensures State() == Enlist(old(State()), i)
    {
      var sp := peers[i];
      if sp.inbound {
        inboundPeers := inboundPeers[sp.id := i];
      } else {
        outboundGroups := outboundGroups[sp.group := GroupCount(sp.group) + 1];
        if sp.persistent {
          persistentPeers := persistentPeers[sp.id := i];
        } else {
          outboundPeers := outboundPeers[sp.id := i];
        }
      }
    }

    /** Takes an entry out of its map and, unless it is inbound, out of its group. */
    method Unfile(kind: Kind, id: nat, group: Group)
      requires id in State().Of(kind) && State().Of(kind)[id] in peers && group == peers[State().Of(kind)[id]].group
      modifies this
      ensures State() == Unlist(old(State()), kind, id)
    {
      if kind != Inbound {
        outboundGroups := outboundGroups[group := GroupCount(group) - 1];
      }
      match kind {
        case Inbound => inboundPeers := inboundPeers - {id};
        case Outbound => outboundPeers := outboundPeers - {id};
        case Persistent => persistentPeers := persistentPeers - {id};
      }
    }

    /** `handleAddPeerMsg`: files a connected peer unless it is unwanted or there are too many. */
    method HandleAddPeerMsg(i: Ref, unwanted: bool) returns (ok: bool)
      requires i in peers && (peers[i].inbound ==> !peers[i].persistent)
      modifies this
      ensures State() == HandleAdd(old(State()), i, unwanted)
      ensures ok <==> old(peers[i].connected && !unwanted && State().Count() < maxPeers)
    {
      hide Enlist, SetPeer;
      var sp := peers[i];
      if !sp.connected {
        Update(i, sp.(handledAdd := true));
        return false;
      }
      if unwanted || |inboundPeers| + |outboundPeers| + |persistentPeers| >= maxPeers {
        Update(i, sp.(handledAdd := true, connected := false));
        return false;
      }
      File(i);
      Update(i, sp.(handledAdd := true, added := true, newCalls := sp.newCalls + 1));
      return true;
    }

    /** `handleDonePeerMsg`: unfiles a peer and tells the sync manager about the ones it knows. */
    method HandleDonePeerMsg(i: Ref)
      requires i in peers
      requires var p := peers[i]; p.id in State().Of(KindOf(p)) ==> State().Of(KindOf(p))[p.id] == i && p.versionKnown
      modifies this
      ensures State() == HandleDone(old(State()), i)
    {
      hide Unlist, SetPeer;
      var sp := peers[i];
      var kind := if sp.persistent then Persistent else if sp.inbound then Inbound else Outbound;
      if sp.id in State().Of(kind) {
        // A filed peer has sent its version, so that its group is counted down with it.
        assert sp.versionKnown;
        Unfile(kind, sp.id, sp.group);
      }
      Update(i, sp.(handledDone := true, doneCalls := sp.doneCalls + if sp.added then 1 else 0));
    }

    /** One turn of the handler loop for a lifecycle event. */
    method HandleEvent(unwanted: bool)
      requires Valid() && queue != []
      modifies this
      ensures Valid() && CanHandle(old(State()), old(queue[0])) && State() == Handle(old(State()), unwanted)
    {
      hide Net.Valid, HandleAdd, HandleDone, Unlist;
      ghost var s := State();
      var event := queue[0];
      HeadFacts(s);
      HeadCanHandle(s);
      queue := queue[1..];
      assert State() == Pop(s);
      if event.Add? {
        HandleAddValid(s, unwanted);
        var ok := HandleAddPeerMsg(event.ref, unwanted);
      } else {
        HandleDoneValid(s);
        HandleDonePeerMsg(event.ref);
      }
    }

    /** `disconnectPeer`: drops one listed peer that matches. */
    method DisconnectPeer(kind: Kind, matches: Ref -> bool) returns (found: bool)
      requires Valid()
      modifies this
      ensures Valid() && DropsOne(old(State()), State(), kind, matches, found)
    {
      hide Net.Valid, Kick;
      ghost var s := State();
      var list := match kind case Inbound => inboundPeers case Outbound => outboundPeers case Persistent => persistentPeers;
      var todo := list.Keys;
      while todo != {}
        invariant todo <= list.Keys && State() == s
        invariant forall id :: id in list && id !in todo ==> !matches(list[id])
        decreases |todo|
      {
        var id :| id in todo;
        todo := todo - {id};
        if matches(list[id]) {
          KickValid(s, kind, id);
          Drop(kind, id);
          return true;
        }
      }
      return false;
    }

    /** Takes an entry out of its map, keeps the group counts right and closes the connection. */
    method Drop(kind: Kind, id: nat)
      requires id in State().Of(kind) && State().Of(kind)[id] in peers
      modifies this
      ensures State() == Kick(old(State()), kind, id)
    {
      hide Unlist;
      UnlistRest(State(), kind, id);
      var i := State().Of(kind)[id];
      Unfile(kind, id, peers[i].group);
      Update(i, peers[i].(connected := false, kicked := true));
    }

    /** The remove query: drops a persistent peer. */
    method RemoveNode(matches: Ref -> bool) returns (ok: bool)
      requires Valid()
      modifies this
      ensures Valid() && DropsOne(old(State()), State(), Persistent, matches, ok)
    {
      ok := DisconnectPeer(Persistent, matches);
    }

    /** The disconnect query: drops one inbound peer that matches, or else every outbound one. */
    method DisconnectNode(matches: Ref -> bool) returns (ok: bool)
      requires Valid()
      modifies this
      ensures Valid() && queue == old(queue) && persistentPeers == old(persistentPeers)
      ensures (exists id :: id in old(inboundPeers) && matches(old(inboundPeers)[id])) ==>
                ok && DropsOne(old(State()), State(), Inbound, matches, true)
      ensures (forall id :: id in old(inboundPeers) ==> !matches(old(inboundPeers)[id])) ==>
                && inboundPeers == old(inboundPeers) && outboundPeers == Unmatched(old(outboundPeers), matches)
                && peers == SwitchedOff(old(peers), old(outboundPeers), matches)
                && (ok <==> exists id :: id in old(outboundPeers) && matches(old(outboundPeers)[id]))
    {
      hide Net.Valid, DropsOne, Unmatched, SwitchedOff;
      ghost var s := State();
      ok := DisconnectPeer(Inbound, matches);
      DropOneFacts(s, State(), Inbound, matches, ok);
      FoundMeans(s, State(), Inbound, matches, ok);
      assert State().Of(Persistent) == s.Of(Persistent);
      if ok {
        return;
      }
      ok := DropAllOutbound(matches);
    }

    /** Drops outbound peers until none matches. */
    method DropAllOutbound(matches: Ref -> bool) returns (ok: bool)
      requires Valid()
      modifies this
      ensures Valid() && queue == old(queue) && persistentPeers == old(persistentPeers)
      ensures inboundPeers == old(inboundPeers) && outboundPeers == Unmatched(old(outboundPeers), matches)
      ensures peers == SwitchedOff(old(peers), old(outboundPeers), matches)
      ensures ok <==> exists id :: id in old(outboundPeers) && matches(old(outboundPeers)[id])
    {
      hide Net.Valid, DropsOne, Unmatched, SwitchedOff;
      ghost var s := State();
      ok := DisconnectPeer(Outbound, matches);
      DropOneFacts(s, State(), Outbound, matches, ok);
      FoundMeans(s, State(), Outbound, matches, ok);
      var found := ok;
      while found
        invariant Valid() && OnlyOutbound(s, State()) && Unmatched(outboundPeers, matches) == Unmatched(s.outboundPeers, matches)
        invariant SwitchedOff(peers, outboundPeers, matches) == SwitchedOff(s.peers, s.outboundPeers, matches)
        invariant !found ==> forall id :: id in outboundPeers ==> !matches(outboundPeers[id])
        decreases found, |outboundPeers|
      {
        ghost var u := State();
        found := DisconnectPeer(Outbound, matches);
        DropOneFacts(u, State(), Outbound, matches, found);
        FoundMeans(u, State(), Outbound, matches, found);
      }
      AllUnmatched(peers, outboundPeers, matches);
    }
  }

  /** The peers once every match of a map has been disconnected. */
  function SwitchedOff(peers: map<Ref, Peer>, m: map<nat, Ref>, matches: Ref -> bool): (r: map<Ref, Peer>) {
    map i | i in peers :: if matches(i) && i in m.Values then Kicked(peers[i]) else peers[i]
  }

  predicate OnlyOutbound(s: Net, t: Net) {
    t.queue == s.queue && t.Of(Inbound) == s.Of(Inbound) && t.Of(Persistent) == s.Of(Persistent)
  }

  lemma FoundMeans(s: Net, t: Net, kind: Kind, matches: Ref -> bool, found: bool)
    requires DropsOne(s, t, kind, matches, found)
    ensures found <==> exists id :: id in s.Of(kind) && matches(s.Of(kind)[id])
  {
  }

  /** What dropping at most one peer leaves alone. */
  lemma DropOneFacts(s: Net, t: Net, kind: Kind, matches: Ref -> bool, found: bool)
    requires DropsOne(s, t, kind, matches, found)
    ensures t.queue == s.queue && (forall k: Kind :: k != kind ==> t.Of(k) == s.Of(k))
    ensures Unmatched(t.Of(kind), matches) == Unmatched(s.Of(kind), matches)
    ensures SwitchedOff(t.peers, t.Of(kind), matches) == SwitchedOff(s.peers, s.Of(kind), matches)
    ensures if found then |t.Of(kind)| < |s.Of(kind)| else t == s
  {
    hide Kick, Unmatched, SwitchedOff;
    if found {
      var id :| id in s.Of(kind) && s.Of(kind)[id] in s.peers && matches(s.Of(kind)[id]) && t == Kick(s, kind, id);
      KickFacts(s, kind, id);
      UnmatchedLess(s.Of(kind), id, matches);
      SwitchedOne(s.peers, s.Of(kind), id, matches);
    }
  }

  lemma KickFacts(s: Net, kind: Kind, id: nat)
    requires id in s.Of(kind) && s.Of(kind)[id] in s.peers
    ensures var t := Kick(s, kind, id);
      && t.queue == s.queue && t.Of(kind) == s.Of(kind) - {id} && (forall k: Kind :: k != kind ==> t.Of(k) == s.Of(k))
      && var i := s.Of(kind)[id]; t.peers == s.peers[i := Kicked(s.peers[i])]
  {
  }

  lemma UnmatchedLess(m: map<nat, Ref>, id: nat, matches: Ref -> bool)
    requires id in m && matches(m[id])
    ensures Unmatched(m - {id}, matches) == Unmatched(m, matches) && |m - {id}| == |m| - 1
  {
  }

  lemma SwitchedOne(peers: map<Ref, Peer>, m: map<nat, Ref>, id: nat, matches: Ref -> bool)
    requires id in m && matches(m[id]) && m[id] in peers
    ensures SwitchedOff(peers[m[id] := Kicked(peers[m[id]])], m - {id}, matches) == SwitchedOff(peers, m, matches)
  {
    var less := m - {id};
    forall i | i in m.Values && i != m[id] ensures i in less.Values {
      var d :| d in m && m[d] == i;
      assert less[d] == i;
    }
    forall i | i in less.Values ensures i in m.Values {
      var d :| d in less && less[d] == i;
      assert m[d] == i;
    }
    assert m[id] in m.Values;
  }

  lemma AllUnmatched(peers: map<Ref, Peer>, m: map<nat, Ref>, matches: Ref -> bool)
    requires forall id :: id in m ==> !matches(m[id])
    ensures Unmatched(m, matches) == m && SwitchedOff(peers, m, matches) == peers
  {
  }

  /** The head of the queue can be handled; a peer that is filed under its id is the one itself. */
  lemma HeadCanHandle(s: Net)
    requires s.Valid() && s.queue != []
    ensures CanHandle(s, s.queue[0])
    ensures var i := s.queue[0].ref;
      var p := s.peers[i];
      (p.inbound ==> !p.persistent) && (p.id in Pop(s).Of(KindOf(p)) ==> Pop(s).Of(KindOf(p))[p.id] == i && p.versionKnown)
  {
    hide Net.QueuesOk, Net.GroupsOk, Net.MapsOk, Net.IdsOk, Net.PeersOk, Net.Count;
    HeadFacts(s);
    var i := s.queue[0].ref;
    var kind, id := KindOf(s.peers[i]), s.peers[i].id;
    if id in s.Of(kind) {
      EntryFacts(s, kind, id);
      PeerFacts(s, s.Of(kind)[id]);
      SameIdSamePeer(s, i, s.Of(kind)[id]);
    }
  }
}
