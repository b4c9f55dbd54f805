/** The indexes over every sequence of handler steps of one node. */
module NodeRuns {
  import opened Bits
  import opened Types
  import opened Peers
  import opened Retry
  import opened Routes
  import opened Cache
  import opened Nodes

  datatype Action =
    | Dial(addr: Addr, peerId: Option<Id>, sid: u32, salt: nat, now: Millis)
    | Hear1(request: Request, src: Addr, sid: u32, salt: nat, victim: Request, now: Millis)
    | Hear2(reply: Reply, src: Addr, now: Millis)
    | Forget(id: Id)
    | Retransmit(now: Millis, relays: seq<Relay>)
    | SweepCache(now: Millis)
    | LighthouseMoved(slot: nat, address: Addr)
    | Traffic(id: Id, path: Peer)

  /** A lighthouse whose name resolves to a new address is no longer known to be a peer. */
  function MoveSlot(slots: seq<Slot>, i: nat, address: Addr): seq<Slot> {
    if i < |slots| && slots[i].address != address
    then slots[i := slots[i].(address := address, peerId := None)] else slots
  }

  /** Session packets, keepalives and probes change a peer's path state (module Peers)
      and nothing else; here they may change it to anything. */
  function SetPath(n: Node, id: Id, path: Peer): Node {
    if id in n.peers then n.(peers := n.peers[id := n.peers[id].(path := path)]) else n
  }

  ghost function Act(n: Node, a: Action): Node {
    match a
    case Dial(addr, peerId, sid, salt, now) => StartHandshake(n, addr, peerId, sid, salt, now).0
    case Hear1(request, src, sid, salt, victim, now) => HandleHandshake1(n, request, src, sid, salt, victim, now).0
    case Hear2(reply, src, now) => HandleHandshake2(n, reply, src, now)
    case Forget(id) => RemovePeer(n, id)
    case Retransmit(now, relays) => n.(pending := TickAll(n.pending, now, n.cfg, relays))
    case SweepCache(now) => n.(cache := Live(n.cache, now))
    case LighthouseMoved(i, address) => n.(lighthouses := MoveSlot(n.lighthouses, i, address))
    case Traffic(id, path) => SetPath(n, id, path)
  }

  ghost function Run(n: Node, actions: seq<Action>): Node {
    if actions == [] then n else Act(Run(n, actions[..|actions| - 1]), actions[|actions| - 1])
  }

  lemma PathKeepsIndexes(n: Node, id: Id, path: Peer)
    ensures var n' := SetPath(n, id, path);
            (Consistent(n) ==> Consistent(n')) && (Findable(n) ==> Findable(n'))
  {
    var n' := SetPath(n, id, path);
    assert n'.peers.Keys == n.peers.Keys;
    assert forall k | k in n.peers :: n'.peers[k].rxSid == n.peers[k].rxSid;
  }

  lemma NoteSetsPath(n: Node, id: Id, addr: Addr) returns (path: Peer)
    ensures NoteDirectEndpoint(n, id, addr) == SetPath(n, id, path)
  {
    path := Peer(addr, None, false, 0, 0, None, None, 0, None);
    if id in n.peers {
      path := if AddrIsRelay(n.peers, addr) then n.peers[id].path else LearnEndpoint(n.peers[id].path, addr);
      assert n.peers[id := n.peers[id]] == n.peers;
    }
  }

  lemma ActKeepsConsistent(n: Node, a: Action)
    requires Consistent(n)
    ensures Consistent(Act(n, a))
  {
    match a
    case Hear1(request, src, sid, salt, victim, now) =>
      var cached := Find(n.cache, request, now);
      if cached.Some? {
        var path := NoteSetsPath(n, cached.value.peerId, src);
        PathKeepsIndexes(n, cached.value.peerId, path);
      } else if request.sender.id != n.self.id {
        var reply := Reply(request, n.self, sid, salt);
        AddKeepsConsistent(n.(cache := Put(n.cache, request, Cached(reply, request.sender.id, now), victim)),
                           ResponderOffer(n, request, src, reply), now);
      }
    case Hear2(reply, src, now) =>
      if Expects(n, reply) {
        AddKeepsConsistent(n.(pending := n.pending - {reply.request.rxSid}), InitiatorOffer(n, reply, src), now);
      }
    case Forget(id) => RemoveKeepsConsistent(n, id);
    case Traffic(id, path) => PathKeepsIndexes(n, id, path);
    case _ =>
  }

  /** After every sequence of steps each session id, route and bound lighthouse names a
      live peer, and a session id names the peer that uses it. */
  lemma {:induction false} IndexesAlwaysAgree(n: Node, actions: seq<Action>)
    requires Consistent(n)
    ensures Consistent(Run(n, actions))
  {
    if actions != [] {
      IndexesAlwaysAgree(n, actions[..|actions| - 1]);
      ActKeepsConsistent(Run(n, actions[..|actions| - 1]), actions[|actions| - 1]);
    }
  }

  /** A node as it boots: no sessions, and its configured lighthouses not yet met. */
  function StartOf(self: Identity, cfg: Timings, lighthouses: seq<(string, Addr)>): Node {
    Nodes.Node(self, cfg, map[], map[], [], map[],
      seq(|lighthouses|, i requires 0 <= i < |lighthouses| => Slot(lighthouses[i].0, lighthouses[i].1, None)), map[])
  }

  /** A booted node satisfies every index property above. */
  lemma BootsConsistent(self: Identity, cfg: Timings, lighthouses: seq<(string, Addr)>)
    ensures var n := StartOf(self, cfg, lighthouses); Consistent(n) && Findable(n) && DialsDistinct(n)
  {}

  /** The session a step would establish, if any, does not reuse a live peer's
      receiving session id. */
  ghost predicate FreshSid(n: Node, a: Action) {
    match a
    case Hear1(request, src, sid, salt, victim, now) =>
      Find(n.cache, request, now).None? ==>
        SidIsFree(n, ResponderOffer(n, request, src, Reply(request, n.self, sid, salt)))
    case Hear2(reply, src, now) => Expects(n, reply) ==> SidIsFree(n, InitiatorOffer(n, reply, src))
    case _ => true
  }

  lemma ActKeepsFindable(n: Node, a: Action)
    requires Consistent(n) && Findable(n) && FreshSid(n, a)
    ensures Findable(Act(n, a))
  {
    match a
    case Hear1(request, src, sid, salt, victim, now) =>
      var cached := Find(n.cache, request, now);
      if cached.Some? {
        var path := NoteSetsPath(n, cached.value.peerId, src);
        PathKeepsIndexes(n, cached.value.peerId, path);
      } else if request.sender.id != n.self.id {
        var reply := Reply(request, n.self, sid, salt);
        AddKeepsFindable(n.(cache := Put(n.cache, request, Cached(reply, request.sender.id, now), victim)),
                         ResponderOffer(n, request, src, reply), now);
      }
    case Hear2(reply, src, now) =>
      if Expects(n, reply) {
        AddKeepsFindable(n.(pending := n.pending - {reply.request.rxSid}), InitiatorOffer(n, reply, src), now);
      }
    case Forget(id) => RemoveKeepsFindable(n, id);
    case Traffic(id, path) => PathKeepsIndexes(n, id, path);
    case _ =>
  }

  lemma AddKeepsFindable(n: Node, o: Offer, now: Millis)
    requires Consistent(n) && Findable(n) && SidIsFree(n, o)
    ensures Findable(AddPeer(n, o, now))
  {
    if Admits(n, o) {
      FindableExactlyWhenFree(n, o, now);
    }
  }

  ghost predicate FreshThroughout(n: Node, actions: seq<Action>) {
    forall i | 0 <= i < |actions| :: FreshSid(Run(n, actions[..i]), actions[i])
  }

  /** Given fresh session ids, every live peer is found through its own id, always. */
  lemma {:induction false} PeersAlwaysFindable(n: Node, actions: seq<Action>)
    requires Consistent(n) && Findable(n) && FreshThroughout(n, actions)
    ensures Findable(Run(n, actions))
  {
    if actions != [] {
      var k := |actions| - 1;
      forall i | 0 <= i < k
        ensures FreshSid(Run(n, actions[..k][..i]), actions[..k][i])
      {
        assert actions[..k][..i] == actions[..i];
      }
      PeersAlwaysFindable(n, actions[..k]);
      IndexesAlwaysAgree(n, actions[..k]);
      ActKeepsFindable(Run(n, actions[..k]), actions[k]);
    }
  }

  /** Dials in flight stay distinct per peer id, so the entry a handshake_1 is matched
      against is unique. */
  lemma {:induction false} DialsStayDistinct(n: Node, actions: seq<Action>)
    requires DialsDistinct(n)
    ensures DialsDistinct(Run(n, actions))
  {
    if actions != [] {
      var before, a := Run(n, actions[..|actions| - 1]), actions[|actions| - 1];
      DialsStayDistinct(n, actions[..|actions| - 1]);
      if a.Dial? {
        StartKeepsDialsDistinct(before, a.addr, a.peerId, a.sid, a.salt, a.now);
      } else {
        OthersOnlyDrop(before, a);
      }
    }
  }

  lemma OthersOnlyDrop(n: Node, a: Action)
    requires !a.Dial?
    ensures forall k | k in Act(n, a).pending :: k in n.pending && Act(n, a).pending[k].peerId == n.pending[k].peerId
  {}

  // ------------------------------------------------ the daemon's handlers

  class Daemon {
    const self: Identity
    const cfg: Timings
    var peers: map<Id, Session>
    var pending: map<u32, Pending<Request>>
    var routes: Table
    var rxSessions: map<u32, Id>
    var lighthouses: seq<Slot>
    var cache: Entries<Request, Reply>

    ghost function View(): Node
      reads this
    {
      Nodes.Node(self, cfg, peers, pending, routes, rxSessions, lighthouses, cache)
    }

    constructor (self: Identity, cfg: Timings, lighthouses: seq<(string, Addr)>)
      ensures View() == StartOf(self, cfg, lighthouses)
    {
      this.self, this.cfg := self, cfg;
      peers, pending, routes, rxSessions, cache := map[], map[], [], map[], map[];
      this.lighthouses := seq(|lighthouses|,
                              i requires 0 <= i < |lighthouses| => Slot(lighthouses[i].0, lighthouses[i].1, None));
    }

    method AddPeer(o: Offer, now: Millis) returns (added: bool)
      modifies this
      ensures View() == Nodes.AddPeer(old(View()), o, now)
      ensures added <==> Admits(old(View()), o)
    {
      var existing := ExistingInitiator(peers, o.id);
      if !AcceptHandshakeSession(self.id, o.id, existing, o.initiator, o.simultaneous) {
        return false;
      }
      var direct := o.directAddr;
      if direct.None? && o.id in peers {
        direct := peers[o.id].path.directAddr;
      }
      var relayed := o.relayed && direct != Some(o.addr);
      if o.id in peers {
        rxSessions := rxSessions - {peers[o.id].rxSid};
      }
      peers := peers[o.id := Session(o.who.name, o.who.isRelay, o.who.networks,
                                     TrafficKey(o.key, self.id, o.id), TrafficKey(o.key, o.id, self.id),
                                     o.txSid, o.rxSid, o.initiator,
                                     Peer(o.addr, direct, relayed, now, now, None, None, cfg.directProbeInterval,
                                          None))];
      rxSessions := rxSessions[o.rxSid := o.id];
      routes := InsertNetworks(routes, o.who.networks, o.id);
      lighthouses := BindLighthouse(lighthouses, o.addr, o.who.name, o.id);
      return true;
    }

    method RemovePeer(id: Id)
      modifies this
      ensures View() == Nodes.RemovePeer(old(View()), id)
    {
      if id !in peers {
        return;
      }
      rxSessions := rxSessions - {peers[id].rxSid};
      peers := peers - {id};
      routes := Retain(routes, OfPeer(id));
      lighthouses := UnbindLighthouse(lighthouses, id);
    }

    /** The peer an overlay packet to this address is sent to. */
    method Route(ip: Ip) returns (r: Option<Id>)
      ensures IsLookup(routes, ip, r)
    {
      r := FindBest(routes, ip);
    }

    method StartHandshake(addr: Addr, peerId: Option<Id>, sid: u32, salt: nat, now: Millis)
      returns (sent: Option<Request>)
      modifies this
      ensures (View(), sent) == Nodes.StartHandshake(old(View()), addr, peerId, sid, salt, now)
    {
      var duplicate := exists k | k in pending :: SameTarget(pending[k], addr, peerId);
      if duplicate {
        return None;
      }
      var request := Request(self, sid, salt);
      pending := pending[sid := NewPending(request, addr, peerId, now)];
      return Some(request);
    }

    method HandleHandshake1(request: Request, src: Addr, sid: u32, salt: nat, now: Millis)
      returns (reply: Option<Reply>, ghost victim: Request)
      requires DialsDistinct(View())
      modifies this
      ensures cache != old(cache) ==> IsVictim(old(cache), now, victim)
      ensures (View(), reply) == Nodes.HandleHandshake1(old(View()), request, src, sid, salt, victim, now)
    {
      victim := request;
      var cached := Find(cache, request, now);
      if cached.Some? {
        var known := cached.value.peerId;
        if !AddrIsRelay(peers, src) && known in peers {
          peers := peers[known := peers[known].(path := LearnEndpoint(peers[known].path, src))];
        }
        return Some(cached.value.response), victim;
      }
      var id := request.sender.id;
      if id == self.id {
        return None, victim;
      }
      var answer := Reply(request, self, sid, salt);
      var relayed := AddrIsRelay(peers, src);
      var direct := if relayed then None else Some(src);
      var simultaneous := Dialling(pending, id);
      if k :| k in pending && pending[k].peerId == Some(id) {
        direct := Some(pending[k].directAddr);
      }
      cache, victim := PutEntry(cache, request, Cached(answer, id, now));
      var _ := AddPeer(Offer(id, request.sender, SessionKey(request, answer), src, direct, relayed,
                             request.rxSid, sid, id, simultaneous), now);
      return Some(answer), victim;
    }

    method HandleHandshake2(reply: Reply, src: Addr, now: Millis)
      modifies this
      ensures View() == Nodes.HandleHandshake2(old(View()), reply, src, now)
    {
      var sid := reply.request.rxSid;
      if sid !in pending {
        return;
      }
      var handshake := pending[sid];
      if handshake.message != reply.request {
        return;
      }
      var id := reply.sender.id;
      if handshake.peerId.Some? && handshake.peerId.value != id {
        return;
      }
      pending := pending - {sid};
      var relayed := src != handshake.directAddr || AddrIsRelay(peers, src);
      var simultaneous := id in peers && peers[id].initiator != self.id;
      var _ := AddPeer(Offer(id, reply.sender, SessionKey(reply.request, reply), src, Some(handshake.directAddr),
                             relayed, reply.rxSid, sid, self.id, simultaneous), now);
    }
  }

  method InsertNetworks(routes: Table, networks: seq<Net>, id: Id) returns (r: Table)
    ensures r == InsertAll(routes, networks, id)
  {
    r := routes;
    for i := 0 to |networks|
      invariant r == InsertAll(routes, networks[..i], id)
    {
      assert networks[..i + 1][..i] == networks[..i];
      r := Retain(r, OfNet(networks[i])) + [(networks[i], id)];
    }
    assert networks[..|networks|] == networks;
  }

  method BindLighthouse(slots: seq<Slot>, addr: Addr, name: string, id: Id) returns (r: seq<Slot>)
    ensures r == Bound(slots, addr, name, id)
  {
    r := slots;
    for i := 0 to |slots|
      invariant |r| == |slots|
      invariant forall j | 0 <= j < |slots| :: r[j] == if j < i then Bound(slots, addr, name, id)[j] else slots[j]
    {
      if r[i].address == addr || r[i].name == name {
        r := r[i := r[i].(peerId := Some(id))];
      }
    }
  }

  method UnbindLighthouse(slots: seq<Slot>, id: Id) returns (r: seq<Slot>)
    ensures r == Unbound(slots, id)
  {
    r := slots;
    for i := 0 to |slots|
      invariant |r| == |slots|
      invariant forall j | 0 <= j < |slots| :: r[j] == if j < i then Unbound(slots, id)[j] else slots[j]
    {
      if r[i].peerId == Some(id) {
        r := r[i := r[i].(peerId := None)];
      }
    }
  }
}
