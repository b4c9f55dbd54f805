/** One node's bookkeeping: peers, handshakes in flight, and the indexes that must
    agree with them. Handlers are atomic steps.

    Handshake messages appear here by identity: a reply names the request whose hash
    it carries, and a session key is named by the two messages it is derived from
    (module Handshake shows that both ends derive the same key from them). */
module Nodes {
  import opened Bits
  import opened Types
  import opened Peers
  import opened Retry
  import opened Routes
  import opened Cache

  /** What a node's certificate says, plus the relay flag of its handshake. */
  datatype Identity = Identity(id: Id, name: string, networks: seq<Net>, isRelay: bool)

  datatype Request = Request(sender: Identity, rxSid: u32, salt: nat)
  datatype Reply = Reply(request: Request, sender: Identity, rxSid: u32, salt: nat)

  datatype SessionKey = SessionKey(request: Request, reply: Reply)
  datatype TrafficKey = TrafficKey(session: SessionKey, src: Id, dst: Id)

  datatype Session = Session(
    name: string, isRelay: bool, networks: seq<Net>, txKey: TrafficKey, rxKey: TrafficKey,
    txSid: u32, rxSid: u32, initiator: Id, path: Peer)

  datatype Slot = Slot(name: string, address: Addr, peerId: Option<Id>)

  datatype Node = Node(
    self: Identity, cfg: Timings,
    peers: map<Id, Session>,
    pending: map<u32, Pending<Request>>,
    routes: Table,
    rxSessions: map<u32, Id>,
    lighthouses: seq<Slot>,
    cache: Entries<Request, Reply>)

  // ------------------------------------------------ the tie-break

  /** Should a freshly completed handshake replace the session we have? */
  predicate AcceptHandshakeSession(ourId: Id, peerId: Id, existing: Option<Id>, initiator: Id, simultaneous: bool) {
    if !simultaneous then true
    else if existing.None? then true
    else
      var preferred := Min(ourId, peerId);
      initiator == preferred && existing.value != preferred
  }

  // ------------------------------------------------ adding and removing peers

  /** A completed handshake, as either end presents it for admission. */
  datatype Offer = Offer(
    id: Id, who: Identity, key: SessionKey, addr: Addr, directAddr: Option<Addr>, relayed: bool,
    txSid: u32, rxSid: u32, initiator: Id, simultaneous: bool)

  function ExistingInitiator(peers: map<Id, Session>, id: Id): Option<Id> {
    if id in peers then Some(peers[id].initiator) else None
  }

  predicate Admits(n: Node, o: Offer) {
    AcceptHandshakeSession(n.self.id, o.id, ExistingInitiator(n.peers, o.id), o.initiator, o.simultaneous)
  }

  function NewSession(n: Node, o: Offer, now: Millis): Session {
    var direct := if o.directAddr.Some? then o.directAddr
                  else if o.id in n.peers then n.peers[o.id].path.directAddr else None;
    Session(o.who.name, o.who.isRelay, o.who.networks,
            TrafficKey(o.key, n.self.id, o.id), TrafficKey(o.key, o.id, n.self.id),
            o.txSid, o.rxSid, o.initiator,
            Peer(o.addr, direct, o.relayed && direct != Some(o.addr), now, now, None, None, n.cfg.directProbeInterval,
                 None))
  }

  function InsertAll(routes: Table, networks: seq<Net>, id: Id): Table {
    if networks == [] then routes
    else
      var before := InsertAll(routes, networks[..|networks| - 1], id);
      var net := networks[|networks| - 1];
      Retain(before, OfNet(net)) + [(net, id)]
  }

  function Bound(slots: seq<Slot>, addr: Addr, name: string, id: Id): seq<Slot> {
    seq(|slots|, i requires 0 <= i < |slots| =>
      if slots[i].address == addr || slots[i].name == name then slots[i].(peerId := Some(id)) else slots[i])
  }

  function Unbound(slots: seq<Slot>, id: Id): seq<Slot> {
    seq(|slots|, i requires 0 <= i < |slots| =>
      if slots[i].peerId == Some(id) then slots[i].(peerId := None) else slots[i])
  }

  function AddPeer(n: Node, o: Offer, now: Millis): Node {
    if !Admits(n, o) then n
    else
      var sessions := if o.id in n.peers then n.rxSessions - {n.peers[o.id].rxSid} else n.rxSessions;
      n.(peers := n.peers[o.id := NewSession(n, o, now)],
         rxSessions := sessions[o.rxSid := o.id],
         routes := InsertAll(n.routes, o.who.networks, o.id),
         lighthouses := Bound(n.lighthouses, o.addr, o.who.name, o.id))
  }

  function RemovePeer(n: Node, id: Id): Node {
    if id !in n.peers then n
    else n.(peers := n.peers - {id},
            rxSessions := n.rxSessions - {n.peers[id].rxSid},
            routes := Retain(n.routes, OfPeer(id)),
            lighthouses := Unbound(n.lighthouses, id))
  }

  // ------------------------------------------------ the indexes agree

  ghost predicate SessionsNamePeers(n: Node) {
    forall sid | sid in n.rxSessions :: n.rxSessions[sid] in n.peers && n.peers[n.rxSessions[sid]].rxSid == sid
  }

  ghost predicate RoutesNamePeers(n: Node) {
    forall i | 0 <= i < |n.routes| :: n.routes[i].1 in n.peers
  }

  ghost predicate SlotsNamePeers(n: Node) {
    forall i | 0 <= i < |n.lighthouses| && n.lighthouses[i].peerId.Some? :: n.lighthouses[i].peerId.value in n.peers
  }

  ghost predicate Consistent(n: Node) {
    SessionsNamePeers(n) && RoutesNamePeers(n) && SlotsNamePeers(n)
  }

  /** Every live peer is found through its own receiving session id. */
  ghost predicate Findable(n: Node) {
    forall id | id in n.peers :: n.peers[id].rxSid in n.rxSessions && n.rxSessions[n.peers[id].rxSid] == id
  }

  lemma {:induction false} RetainedWereThere(routes: Table, u: Unwanted)
    ensures forall i | 0 <= i < |Retain(routes, u)| ::
              Retain(routes, u)[i] in routes && Keeps(u, Retain(routes, u)[i].0, Retain(routes, u)[i].1)
  {
    if routes != [] {
      RetainedWereThere(routes[..|routes| - 1], u);
      assert forall e | e in routes[..|routes| - 1] :: e in routes;
    }
  }

  lemma {:induction false} InsertedRoutes(routes: Table, networks: seq<Net>, id: Id)
    ensures forall e | e in InsertAll(routes, networks, id) :: e.1 == id || e in routes
  {
    if networks != [] {
      var before := InsertAll(routes, networks[..|networks| - 1], id);
      InsertedRoutes(routes, networks[..|networks| - 1], id);
      RetainedWereThere(before, OfNet(networks[|networks| - 1]));
    }
  }

  /** Admitting a session keeps every index pointing at live peers, even when its
      session id collides with another peer's. */
  lemma AddKeepsConsistent(n: Node, o: Offer, now: Millis)
    requires Consistent(n)
    ensures Consistent(AddPeer(n, o, now))
  {
    var n' := AddPeer(n, o, now);
    InsertedRoutes(n.routes, o.who.networks, o.id);
    assert RoutesNamePeers(n') by {
      forall i | 0 <= i < |n'.routes|
        ensures n'.routes[i].1 in n'.peers
      {
        assert n'.routes[i] in n'.routes;
      }
    }
  }

  lemma RemoveKeepsConsistent(n: Node, id: Id)
    requires Consistent(n)
    ensures Consistent(RemovePeer(n, id))
  {
    var n' := RemovePeer(n, id);
    RetainedWereThere(n.routes, OfPeer(id));
    assert RoutesNamePeers(n') by {
      forall i | 0 <= i < |n'.routes|
        ensures n'.routes[i].1 in n'.peers
      {
        assert n'.routes[i] in n.routes;
      }
    }
  }

  ghost predicate SidIsFree(n: Node, o: Offer) {
    forall id | id in n.peers && id != o.id :: n.peers[id].rxSid != o.rxSid
  }

  /** An admitted session leaves every peer findable exactly when its receiving id is
      not another live peer's. */
  lemma FindableExactlyWhenFree(n: Node, o: Offer, now: Millis)
    requires Consistent(n) && Findable(n) && Admits(n, o)
    ensures Findable(AddPeer(n, o, now)) <==> SidIsFree(n, o)
  {
    var n' := AddPeer(n, o, now);
    if Findable(n') {
      forall id | id in n.peers && id != o.id
        ensures n.peers[id].rxSid != o.rxSid
      {
        assert id in n'.peers && n'.peers[id] == n.peers[id];
        assert n'.rxSessions[o.rxSid] == o.id;
      }
    }
  }

  lemma RemoveKeepsFindable(n: Node, id: Id)
    requires Consistent(n) && Findable(n)
    ensures Findable(RemovePeer(n, id))
  {}

  // ------------------------------------------------ handlers

  predicate AddrIsRelay(peers: map<Id, Session>, addr: Addr) {
    exists id | id in peers :: peers[id].isRelay && peers[id].path.addr == addr
  }

  function NoteDirectEndpoint(n: Node, id: Id, addr: Addr): Node {
    if AddrIsRelay(n.peers, addr) || id !in n.peers then n
    else n.(peers := n.peers[id := n.peers[id].(path := LearnEndpoint(n.peers[id].path, addr))])
  }

  predicate SameTarget(p: Pending<Request>, addr: Addr, peerId: Option<Id>) {
    if p.peerId.Some? && peerId.Some? then p.peerId == peerId else p.directAddr == addr
  }

  /** Dial a peer, unless a handshake to it is already in flight. */
  function StartHandshake(n: Node, addr: Addr, peerId: Option<Id>, sid: u32, salt: nat, now: Millis)
    : (Node, Option<Request>)
  {
    if exists k | k in n.pending :: SameTarget(n.pending[k], addr, peerId) then (n, None)
    else
      var request := Request(n.self, sid, salt);
      (n.(pending := n.pending[sid := NewPending(request, addr, peerId, now)]), Some(request))
  }

  predicate Dialling(pending: map<u32, Pending<Request>>, id: Id) {
    exists k | k in pending :: pending[k].peerId == Some(id)
  }

  /** At most one handshake is in flight to each known peer id. */
  ghost predicate DialsDistinct(n: Node) {
    forall j, k | j in n.pending && k in n.pending && n.pending[j].peerId.Some?
                  && n.pending[j].peerId == n.pending[k].peerId :: j == k
  }

  lemma StartKeepsDialsDistinct(n: Node, addr: Addr, peerId: Option<Id>, sid: u32, salt: nat, now: Millis)
    requires DialsDistinct(n)
    ensures DialsDistinct(StartHandshake(n, addr, peerId, sid, salt, now).0)
  {}

  ghost function DialledAddr(n: Node, id: Id): Option<Addr> {
    if Dialling(n.pending, id) then
      var k :| k in n.pending && n.pending[k].peerId == Some(id);
      Some(n.pending[k].directAddr)
    else None
  }

  ghost function ResponderOffer(n: Node, request: Request, src: Addr, reply: Reply): Offer {
    var relayed := AddrIsRelay(n.peers, src);
    var dialled := DialledAddr(n, request.sender.id);
    Offer(request.sender.id, request.sender, SessionKey(request, reply), src,
          if dialled.Some? then dialled else if relayed then None else Some(src), relayed,
          request.rxSid, reply.rxSid, request.sender.id, Dialling(n.pending, request.sender.id))
  }

  /** A handshake_1 arrived; the reply's own session id and salt are random choices,
      and `victim` is the cache entry that makes room if none is free. */
  ghost function HandleHandshake1(n: Node, request: Request, src: Addr, sid: u32, salt: nat, victim: Request,
                                  now: Millis)
    : (Node, Option<Reply>)
  {
    var cached := Find(n.cache, request, now);
    if cached.Some? then
      (NoteDirectEndpoint(n, cached.value.peerId, src), Some(cached.value.response))
    else if request.sender.id == n.self.id then (n, None)
    else
      var reply := Reply(request, n.self, sid, salt);
      var n' := n.(cache := Put(n.cache, request, Cached(reply, request.sender.id, now), victim));
      (AddPeer(n', ResponderOffer(n, request, src, reply), now), Some(reply))
  }

  predicate Expects(n: Node, reply: Reply) {
    var sid := reply.request.rxSid;
    && sid in n.pending && n.pending[sid].message == reply.request
    && (n.pending[sid].peerId.Some? ==> n.pending[sid].peerId.value == reply.sender.id)
  }

  function InitiatorOffer(n: Node, reply: Reply, src: Addr): Offer
    requires reply.request.rxSid in n.pending
  {
    var direct := n.pending[reply.request.rxSid].directAddr;
    var id := reply.sender.id;
    Offer(id, reply.sender, SessionKey(reply.request, reply), src, Some(direct),
          src != direct || AddrIsRelay(n.peers, src),
          reply.rxSid, reply.request.rxSid, n.self.id,
          id in n.peers && n.peers[id].initiator != n.self.id)
  }

  /** A handshake_2 arrived: only a reply to our own pending request is taken. */
  function HandleHandshake2(n: Node, reply: Reply, src: Addr, now: Millis): Node {
    if !Expects(n, reply) then n
    else AddPeer(n.(pending := n.pending - {reply.request.rxSid}), InitiatorOffer(n, reply, src), now)
  }
}
