/** What admitting and removing a peer does to the node's tables, told without the
    functions that do it: who is routed where, which lighthouse is whom, what a new
    session starts from, and that nothing else changes. */
module Admission {
  import opened Bits
  import opened Types
  import opened Peers
  import opened Retry
  import opened Routes
  import opened Cache
  import opened Nodes
  import opened NodeRuns

  // ------------------------------------------------ routes follow the history

  /** The routing operations that admitting a peer with these networks amounts to. */
  function Inserts(networks: seq<Net>, id: Id): seq<Op> {
    seq(|networks|, i requires 0 <= i < |networks| => InsertRoute(networks[i], id))
  }

  lemma {:induction false} InsertAllIsHistory(ops: seq<Op>, networks: seq<Net>, id: Id)
    ensures InsertAll(TableAfter(ops), networks, id) == TableAfter(ops + Inserts(networks, id))
  {
    var n := |networks| - 1;
    if networks == [] {
      assert ops + Inserts(networks, id) == ops;
    } else {
      InsertAllIsHistory(ops, networks[..n], id);
      OneMoreOp(ops, networks, id);
    }
  }

  lemma OneMoreOp(ops: seq<Op>, networks: seq<Net>, id: Id)
    requires networks != []
    ensures var n := |networks| - 1; var all := ops + Inserts(networks, id);
            && all != [] && all[|all| - 1] == InsertRoute(networks[n], id)
            && all[..|all| - 1] == ops + Inserts(networks[..n], id)
  {}

  /** Afterwards this peer holds exactly these networks in addition; every other network
      keeps its holder and its place. */
  lemma {:induction false} HoldersAfterInserts(ops: seq<Op>, networks: seq<Net>, id: Id, net: Net)
    ensures var before, after := Holders(ops), Holders(ops + Inserts(networks, id));
            if net in networks then net in after && after[net].peer == id
            else (net in after <==> net in before) && (net in before ==> after[net] == before[net])
  {
    var n := |networks| - 1;
    if networks == [] {
      assert ops + Inserts(networks, id) == ops;
    } else {
      HoldersAfterInserts(ops, networks[..n], id, net);
      OneMoreOp(ops, networks, id);
      assert networks == networks[..n] + [networks[n]];
    }
  }

  /** The node's table is what this history of insertions and removals makes of it. */
  ghost predicate Follows(n: Node, ops: seq<Op>) {
    n.routes == TableAfter(ops)
  }

  /** Each network of an admitted peer is now routed to it; no other network's holder
      changes. */
  lemma AdmittedPeerIsRouted(n: Node, ops: seq<Op>, o: Offer, now: Millis)
    requires Follows(n, ops) && Admits(n, o)
    ensures var ops' := ops + Inserts(o.who.networks, o.id);
            && Follows(AddPeer(n, o, now), ops')
            && forall net ::
                 if net in o.who.networks then net in Holders(ops') && Holders(ops')[net].peer == o.id
                 else (net in Holders(ops') <==> net in Holders(ops))
                      && (net in Holders(ops) ==> Holders(ops')[net] == Holders(ops)[net])
  {
    InsertAllIsHistory(ops, o.who.networks, o.id);
    forall net
      ensures var before, after := Holders(ops), Holders(ops + Inserts(o.who.networks, o.id));
              if net in o.who.networks then net in after && after[net].peer == o.id
              else (net in after <==> net in before) && (net in before ==> after[net] == before[net])
    {
      HoldersAfterInserts(ops, o.who.networks, o.id, net);
    }
  }

  /** A removed peer is routed nothing; no other peer loses a network. */
  lemma RemovedPeerIsNotRouted(n: Node, ops: seq<Op>, id: Id)
    requires Follows(n, ops) && id in n.peers
    ensures var ops' := ops + [DropPeer(id)];
            && Follows(RemovePeer(n, id), ops')
            && forall net ::
                 && (net in Holders(ops') <==> net in Holders(ops) && Holders(ops)[net].peer != id)
                 && (net in Holders(ops') ==> Holders(ops')[net] == Holders(ops)[net])
  {
    var ops' := ops + [DropPeer(id)];
    assert ops'[..|ops|] == ops;
  }

  /** The session a step would establish, if it gets that far. */
  ghost function OfferOf(n: Node, a: Action): Option<Offer> {
    match a
    case Hear1(request, src, sid, salt, victim, now) =>
      if Find(n.cache, request, now).Some? || request.sender.id == n.self.id then None
      else Some(ResponderOffer(n, request, src, Reply(request, n.self, sid, salt)))
    case Hear2(reply, src, now) => if Expects(n, reply) then Some(InitiatorOffer(n, reply, src)) else None
    case _ => None
  }

  /** The routing operations of one step. */
  ghost function RouteOps(n: Node, a: Action): seq<Op> {
    var offer := OfferOf(n, a);
    if offer.Some? && Admits(n, offer.value) then Inserts(offer.value.who.networks, offer.value.id)
    else if a.Forget? && a.id in n.peers then [DropPeer(a.id)]
    else []
  }

  ghost function RouteLog(n: Node, actions: seq<Action>): seq<Op> {
    if actions == [] then []
    else
      var k := |actions| - 1;
      RouteLog(n, actions[..k]) + RouteOps(NodeRuns.Run(n, actions[..k]), actions[k])
  }

  lemma StepFollows(n: Node, ops: seq<Op>, a: Action)
    requires Follows(n, ops)
    ensures Follows(Act(n, a), ops + RouteOps(n, a))
  {
    var offer := OfferOf(n, a);
    if offer.Some? {
      InsertAllIsHistory(ops, offer.value.who.networks, offer.value.id);
    }
    if a.Forget? && a.id in n.peers {
      RemovedPeerIsNotRouted(n, ops, a.id);
    }
    assert ops + [] == ops;
  }

  /** Over every run of a node, its table follows the log of its admissions and removals. */
  lemma {:induction false} RoutesFollowTheLog(n: Node, actions: seq<Action>)
    requires n.routes == []
    ensures Follows(NodeRuns.Run(n, actions), RouteLog(n, actions))
  {
    if actions != [] {
      var k := |actions| - 1;
      RoutesFollowTheLog(n, actions[..k]);
      StepFollows(NodeRuns.Run(n, actions[..k]), RouteLog(n, actions[..k]), actions[k]);
    }
  }

  /** So a lookup on a node finds the peer holding the longest network that contains the
      address, the latest admitted among equals, and nothing exactly when none does. */
  lemma NodeRoutesByLongestPrefix(n: Node, actions: seq<Action>, ip: Ip, r: Option<Id>)
    requires n.routes == [] && IsLookup(NodeRuns.Run(n, actions).routes, ip, r)
    ensures FindsLongest(Holders(RouteLog(n, actions)), ip, r)
  {
    RoutesFollowTheLog(n, actions);
    LookupIsLongestPrefix(RouteLog(n, actions), ip, r);
  }

  // ------------------------------------------------ what else admission does

  /** Every lighthouse slot with the peer's address or name is now known to be it, and no
      other slot, session or pending handshake changes. */
  lemma AdmissionTouchesOnlyOne(n: Node, o: Offer, now: Millis)
    requires Admits(n, o)
    ensures var n' := AddPeer(n, o, now);
            && n'.peers.Keys == n.peers.Keys + {o.id}
            && (forall id | id in n.peers && id != o.id :: n'.peers[id] == n.peers[id])
            && n'.pending == n.pending && n'.cache == n.cache && |n'.lighthouses| == |n.lighthouses|
            && forall i | 0 <= i < |n.lighthouses| ::
                 var slot := n.lighthouses[i];
                 n'.lighthouses[i] ==
                 Slot(slot.name, slot.address,
                      if slot.address == o.addr || slot.name == o.who.name then Some(o.id) else slot.peerId)
  {}

  lemma RefusalChangesNothing(n: Node, o: Offer, now: Millis)
    requires !Admits(n, o)
    ensures AddPeer(n, o, now) == n
  {}

  /** Removal forgets one peer and what names it, and nothing else. */
  lemma RemovalTouchesOnlyOne(n: Node, id: Id)
    requires id in n.peers
    ensures var n' := RemovePeer(n, id);
            && n'.peers.Keys == n.peers.Keys - {id}
            && (forall other | other in n'.peers :: n'.peers[other] == n.peers[other])
            && n'.pending == n.pending && n'.cache == n.cache && |n'.lighthouses| == |n.lighthouses|
            && (forall sid | sid != n.peers[id].rxSid ::
                  (sid in n'.rxSessions <==> sid in n.rxSessions)
                  && (sid in n.rxSessions ==> n'.rxSessions[sid] == n.rxSessions[sid]))
            && forall i | 0 <= i < |n.lighthouses| ::
                 var slot := n.lighthouses[i];
                 n'.lighthouses[i]
                 == Slot(slot.name, slot.address, if slot.peerId == Some(id) then None else slot.peerId)
  {}

  /** A lighthouse that moved is no longer known to be any peer; nothing else changes. */
  lemma MovedLighthouseIsUnknown(n: Node, i: nat, address: Addr)
    ensures var n' := Act(n, LighthouseMoved(i, address));
            && n' == n.(lighthouses := n'.lighthouses) && |n'.lighthouses| == |n.lighthouses|
            && forall j | 0 <= j < |n.lighthouses| ::
                 n'.lighthouses[j] == if j == i && n.lighthouses[j].address != address
                                      then Slot(n.lighthouses[j].name, address, None) else n.lighthouses[j]
  {}

  // ------------------------------------------------ where a new session starts

  /** Some connected relay has this address. */
  ghost predicate IsRelayAddr(n: Node, addr: Addr) {
    exists id :: id in n.peers && n.peers[id].isRelay && n.peers[id].path.addr == addr
  }

  /** A session fresh at `now`: seen and acknowledged now, nothing outstanding. */
  predicate StartsFresh(cfg: Timings, p: Peer, now: Millis) {
    && p.lastSeen == now && p.lastAck == now && p.keepalive.None?
    && p.nextProbe.None? && p.probeInterval == cfg.directProbeInterval && p.probeToken.None?
  }

  /** A responder's session sends to where the request came from. Its direct endpoint is
      the one being dialled, else that source unless it is a relay's, else what was known
      before; it is relayed exactly when the source is a relay's and not that endpoint. */
  lemma ResponderSessionStarts(n: Node, a: Action)
    requires a.Hear1? && OfferOf(n, a).Some? && Admits(n, OfferOf(n, a).value) && DialsDistinct(n)
    ensures var id := a.request.sender.id;
            && id in Act(n, a).peers
            && var s := Act(n, a).peers[id];
            && s.path.addr == a.src && StartsFresh(n.cfg, s.path, a.now)
            && (forall k | k in n.pending && n.pending[k].peerId == Some(id) ::
                  s.path.directAddr == Some(n.pending[k].directAddr))
            && ((forall k | k in n.pending :: n.pending[k].peerId != Some(id)) ==>
                  s.path.directAddr == if !IsRelayAddr(n, a.src) then Some(a.src)
                                       else if id in n.peers then n.peers[id].path.directAddr else None)
            && (s.path.relayed <==> IsRelayAddr(n, a.src) && s.path.directAddr != Some(a.src))
            && Session(a.request.sender.name, a.request.sender.isRelay, a.request.sender.networks,
                       s.txKey, s.rxKey, s.txSid, s.rxSid, s.initiator, s.path) == s
  {
    assert AddrIsRelay(n.peers, a.src) <==> IsRelayAddr(n, a.src);
  }

  /** An initiator's session sends to where the reply came from, keeps the dialled endpoint
      as its direct one, and is relayed exactly when the two differ. */
  lemma InitiatorSessionStarts(n: Node, a: Action)
    requires a.Hear2? && OfferOf(n, a).Some? && Admits(n, OfferOf(n, a).value)
    ensures var id, dialled := a.reply.sender.id, n.pending[a.reply.request.rxSid].directAddr;
            && id in Act(n, a).peers
            && var s := Act(n, a).peers[id];
            && s.path.addr == a.src && s.path.directAddr == Some(dialled) && StartsFresh(n.cfg, s.path, a.now)
            && (s.path.relayed <==> a.src != dialled)
            && Session(a.reply.sender.name, a.reply.sender.isRelay, a.reply.sender.networks,
                       s.txKey, s.rxKey, s.txSid, s.rxSid, s.initiator, s.path) == s
  {}

  /** A repeated handshake_1 teaches the endpoint it came from, unless that is a relay's,
      and changes nothing else. */
  lemma RepeatTeachesEndpoint(n: Node, a: Action)
    requires a.Hear1? && Find(n.cache, a.request, a.now).Some?
    ensures var id := Find(n.cache, a.request, a.now).value.peerId;
            if id !in n.peers || IsRelayAddr(n, a.src) then Act(n, a) == n
            else && Act(n, a).peers.Keys == n.peers.Keys
                 && (forall other | other in n.peers && other != id :: Act(n, a).peers[other] == n.peers[other])
                 && Act(n, a).peers[id].path.directAddr == Some(a.src)
                 && Act(n, a).peers[id].path.addr == n.peers[id].path.addr
                 && Act(n, a).peers[id].path.relayed == n.peers[id].path.relayed
  {
    assert AddrIsRelay(n.peers, a.src) <==> IsRelayAddr(n, a.src);
  }

  // ------------------------------------------------ dialling

  /** A dial to this target is in flight: to the same peer where both ids are known, to
      the same address otherwise. */
  ghost predicate InFlight(n: Node, addr: Addr, peerId: Option<Id>) {
    exists k :: k in n.pending
      && if n.pending[k].peerId.Some? && peerId.Some? then n.pending[k].peerId.value == peerId.value
         else n.pending[k].directAddr == addr
  }

  /** A dial is refused exactly when one to its target is in flight; otherwise its request
      is filed under its session id, with the first attempt made. */
  lemma DialsExactlyWhenNotInFlight(n: Node, addr: Addr, peerId: Option<Id>, sid: u32, salt: nat, now: Millis)
    ensures var (n', sent) := StartHandshake(n, addr, peerId, sid, salt, now);
            if InFlight(n, addr, peerId) then n' == n && sent.None?
            else && sent == Some(Request(n.self, sid, salt)) && n'.peers == n.peers
                 && n'.pending.Keys == n.pending.Keys + {sid}
                 && (forall k | k in n.pending && k != sid :: n'.pending[k] == n.pending[k])
                 && n'.pending[sid]
                    == Pending(sent.value, addr, None, peerId, now, now + 500, 1)
  {
    assert InFlight(n, addr, peerId) <==> exists k | k in n.pending :: SameTarget(n.pending[k], addr, peerId);
  }
}
