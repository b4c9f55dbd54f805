/** Two nodes establishing a session over a network that loses, delays, duplicates
    and reorders. Each may dial the other once; every step of either node, including
    its dealings with third parties, may interleave. Replies are repeated from the
    bounded cache of module Cache. */
module Sessions {
  import opened Bits
  import opened Types
  import opened Peers
  import opened Retry
  import opened Routes
  import opened Cache
  import opened Nodes
  import opened NodeRuns

  /** A reply to the other node's dial, when it was given, and whether a dial to that
      node by its id was then in flight. */
  datatype Answer = Answer(reply: Reply, at: Millis, clash: bool)

  /** One node, the handshake_1 it has sent to the other, its first answer to the
      other's, and its clock. */
  datatype Side = Side(node: Node, dial: Option<Request>, answer: Option<Answer>, clock: Millis)

  /** The two nodes and every handshake_2 either has sent to the other. Messages stay
      deliverable for ever. */
  datatype World = World(here: Side, there: Side, replies: set<Reply>)

  function Swap(w: World): World {
    World(w.there, w.here, w.replies)
  }

  function IdOf(s: Side): Id {
    s.node.self.id
  }

  /** `aimed` marks the dial that is meant for, and reaches, the other node. */
  datatype Move = Move(byHere: bool, action: Action, aimed: bool)

  function ClockAfter(a: Action, clock: Millis): Millis {
    match a
    case Dial(_, _, _, _, now) => now
    case Hear1(_, _, _, _, _, now) => now
    case Hear2(_, _, now) => now
    case Retransmit(now, _) => now
    case SweepCache(now) => now
    case _ => clock
  }

  /** Fewer than 256 other handshakes were answered in the last minute. */
  predicate HasRoom(n: Node, now: Millis) {
    |Live(n.cache, now)| < HANDSHAKE_CACHE_MAX_ENTRIES
  }

  /** What the network and the clock allow `here` to do. Nobody forges the other node's
      certificate, so its messages are ones it sent; a repeated handshake_1 arrives
      within the 60 s its reply is cached, and the cache is not flooded; session ids in
      flight do not collide; neither the session nor the dial times out meanwhile; and a
      dial to an address whose owner is not yet known is answered by the other node
      alone. */
  ghost predicate Permitted(w: World, a: Action, aimed: bool) {
    var n, own, pid := w.here.node, w.here.dial, IdOf(w.there);
    && w.here.clock <= ClockAfter(a, w.here.clock)
    && match a
       case Dial(addr, peerId, sid, salt, now) =>
         var request := Request(n.self, sid, salt);
         && sid !in n.pending && request !in w.there.node.cache && own != Some(request)
         && (peerId == Some(pid) ==> aimed)
         && (aimed ==> own.None? && (peerId == Some(pid) || peerId == None))
       case Hear1(request, src, sid, salt, victim, now) =>
         && (Find(n.cache, request, now).None? ==> HasRoom(n, now))
         && (request.sender.id == pid ==> w.there.dial == Some(request) && RepeatsInTime(w.here, now))
       case Hear2(reply, src, now) =>
         if reply.sender.id == pid then reply in w.replies
         else own == Some(reply.request) && Awaits(n, own) ==> n.pending[reply.request.rxSid].peerId.Some?
       case Forget(id) => id != pid
       case Retransmit(now, relays) => Awaits(n, own) ==> !GaveUp(n.pending[own.value.rxSid], now, n.cfg)
       case _ => true
  }

  predicate RepeatsInTime(s: Side, now: Millis) {
    s.answer.Some? ==> now < s.answer.value.at + HANDSHAKE_CACHE_TTL
  }

  ghost function SideAfter(s: Side, pid: Id, a: Action, aimed: bool): Side {
    var s' := s.(node := Act(s.node, a), clock := ClockAfter(a, s.clock));
    match a
    case Dial(addr, peerId, sid, salt, now) =>
      var sent := StartHandshake(s.node, addr, peerId, sid, salt, now).1;
      if aimed && sent.Some? then s'.(dial := sent) else s'
    case Hear1(request, src, sid, salt, victim, now) =>
      var reply := ReplySent(s.node, a);
      if request.sender.id == pid && reply.Some? && s.answer.None?
      then s'.(answer := Some(Answer(reply.value, now, Dialling(s.node.pending, pid)))) else s'
    case _ => s'
  }

  ghost function ReplySent(n: Node, a: Action): Option<Reply>
    requires a.Hear1?
  {
    HandleHandshake1(n, a.request, a.src, a.sid, a.salt, a.victim, a.now).1
  }

  ghost function HereActs(w: World, a: Action, aimed: bool): World {
    var pid := IdOf(w.there);
    var w' := w.(here := SideAfter(w.here, pid, a, aimed));
    if a.Hear1? && a.request.sender.id == pid && ReplySent(w.here.node, a).Some?
    then w'.(replies := w.replies + {ReplySent(w.here.node, a).value}) else w'
  }

  ghost function Apply(w: World, m: Move): World {
    if m.byHere then HereActs(w, m.action, m.aimed) else Swap(HereActs(Swap(w), m.action, m.aimed))
  }

  ghost predicate Allowed(w: World, m: Move) {
    Permitted(if m.byHere then w else Swap(w), m.action, m.aimed)
  }

  ghost function After(w: World, moves: seq<Move>): World {
    if moves == [] then w else Apply(After(w, moves[..|moves| - 1]), moves[|moves| - 1])
  }

  ghost predicate Legal(w: World, moves: seq<Move>) {
    moves != [] ==>
      && Legal(w, moves[..|moves| - 1])
      && Allowed(After(w, moves[..|moves| - 1]), moves[|moves| - 1])
  }

  // ------------------------------------------------ what a session amounts to

  /** The part of a session both ends must agree on. */
  datatype Link = Link(txKey: TrafficKey, rxKey: TrafficKey, txSid: u32, rxSid: u32, initiator: Id)

  function LinkWith(n: Node, id: Id): Option<Link> {
    if id in n.peers then
      var s := n.peers[id];
      Some(Link(s.txKey, s.rxKey, s.txSid, s.rxSid, s.initiator))
    else None
  }

  /** One end sends under what the other end receives under, both ways. */
  predicate Mirrored(a: Option<Link>, b: Option<Link>) {
    && a.Some? && b.Some?
    && a.value.txKey == b.value.rxKey && a.value.rxKey == b.value.txKey
    && a.value.txSid == b.value.rxSid && a.value.rxSid == b.value.txSid
    && a.value.initiator == b.value.initiator
  }

  function AsInitiator(reply: Reply, us: Id, them: Id): Link {
    var key := SessionKey(reply.request, reply);
    Link(TrafficKey(key, us, them), TrafficKey(key, them, us), reply.rxSid, reply.request.rxSid, us)
  }

  function AsResponder(reply: Reply, us: Id, them: Id): Link {
    var key := SessionKey(reply.request, reply);
    Link(TrafficKey(key, us, them), TrafficKey(key, them, us), reply.request.rxSid, reply.rxSid, them)
  }

  // ------------------------------------------------ where one node stands

  predicate Awaits(n: Node, own: Option<Request>) {
    own.Some? && own.value.rxSid in n.pending && n.pending[own.value.rxSid].message == own.value
  }

  function Given(s: Side): Option<Reply> {
    if s.answer.Some? then Some(s.answer.value.reply) else None
  }

  /** The node has answered the other's dial while its own is still unanswered. */
  predicate Overlaps(s: Side) {
    Awaits(s.node, s.dial) && s.answer.Some?
  }

  /** What an answered dial leaves a node with, given what it held. Unless the two dials
      clash the new session always wins; if they do, it must not displace one of the
      preferred initiator. */
  function AfterAnswer(us: Id, them: Id, held: Option<Link>, a: Answer): Option<Link> {
    if a.clash && held.Some? && (us < them || held.value.initiator == them) then held
    else Some(AsResponder(a.reply, us, them))
  }

  /** What the reply to its own dial leaves a node with. */
  function AfterReply(us: Id, them: Id, held: Option<Link>, reply: Reply): Option<Link> {
    if held.Some? && held.value.initiator != us && them < us then held
    else Some(AsInitiator(reply, us, them))
  }

  /** Where a node comes from: the session it held before the dials, and whether it
      answered the other's dial before its own was done. */
  datatype History = History(left: Option<Link>, crossed: bool)

  /** The session a node holds, from its history, the answer it gave and the reply it
      received. */
  function Expected(us: Id, them: Id, past: History, gave: Option<Answer>, got: Option<Reply>): Option<Link> {
    match (gave, got)
    case (None, None) => past.left
    case (Some(a), None) => AfterAnswer(us, them, past.left, a)
    case (None, Some(r)) => AfterReply(us, them, past.left, r)
    case (Some(a), Some(r)) =>
      if past.crossed then AfterReply(us, them, AfterAnswer(us, them, past.left, a), r)
      else AfterAnswer(us, them, AfterReply(us, them, past.left, r), a)
  }

  /** Handshakes in flight are filed under their session id, and the only one to the
      other node is the one dial. */
  ghost predicate PendingFits(n: Node, pid: Id, own: Option<Request>) {
    forall k | k in n.pending ::
      var p := n.pending[k];
      && k == p.message.rxSid
      && (p.peerId == Some(pid) ==> own == Some(p.message))
      && (own == Some(p.message) ==> p.peerId == Some(pid) || p.peerId == None)
  }

  /** An answer is still cached for as long as repeats may come. */
  ghost predicate Remembered(n: Node, pid: Id, a: Answer, clock: Millis) {
    clock < a.at + HANDSHAKE_CACHE_TTL ==>
      a.reply.request in n.cache && n.cache[a.reply.request] == Cached(a.reply, pid, a.at)
  }

  /** The answer, if any, is the node's own, to the other's dial. */
  ghost predicate AnswerFits(s: Side, pid: Id, other: Option<Request>) {
    && (other.Some? ==> other.value.sender.id == pid)
    && match s.answer
       case None => other.Some? ==> other.value !in s.node.cache
       case Some(a) =>
         && other == Some(a.reply.request) && a.reply.sender == s.node.self && a.at <= s.clock
         && Remembered(s.node, pid, a, s.clock)
  }

  ghost predicate CrossingFits(s: Side, crossed: bool) {
    && (crossed ==> s.answer.Some?) && (Overlaps(s) ==> crossed)
    && (s.answer.Some? && s.answer.value.clash ==> crossed && s.dial.Some?)
  }

  /** One node's place in the protocol, given the other's dial and its answer to ours. */
  ghost predicate Placed(s: Side, pid: Id, other: Option<Request>, reply: Option<Reply>, past: History) {
    && IdOf(s) != pid
    && PendingFits(s.node, pid, s.dial)
    && AnswerFits(s, pid, other)
    && CrossingFits(s, past.crossed)
    && (s.dial.Some? && !Awaits(s.node, s.dial) ==> reply.Some?)
    && LinkWith(s.node, pid)
       == Expected(IdOf(s), pid, past, s.answer, if Awaits(s.node, s.dial) then None else reply)
  }

  ghost predicate RepliesFit(w: World) {
    forall r | r in w.replies :: Given(w.there) == Some(r) || Given(w.here) == Some(r)
  }

  /** Before either dials: no dial and no message between the two. Either may still hold
      an older session with the other. */
  ghost predicate AtRest(w: World) {
    && IdOf(w.here) != IdOf(w.there) && w.replies == {}
    && SideAtRest(w.here, IdOf(w.there)) && SideAtRest(w.there, IdOf(w.here))
  }

  ghost predicate SideAtRest(s: Side, pid: Id) {
    s.dial.None? && s.answer.None? && PendingFits(s.node, pid, None)
  }

  ghost predicate Inv(w: World, here: History, there: History) {
    && Placed(w.here, IdOf(w.there), w.there.dial, Given(w.there), here)
    && Placed(w.there, IdOf(w.here), w.here.dial, Given(w.here), there)
    && RepliesFit(w)
  }

  // ------------------------------------------------ one step

  lemma AddPeerLinks(n: Node, o: Offer, now: Millis)
    ensures var n' := AddPeer(n, o, now);
            && n'.pending == n.pending && n'.cache == n.cache && n'.self == n.self
            && (forall id | id != o.id :: LinkWith(n', id) == LinkWith(n, id))
            && LinkWith(n', o.id) == if Admits(n, o) then Some(OfferedLink(n, o)) else LinkWith(n, o.id)
  {}

  function OfferedLink(n: Node, o: Offer): Link {
    Link(TrafficKey(o.key, n.self.id, o.id), TrafficKey(o.key, o.id, n.self.id), o.txSid, o.rxSid, o.initiator)
  }

  lemma NoteKeepsLinks(n: Node, id: Id, addr: Addr)
    ensures var n' := NoteDirectEndpoint(n, id, addr);
            && n'.pending == n.pending && n'.cache == n.cache && n'.self == n.self
            && forall k :: LinkWith(n', k) == LinkWith(n, k)
  {}

  /** What a step that is not about the other node leaves alone. */
  ghost predicate Untouched(s: Side, s': Side, pid: Id, other: Option<Request>) {
    && s'.node.self == s.node.self && s'.dial == s.dial && s'.answer == s.answer
    && LinkWith(s'.node, pid) == LinkWith(s.node, pid)
    && Awaits(s'.node, s.dial) == Awaits(s.node, s.dial)
    && PendingFits(s'.node, pid, s.dial) && AnswerFits(s', pid, other)
  }

  lemma UntouchedStaysPlaced(s: Side, s': Side, pid: Id, other: Option<Request>, reply: Option<Reply>, past: History)
    requires Placed(s, pid, other, reply, past) && Untouched(s, s', pid, other)
    ensures Placed(s', pid, other, reply, past)
  {}

  /** The facts the lemmas about one kind of step start from. */
  ghost predicate Ready(w: World, a: Action) {
    && IdOf(w.here) != IdOf(w.there) && PendingFits(w.here.node, IdOf(w.there), w.here.dial)
    && AnswerFits(w.here, IdOf(w.there), w.there.dial) && Permitted(w, a, false)
  }

  ghost predicate LeftAlone(w: World, a: Action) {
    Untouched(w.here, SideAfter(w.here, IdOf(w.there), a, false), IdOf(w.there), w.there.dial)
  }

  lemma OtherDial(w: World, a: Action)
    requires a.Dial? && Ready(w, a)
    ensures LeftAlone(w, a)
  {}

  lemma RetransmitStep(w: World, a: Action)
    requires a.Retransmit? && Ready(w, a)
    ensures LeftAlone(w, a)
  {
    TickAllKeeps(w.here.node.pending, a.now, w.here.node.cfg, a.relays);
  }

  lemma SweepStep(w: World, a: Action)
    requires a.SweepCache? && Ready(w, a)
    ensures LeftAlone(w, a)
  {}

  lemma OtherUpkeep(w: World, a: Action)
    requires (a.Forget? || a.LighthouseMoved? || a.Traffic?) && Ready(w, a)
    ensures LeftAlone(w, a)
  {}

  /** The history after a step that led to `s`. */
  function Longer(past: History, s: Side): History {
    past.(crossed := past.crossed || Overlaps(s))
  }

  lemma DialStep(w: World, a: Action, past: History)
    requires Placed(w.here, IdOf(w.there), w.there.dial, Given(w.there), past)
    requires AnswerFits(w.there, IdOf(w.here), w.here.dial)
    requires a.Dial? && Permitted(w, a, true)
    ensures var s' := SideAfter(w.here, IdOf(w.there), a, true);
            && Placed(s', IdOf(w.there), w.there.dial, Given(w.there), Longer(past, s'))
            && AnswerFits(w.there, IdOf(w.here), s'.dial)
            && s'.answer == w.here.answer && s'.node.self == w.here.node.self
  {}

  /** The node after answering a request that was not cached. */
  lemma AnsweringEffect(n: Node, a: Action)
    requires a.Hear1? && Find(n.cache, a.request, a.now).None? && a.request.sender.id != n.self.id
    ensures var n' := Act(n, a);
            var reply := Reply(a.request, n.self, a.sid, a.salt);
            var o := ResponderOffer(n, a.request, a.src, reply);
            && ReplySent(n, a) == Some(reply)
            && n'.pending == n.pending && n'.self == n.self
            && n'.cache == Put(n.cache, a.request, Cached(reply, a.request.sender.id, a.now), a.victim)
            && (forall id | id != o.id :: LinkWith(n', id) == LinkWith(n, id))
            && LinkWith(n', o.id) == if Admits(n, o) then Some(OfferedLink(n, o)) else LinkWith(n, o.id)
  {
    var reply := Reply(a.request, n.self, a.sid, a.salt);
    var cache := Put(n.cache, a.request, Cached(reply, a.request.sender.id, a.now), a.victim);
    AddPeerLinks(n.(cache := cache), ResponderOffer(n, a.request, a.src, reply), a.now);
  }

  /** Answering the other's dial for the first time. */
  lemma FirstHear1(s: Side, pid: Id, a: Action, reply: Option<Reply>, past: History)
    requires a.Hear1? && Placed(s, pid, Some(a.request), reply, past) && s.answer.None? && s.clock <= a.now
    requires reply.Some? ==> s.dial == Some(reply.value.request) && reply.value.sender.id == pid
    ensures var s' := SideAfter(s, pid, a, false);
            && Placed(s', pid, Some(a.request), reply, Longer(past, s'))
            && ReplySent(s.node, a) == Given(s') && Given(s').Some?
            && s'.dial == s.dial && s'.node.self == s.node.self
  {
    var n := s.node;
    AnsweringEffect(n, a);
    var o := ResponderOffer(n, a.request, a.src, Reply(a.request, n.self, a.sid, a.salt));
    assert Dialling(n.pending, pid) ==> Awaits(n, s.dial);
    var given := SideAfter(s, pid, a, false).answer.value;
    assert LinkWith(Act(n, a), pid) == AfterAnswer(IdOf(s), pid, LinkWith(n, pid), given);
  }

  /** The other's dial again, while its answer is cached: the same reply. */
  lemma RepeatedHear1(w: World, a: Action)
    requires a.Hear1? && Ready(w, a) && a.request.sender.id == IdOf(w.there) && w.here.answer.Some?
    ensures LeftAlone(w, a) && ReplySent(w.here.node, a) == Given(w.here)
  {
    NoteKeepsLinks(w.here.node, IdOf(w.there), a.src);
  }

  /** A third party's dial, or our own reflected. */
  lemma OtherHear1(w: World, a: Action)
    requires a.Hear1? && Ready(w, a) && a.request.sender.id != IdOf(w.there)
    ensures LeftAlone(w, a)
  {
    var n := w.here.node;
    var cached := Find(n.cache, a.request, a.now);
    if cached.Some? {
      NoteKeepsLinks(n, cached.value.peerId, a.src);
    } else if a.request.sender.id != n.self.id {
      AnsweringEffect(n, a);
      if w.there.dial.Some? {
        var c := Cached(Reply(a.request, n.self, a.sid, a.salt), a.request.sender.id, a.now);
        PutKeepsYoung(n.cache, a.request, c, a.victim, w.there.dial.value);
      }
    }
  }

  /** The reply to our own dial. */
  lemma FirstHear2(s: Side, pid: Id, other: Option<Request>, reply: Reply, past: History, src: Addr, now: Millis)
    requires Placed(s, pid, other, Some(reply), past)
    requires s.dial == Some(reply.request) && reply.sender.id == pid && Awaits(s.node, s.dial) && s.clock <= now
    ensures Placed(SideAfter(s, pid, Hear2(reply, src, now), false), pid, other, Some(reply), past)
  {
    var n := s.node;
    var o := InitiatorOffer(n, reply, src);
    AddPeerLinks(n.(pending := n.pending - {reply.request.rxSid}), o, now);
    assert LinkWith(HandleHandshake2(n, reply, src, now), pid) == AfterReply(IdOf(s), pid, LinkWith(n, pid), reply);
  }

  /** A repeated reply, or anything from a third party. */
  lemma OtherHear2(w: World, a: Action)
    requires a.Hear2? && Ready(w, a)
    requires a.reply.sender.id == IdOf(w.there) ==> !Expects(w.here.node, a.reply)
    ensures LeftAlone(w, a)
  {
    var n := w.here.node;
    if Expects(n, a.reply) {
      var consumed := n.(pending := n.pending - {a.reply.request.rxSid});
      AddPeerLinks(consumed, InitiatorOffer(n, a.reply, a.src), a.now);
    }
  }

  /** The two steps that bring a node forward. */
  predicate Answering(w: World, a: Action) {
    a.Hear1? && a.request.sender.id == IdOf(w.there) && w.here.answer.None?
  }

  predicate Completing(w: World, a: Action) {
    a.Hear2? && a.reply.sender.id == IdOf(w.there) && Expects(w.here.node, a.reply)
  }

  lemma OtherStep(w: World, a: Action)
    requires Ready(w, a) && !Answering(w, a) && !Completing(w, a)
    ensures LeftAlone(w, a)
  {
    match a
    case Dial(_, _, _, _, _) => OtherDial(w, a);
    case Hear1(request, _, _, _, _, _) =>
      if request.sender.id == IdOf(w.there) {
        RepeatedHear1(w, a);
      } else {
        OtherHear1(w, a);
      }
    case Hear2(_, _, _) => OtherHear2(w, a);
    case Retransmit(_, _) => RetransmitStep(w, a);
    case SweepCache(_) => SweepStep(w, a);
    case _ => OtherUpkeep(w, a);
  }

  // ------------------------------------------------ whole runs

  ghost predicate InvAfter(w: World, here: History, there: History) {
    Inv(w, Longer(here, w.here), there)
  }

  lemma AimedDialKeepsInv(w: World, a: Action, here: History, there: History)
    requires Inv(w, here, there) && a.Dial? && Permitted(w, a, true)
    ensures InvAfter(HereActs(w, a, true), here, there)
  {
    DialStep(w, a, here);
  }

  lemma AnsweringKeepsInv(w: World, a: Action, here: History, there: History)
    requires Inv(w, here, there) && Permitted(w, a, false) && Answering(w, a)
    ensures InvAfter(HereActs(w, a, false), here, there)
  {
    FirstHear1(w.here, IdOf(w.there), a, Given(w.there), here);
  }

  lemma CompletingKeepsInv(w: World, a: Action, here: History, there: History)
    requires Inv(w, here, there) && Permitted(w, a, false) && Completing(w, a)
    ensures InvAfter(HereActs(w, a, false), here, there)
  {
    assert Given(w.there) == Some(a.reply);
    FirstHear2(w.here, IdOf(w.there), w.there.dial, a.reply, here, a.src, a.now);
  }

  lemma OtherStepKeepsInv(w: World, a: Action, here: History, there: History)
    requires Inv(w, here, there) && Permitted(w, a, false)
    requires !Answering(w, a) && !Completing(w, a)
    ensures InvAfter(HereActs(w, a, false), here, there)
  {
    var pid := IdOf(w.there);
    OtherStep(w, a);
    UntouchedStaysPlaced(w.here, SideAfter(w.here, pid, a, false), pid, w.there.dial, Given(w.there), here);
    if a.Hear1? && a.request.sender.id == pid {
      RepeatedHear1(w, a);
    }
  }

  /** A step of `here` keeps both nodes placed. */
  lemma HereStep(w: World, a: Action, aimed: bool, here: History, there: History)
    requires Inv(w, here, there) && Permitted(w, a, aimed)
    ensures InvAfter(HereActs(w, a, aimed), here, there)
  {
    if a.Dial? && aimed {
      AimedDialKeepsInv(w, a, here, there);
    } else {
      assert HereActs(w, a, aimed) == HereActs(w, a, false);
      if Answering(w, a) {
        AnsweringKeepsInv(w, a, here, there);
      } else if Completing(w, a) {
        CompletingKeepsInv(w, a, here, there);
      } else {
        OtherStepKeepsInv(w, a, here, there);
      }
    }
  }

  /** At some moment of the run `here` had answered the other's dial while its own was
      still unanswered: it handled handshake_1 before its own handshake_2. */
  ghost predicate Crossed(w: World, moves: seq<Move>) {
    Overlaps(After(w, moves).here) || (moves != [] && Crossed(w, moves[..|moves| - 1]))
  }

  ghost predicate CrossedThere(w: World, moves: seq<Move>) {
    Overlaps(After(w, moves).there) || (moves != [] && CrossedThere(w, moves[..|moves| - 1]))
  }

  lemma MoveKeepsInv(w: World, m: Move, here: History, there: History)
    requires Inv(w, here, there) && Allowed(w, m)
    ensures var w' := Apply(w, m); Inv(w', Longer(here, w'.here), Longer(there, w'.there))
  {
    if m.byHere {
      HereStep(w, m.action, m.aimed, here, there);
    } else {
      HereStep(Swap(w), m.action, m.aimed, there, here);
    }
  }

  ghost function HereHistory(w: World, moves: seq<Move>): History {
    History(LinkWith(w.here.node, IdOf(w.there)), Crossed(w, moves))
  }

  ghost function ThereHistory(w: World, moves: seq<Move>): History {
    History(LinkWith(w.there.node, IdOf(w.here)), CrossedThere(w, moves))
  }

  /** In every run, each node holds exactly the session its history calls for. */
  lemma {:induction false} RunKeepsInv(w: World, moves: seq<Move>)
    requires AtRest(w) && Legal(w, moves)
    ensures Inv(After(w, moves), HereHistory(w, moves), ThereHistory(w, moves))
  {
    if moves != [] {
      var n := |moves| - 1;
      RunKeepsInv(w, moves[..n]);
      MoveKeepsInv(After(w, moves[..n]), moves[n], HereHistory(w, moves[..n]), ThereHistory(w, moves[..n]));
    }
  }

  /** Both dialled, both answered, and neither is waiting: all four messages were handled. */
  ghost predicate Settled(w: World) {
    && w.here.dial.Some? && w.there.dial.Some? && w.here.answer.Some? && w.there.answer.Some?
    && !Awaits(w.here.node, w.here.dial) && !Awaits(w.there.node, w.there.dial)
  }

  ghost predicate Agreed(w: World) {
    Mirrored(LinkWith(w.here.node, IdOf(w.there)), LinkWith(w.there.node, IdOf(w.here)))
  }

  ghost function SessionInitiator(w: World): Option<Id> {
    var link := LinkWith(w.here.node, IdOf(w.there));
    if link.Some? then Some(link.value.initiator) else None
  }

  /** The session does not come from this dial. */
  predicate Older(link: Option<Link>, dial: Option<Request>) {
    link.Some? && dial.Some? ==>
      link.value.txKey.session.request != dial.value && link.value.rxKey.session.request != dial.value
  }

  /** Sessions held before the dials are not derived from them: requests are random. */
  ghost predicate LeftoversAreOlder(start: World, end: World) {
    var here, there := LinkWith(start.here.node, IdOf(start.there)), LinkWith(start.there.node, IdOf(start.here));
    && Older(here, end.here.dial) && Older(here, end.there.dial)
    && Older(there, end.here.dial) && Older(there, end.there.dial)
  }

  /** The higher-id node still held a session of the lower-id node and answered its new
      dial while dialling itself: it takes the new dial for the loser of a tie. */
  predicate StuckOnLeftover(left: Option<Link>, answer: Option<Answer>, preferred: Id) {
    left.Some? && left.value.initiator == preferred && answer.Some? && answer.value.clash
  }

  ghost predicate ThereIsStuck(w: World, moves: seq<Move>) {
    StuckOnLeftover(LinkWith(w.there.node, IdOf(w.here)), After(w, moves).there.answer, IdOf(w.here))
  }

  /** What both ends hold once both exchanges are complete. */
  lemma LinksOfSettled(w: World, here: History, there: History)
    requires Inv(w, here, there) && IdOf(w.here) < IdOf(w.there) && Settled(w)
    ensures var us, them := IdOf(w.here), IdOf(w.there);
            var toUs, toThem := Given(w.there).value, Given(w.here).value;
            && LinkWith(w.there.node, us)
               == (if StuckOnLeftover(there.left, w.there.answer, us) then there.left
                   else Some(AsResponder(toUs, them, us)))
            && LinkWith(w.here.node, them)
               == Some(if here.crossed then AsInitiator(toUs, us, them) else AsResponder(toThem, us, them))
            && w.here.dial == Some(toUs.request) && w.there.dial == Some(toThem.request)
            && toUs.request.sender.id != toThem.request.sender.id
  {}

  /** Crossing dials converge on the session of the lower-id node, with keys and session
      ids crossed, exactly when that node handled the other's handshake_1 before its own
      handshake_2 and the other was not stuck on a leftover session. Otherwise the ends
      are left on different sessions. */
  lemma CrossingDialsConverge(w: World, moves: seq<Move>)
    requires AtRest(w) && IdOf(w.here) < IdOf(w.there)
    requires Legal(w, moves) && Settled(After(w, moves)) && LeftoversAreOlder(w, After(w, moves))
    ensures Agreed(After(w, moves)) <==> Crossed(w, moves) && !ThereIsStuck(w, moves)
    ensures Agreed(After(w, moves)) ==> SessionInitiator(After(w, moves)) == Some(IdOf(w.here))
  {
    RunKeepsInv(w, moves);
    SameNodes(w, moves);
    LinksOfSettled(After(w, moves), HereHistory(w, moves), ThereHistory(w, moves));
  }

  lemma ActKeepsSelf(n: Node, a: Action)
    ensures Act(n, a).self == n.self
  {}

  lemma ApplyKeepsSelf(w: World, m: Move)
    ensures Apply(w, m).here.node.self == w.here.node.self && Apply(w, m).there.node.self == w.there.node.self
  {
    ActKeepsSelf(if m.byHere then w.here.node else w.there.node, m.action);
  }

  lemma {:induction false} SameNodes(w: World, moves: seq<Move>)
    ensures After(w, moves).here.node.self == w.here.node.self
    ensures After(w, moves).there.node.self == w.there.node.self
  {
    if moves != [] {
      SameNodes(w, moves[..|moves| - 1]);
      ApplyKeepsSelf(After(w, moves[..|moves| - 1]), moves[|moves| - 1]);
    }
  }

  /** A completed dial nobody crossed: the other end took it. */
  ghost predicate SoleDialDone(w: World) {
    w.here.dial.Some? && w.there.dial.None? && !Awaits(w.here.node, w.here.dial)
  }

  /** The dialling end holds nothing, or a session of its own, or has the lower id. */
  ghost predicate MayReplace(w: World) {
    var left := LinkWith(w.here.node, IdOf(w.there));
    left.None? || left.value.initiator == IdOf(w.here) || IdOf(w.here) < IdOf(w.there)
  }

  /** When only one node dials, the other end always takes its session, whatever it held.
      The dialling end does so exactly when it may replace what it held; otherwise it
      keeps that. */
  lemma SoleDialOutcome(w: World, moves: seq<Move>)
    requires AtRest(w) && Legal(w, moves) && SoleDialDone(After(w, moves))
    ensures var end := After(w, moves);
            var us, them := IdOf(w.here), IdOf(w.there);
            && Given(end.there).Some?
            && var reply := Given(end.there).value;
            && end.here.dial == Some(reply.request)
            && LinkWith(end.there.node, us) == Some(AsResponder(reply, them, us))
            && LinkWith(end.here.node, them)
               == if MayReplace(w) then Some(AsInitiator(reply, us, them)) else LinkWith(w.here.node, them)
  {
    RunKeepsInv(w, moves);
    SameNodes(w, moves);
    assert !After(w, moves).there.answer.value.clash;
  }

  /** So a sole dial converges exactly then, however often its messages repeat. */
  lemma SoleDialConverges(w: World, moves: seq<Move>)
    requires AtRest(w) && Legal(w, moves) && SoleDialDone(After(w, moves)) && LeftoversAreOlder(w, After(w, moves))
    ensures Agreed(After(w, moves)) <==> MayReplace(w)
    ensures Agreed(After(w, moves)) ==> SessionInitiator(After(w, moves)) == Some(IdOf(w.here))
  {
    SoleDialOutcome(w, moves);
    SameNodes(w, moves);
  }
}
