/** What follows when crossing dials end on different sessions: that it can happen, that
    nothing gets through, and that both ends notice in bounded time and start afresh. */
module Divergence {
  import opened Bits
  import opened Types
  import opened Peers
  import opened Retry
  import opened Cache
  import opened Nodes
  import opened NodeRuns
  import opened Sessions
  import Liveness

  // ------------------------------------------------ schedules that diverge

  ghost predicate Reaches(start: World, moves: seq<Move>, end: World, crossed: bool) {
    Legal(start, moves) && After(start, moves) == end && Crossed(start, moves) == crossed
  }

  lemma Extend(start: World, moves: seq<Move>, w: World, crossed: bool, m: Move)
    requires Reaches(start, moves, w, crossed) && Allowed(w, m)
    ensures Reaches(start, moves + [m], Apply(w, m), crossed || Overlaps(Apply(w, m).here))
  {
    assert (moves + [m])[..|moves|] == moves;
  }

  ghost function Booted(self: Identity, cfg: Timings): Side {
    Side(StartOf(self, cfg, []), None, None, 0)
  }

  ghost function Fresh(us: Identity, them: Identity, cfg: Timings): World {
    World(Booted(us, cfg), Booted(them, cfg), {})
  }

  /** `us` has restarted; `them` still holds the session it had with it. */
  ghost function Restarted(us: Identity, them: Identity, cfg: Timings, kept: Session): World {
    var other := Booted(them, cfg);
    World(Booted(us, cfg), other.(node := other.node.(peers := map[us.id := kept])), {})
  }

  /** One end of the schedules below, which involve no third party and take no time. */
  datatype End = End(self: Identity, dial: Option<Request>, awaits: bool, gave: Option<Reply>, clash: bool)

  ghost predicate At(s: Side, e: End, peer: Id) {
    && s.node.self == e.self && s.dial == e.dial && s.clock == 0
    && s.answer == (if e.gave.Some? then Some(Answer(e.gave.value, 0, e.clash)) else None)
    && s.node.cache == CacheOf(e, peer)
    && (if e.awaits
        then && Awaits(s.node, s.dial) && s.node.pending.Keys == {e.dial.value.rxSid}
             && s.node.pending[e.dial.value.rxSid].peerId == Some(peer)
        else s.node.pending == map[])
  }

  function CacheOf(e: End, peer: Id): Entries<Request, Reply> {
    if e.gave.Some? then map[e.gave.value.request := Cached(e.gave.value, peer, 0)] else map[]
  }

  ghost predicate Stage(w: World, h: End, t: End) {
    && At(w.here, h, t.self.id) && At(w.there, t, h.self.id) && h.self.id != t.self.id
    && (h.gave.Some? ==> h.gave.value in w.replies) && (t.gave.Some? ==> t.gave.value in w.replies)
  }

  lemma DialStage(w: World, h: End, t: End, q: Request)
    requires Stage(w, h, t) && h.dial.None? && !h.awaits && t.gave.None? && q.sender == h.self
    ensures Permitted(w, DialTo(t, q), true)
    ensures Stage(HereActs(w, DialTo(t, q), true), h.(dial := Some(q), awaits := true), t)
  {}

  lemma AnswerStage(w: World, h: End, t: End, r: Reply)
    requires Stage(w, h, t) && t.dial == Some(r.request) && h.gave.None?
    requires r.request.sender == t.self && r.sender == h.self
    ensures Permitted(w, HearDial(r), false)
    ensures Stage(HereActs(w, HearDial(r), false), h.(gave := Some(r), clash := h.awaits), t)
  {
    assert Live(w.here.node.cache, 0) == map[];
    AnsweringEffect(w.here.node, HearDial(r));
    if h.awaits {
      assert h.dial.value.rxSid in w.here.node.pending;
    }
  }

  lemma CompleteStage(w: World, h: End, t: End, r: Reply)
    requires Stage(w, h, t) && h.awaits && t.gave == Some(r) && r.sender == t.self && h.dial == Some(r.request)
    ensures Permitted(w, Hear2(r, Addr(1), 0), false)
    ensures Stage(HereActs(w, Hear2(r, Addr(1), 0), false), h.(awaits := false), t)
  {
    var consumed := w.here.node.(pending := w.here.node.pending - {r.request.rxSid});
    AddPeerLinks(consumed, InitiatorOffer(w.here.node, r, Addr(1)), 0);
  }

  function DialTo(t: End, q: Request): Action {
    Dial(Addr(1), Some(t.self.id), q.rxSid, q.salt, 0)
  }

  function HearDial(r: Reply): Action {
    Hear1(r.request, Addr(1), r.rxSid, r.salt, r.request, 0)
  }

  /** Some run, overlapping at `here` or not, brings the two ends to this point. */
  ghost predicate Possible(start: World, h: End, t: End, crossed: bool) {
    exists moves, w :: Reaches(start, moves, w, crossed) && Stage(w, h, t)
  }

  predicate Overlapping(h: End) {
    h.awaits && h.gave.Some?
  }

  lemma Advance(start: World, h: End, t: End, crossed: bool, m: Move, h': End, t': End)
    requires Possible(start, h, t, crossed)
    requires forall w | Stage(w, h, t) :: Allowed(w, m) && Stage(Apply(w, m), h', t')
    ensures Possible(start, h', t', crossed || Overlapping(h'))
  {
    var moves, w :| Reaches(start, moves, w, crossed) && Stage(w, h, t);
    Extend(start, moves, w, crossed, m);
    assert Reaches(start, moves + [m], Apply(w, m), crossed || Overlapping(h'));
  }

  lemma BothDial(start: World, us: Identity, them: Identity, q1: Request, q2: Request)
    requires Possible(start, End(us, None, false, None, false), End(them, None, false, None, false), false)
    requires q1.sender == us && q2.sender == them
    ensures Possible(start, End(us, Some(q1), true, None, false), End(them, Some(q2), true, None, false), false)
  {
    var h, t := End(us, None, false, None, false), End(them, None, false, None, false);
    var h', t' := h.(dial := Some(q1), awaits := true), t.(dial := Some(q2), awaits := true);
    var first := Move(true, DialTo(t, q1), true);
    forall w | Stage(w, h, t) ensures Allowed(w, first) && Stage(Apply(w, first), h', t) {
      DialStage(w, h, t, q1);
    }
    Advance(start, h, t, false, first, h', t);
    var second := Move(false, DialTo(h', q2), true);
    forall w | Stage(w, h', t) ensures Allowed(w, second) && Stage(Apply(w, second), h', t') {
      DialStage(Swap(w), t, h', q2);
    }
    Advance(start, h', t, false, second, h', t');
  }

  lemma HereAnswers(start: World, h: End, t: End, crossed: bool, r: Reply)
    requires Possible(start, h, t, crossed) && t.dial == Some(r.request) && h.gave.None?
    requires r.request.sender == t.self && r.sender == h.self
    ensures Possible(start, h.(gave := Some(r), clash := h.awaits), t, crossed || h.awaits)
  {
    var h' := h.(gave := Some(r), clash := h.awaits);
    var m := Move(true, HearDial(r), false);
    forall w | Stage(w, h, t) ensures Allowed(w, m) && Stage(Apply(w, m), h', t) {
      AnswerStage(w, h, t, r);
    }
    Advance(start, h, t, crossed, m, h', t);
  }

  lemma ThereAnswers(start: World, h: End, t: End, crossed: bool, r: Reply)
    requires Possible(start, h, t, crossed) && h.dial == Some(r.request) && t.gave.None? && !Overlapping(h)
    requires r.request.sender == h.self && r.sender == t.self
    ensures Possible(start, h, t.(gave := Some(r), clash := t.awaits), crossed)
  {
    var t' := t.(gave := Some(r), clash := t.awaits);
    var m := Move(false, HearDial(r), false);
    forall w | Stage(w, h, t) ensures Allowed(w, m) && Stage(Apply(w, m), h, t') {
      AnswerStage(Swap(w), t, h, r);
    }
    Advance(start, h, t, crossed, m, h, t');
  }

  lemma HereCompletes(start: World, h: End, t: End, crossed: bool, r: Reply)
    requires Possible(start, h, t, crossed) && h.awaits && t.gave == Some(r)
    requires r.sender == t.self && h.dial == Some(r.request)
    ensures Possible(start, h.(awaits := false), t, crossed)
  {
    var m := Move(true, Hear2(r, Addr(1), 0), false);
    forall w | Stage(w, h, t) ensures Allowed(w, m) && Stage(Apply(w, m), h.(awaits := false), t) {
      CompleteStage(w, h, t, r);
    }
    Advance(start, h, t, crossed, m, h.(awaits := false), t);
  }

  lemma ThereCompletes(start: World, h: End, t: End, crossed: bool, r: Reply)
    requires Possible(start, h, t, crossed) && t.awaits && h.gave == Some(r) && !h.awaits
    requires r.sender == h.self && t.dial == Some(r.request)
    ensures Possible(start, h, t.(awaits := false), crossed)
  {
    var m := Move(false, Hear2(r, Addr(1), 0), false);
    forall w | Stage(w, h, t) ensures Allowed(w, m) && Stage(Apply(w, m), h, t.(awaits := false)) {
      CompleteStage(Swap(w), t, h, r);
    }
    Advance(start, h, t, crossed, m, h, t.(awaits := false));
  }

  /** Two exchanges: each reply answers the other's dial. */
  predicate Exchanges(us: Identity, them: Identity, toUs: Reply, toThem: Reply) {
    && toUs.sender == them && toUs.request.sender == us
    && toThem.sender == us && toThem.request.sender == them
  }

  /** `here` completes its exchange, then answers the other. */
  lemma CompleteThenAnswer(start: World, us: Identity, them: Identity, toUs: Reply, toThem: Reply)
    requires Possible(start, End(us, None, false, None, false), End(them, None, false, None, false), false)
    requires Exchanges(us, them, toUs, toThem)
    ensures Possible(start, End(us, Some(toUs.request), false, Some(toThem), false),
                     End(them, Some(toThem.request), false, Some(toUs), true), false)
  {
    var q1, q2 := Some(toUs.request), Some(toThem.request);
    BothDial(start, us, them, toUs.request, toThem.request);
    ThereAnswers(start, End(us, q1, true, None, false), End(them, q2, true, None, false), false, toUs);
    HereCompletes(start, End(us, q1, true, None, false), End(them, q2, true, Some(toUs), true), false, toUs);
    HereAnswers(start, End(us, q1, false, None, false), End(them, q2, true, Some(toUs), true), false, toThem);
    ThereCompletes(start, End(us, q1, false, Some(toThem), false), End(them, q2, true, Some(toUs), true), false,
                   toThem);
  }

  /** `here` answers the other, then completes its exchange. */
  lemma AnswerThenComplete(start: World, us: Identity, them: Identity, toUs: Reply, toThem: Reply)
    requires Possible(start, End(us, None, false, None, false), End(them, None, false, None, false), false)
    requires Exchanges(us, them, toUs, toThem)
    ensures Possible(start, End(us, Some(toUs.request), false, Some(toThem), true),
                     End(them, Some(toThem.request), false, Some(toUs), true), true)
  {
    var q1, q2 := Some(toUs.request), Some(toThem.request);
    BothDial(start, us, them, toUs.request, toThem.request);
    ThereAnswers(start, End(us, q1, true, None, false), End(them, q2, true, None, false), false, toUs);
    HereAnswers(start, End(us, q1, true, None, false), End(them, q2, true, Some(toUs), true), false, toThem);
    HereCompletes(start, End(us, q1, true, Some(toThem), true), End(them, q2, true, Some(toUs), true), true, toUs);
    ThereCompletes(start, End(us, q1, false, Some(toThem), true), End(them, q2, true, Some(toUs), true), true, toThem);
  }

  lemma StartsPossible(start: World, us: Identity, them: Identity)
    requires Stage(start, End(us, None, false, None, false), End(them, None, false, None, false))
    ensures Possible(start, End(us, None, false, None, false), End(them, None, false, None, false), false)
  {
    assert Reaches(start, [], start, false);
  }

  lemma StageIsSettled(w: World, h: End, t: End)
    requires Stage(w, h, t) && h.dial.Some? && t.dial.Some? && h.gave.Some? && t.gave.Some? && !h.awaits && !t.awaits
    ensures Settled(w)
  {}

  /** Whatever the two identities, some order of the four messages leaves the ends on
      different sessions: the lower-id node completes its own exchange first and only
      then answers the other's handshake_1. */
  lemma DivergenceIsReachable(us: Identity, them: Identity, cfg: Timings) returns (moves: seq<Move>)
    requires us.id < them.id
    ensures AtRest(Fresh(us, them, cfg)) && Legal(Fresh(us, them, cfg), moves)
    ensures Settled(After(Fresh(us, them, cfg), moves)) && !Agreed(After(Fresh(us, them, cfg), moves))
  {
    var start := Fresh(us, them, cfg);
    var toUs, toThem := Reply(Request(us, 1, 0), them, 3, 0), Reply(Request(them, 2, 0), us, 4, 0);
    StartsPossible(start, us, them);
    CompleteThenAnswer(start, us, them, toUs, toThem);
    var h := End(us, Some(toUs.request), false, Some(toThem), false);
    var t := End(them, Some(toThem.request), false, Some(toUs), true);
    var w;
    moves, w :| Reaches(start, moves, w, false) && Stage(w, h, t);
    StageIsSettled(w, h, t);
    CrossingDialsConverge(start, moves);
  }

  /** A number no session key held here was derived from. */
  function UnusedSalt(kept: Session): nat {
    kept.txKey.session.request.salt + kept.rxKey.session.request.salt + 1
  }

  /** The other way to diverge: the lower-id node restarts, both dial, and the higher-id
      node, still holding the old session, refuses the new one, although the lower-id
      node answered before it completed. */
  lemma LeftoverDivergenceIsReachable(us: Identity, them: Identity, cfg: Timings, kept: Session)
    returns (moves: seq<Move>)
    requires us.id < them.id && kept.initiator == us.id
    ensures var start := Restarted(us, them, cfg, kept);
            && AtRest(start) && Legal(start, moves) && Settled(After(start, moves))
            && Crossed(start, moves) && !Agreed(After(start, moves))
  {
    var start := Restarted(us, them, cfg, kept);
    var salt := UnusedSalt(kept);
    var toUs, toThem := Reply(Request(us, 1, salt), them, 3, 0), Reply(Request(them, 2, salt), us, 4, 0);
    StartsPossible(start, us, them);
    AnswerThenComplete(start, us, them, toUs, toThem);
    var h := End(us, Some(toUs.request), false, Some(toThem), true);
    var t := End(them, Some(toThem.request), false, Some(toUs), true);
    var w;
    moves, w :| Reaches(start, moves, w, true) && Stage(w, h, t);
    StageIsSettled(w, h, t);
    CrossingDialsConverge(start, moves);
  }

  // ------------------------------------------------ what gets through

  /** A packet `sender` seals for `receiver` is matched to their session and opens: its
      session id names the sender, and the key is the one expected from it. */
  predicate Hears(receiver: Node, sender: Node) {
    var link, ours := LinkWith(sender, receiver.self.id), LinkWith(receiver, sender.self.id);
    && link.Some? && ours.Some?
    && link.value.txSid in receiver.rxSessions && receiver.rxSessions[link.value.txSid] == sender.self.id
    && ours.value.rxKey == link.value.txKey
  }

  /** Once settled, packets cross in both directions exactly when the ends agree: the
      lower-id node answered before it completed, and the other was not stuck on a
      leftover. Otherwise they cross in neither. */
  lemma PacketsCrossExactlyWhenConverged(w: World, moves: seq<Move>)
    requires AtRest(w) && IdOf(w.here) < IdOf(w.there)
    requires Legal(w, moves) && Settled(After(w, moves)) && LeftoversAreOlder(w, After(w, moves))
    requires Findable(After(w, moves).here.node) && Findable(After(w, moves).there.node)
    ensures var end := After(w, moves);
            var converged := Crossed(w, moves) && !ThereIsStuck(w, moves);
            && (Hears(end.here.node, end.there.node) <==> converged)
            && (Hears(end.there.node, end.here.node) <==> converged)
  {
    CrossingDialsConverge(w, moves);
    if !Agreed(After(w, moves)) {
      NothingCrosses(w, moves);
    }
  }

  lemma NothingCrosses(w: World, moves: seq<Move>)
    requires AtRest(w) && IdOf(w.here) < IdOf(w.there)
    requires Legal(w, moves) && Settled(After(w, moves)) && LeftoversAreOlder(w, After(w, moves))
    requires !Agreed(After(w, moves))
    ensures var end := After(w, moves);
            !Hears(end.here.node, end.there.node) && !Hears(end.there.node, end.here.node)
  {
    RunKeepsInv(w, moves);
    SameNodes(w, moves);
    LinksOfSettled(After(w, moves), HereHistory(w, moves), ThereHistory(w, moves));
  }

  // ------------------------------------------------ healing

  /** Packets and acknowledgements reach a session only from a peer it hears; ticks,
      probes and learned endpoints need no peer. */
  ghost predicate OnlyIfHeard(heard: bool, run: seq<Timed>) {
    forall i | 0 <= i < |run| && (run[i].event.SeenFrom? || run[i].event.Ack?) :: heard
  }

  /** The session's timed run from `start` on goes on past the deadline. */
  ghost predicate RunsOn(cfg: Timings, p: Peer, start: Millis, gap: Millis, run: seq<Timed>) {
    && Liveness.Past(p, start) && Clocked(start, run) && Liveness.TicksEvery(start, gap, run)
    && run != [] && run[|run| - 1].now > Liveness.Deadline(cfg, start, gap)
  }

  /** Some tick up to the deadline drops the session. */
  ghost predicate DroppedInTime(cfg: Timings, p: Peer, start: Millis, gap: Millis, run: seq<Timed>) {
    exists k | 0 <= k < |run| ::
      Liveness.Dropped(OutcomeAt(cfg, p, run, k)) && run[k].now <= Liveness.Deadline(cfg, start, gap)
  }

  lemma DeafSessionIsDropped(cfg: Timings, p: Peer, start: Millis, gap: Millis, run: seq<Timed>)
    requires RunsOn(cfg, p, start, gap, run) && OnlyIfHeard(false, run)
    ensures DroppedInTime(cfg, p, start, gap, run)
  {
    var k := Liveness.DroppedByDeadline(cfg, p, start, gap, run);
  }

  /** A node's session with the other, from `start` on: what it hears, and that it lasts. */
  ghost predicate Continues(receiver: Node, sender: Node, start: Millis, gap: Millis, run: seq<Timed>) {
    && sender.self.id in receiver.peers
    && RunsOn(receiver.cfg, receiver.peers[sender.self.id].path, start, gap, run)
    && OnlyIfHeard(Hears(receiver, sender), run)
  }

  ghost predicate HealsInTime(receiver: Node, sender: Node, start: Millis, gap: Millis, run: seq<Timed>)
    requires sender.self.id in receiver.peers
  {
    DroppedInTime(receiver.cfg, receiver.peers[sender.self.id].path, start, gap, run)
  }

  /** Divergence heals: when the ends settled on different sessions, whatever ticks,
      probes and lookups follow, each drops its session by the settlement time plus
      interval, timeout and two tick gaps. */
  lemma DivergenceHeals(w: World, moves: seq<Move>, start: Millis, gap: Millis, hereRun: seq<Timed>,
                        thereRun: seq<Timed>)
    requires AtRest(w) && IdOf(w.here) < IdOf(w.there)
    requires Legal(w, moves) && Settled(After(w, moves)) && LeftoversAreOlder(w, After(w, moves))
    requires !Agreed(After(w, moves))
    requires var end := After(w, moves);
             && Continues(end.here.node, end.there.node, start, gap, hereRun)
             && Continues(end.there.node, end.here.node, start, gap, thereRun)
    ensures var end := After(w, moves);
            && HealsInTime(end.here.node, end.there.node, start, gap, hereRun)
            && HealsInTime(end.there.node, end.here.node, start, gap, thereRun)
  {
    var end := After(w, moves);
    NothingCrosses(w, moves);
    var here, there := end.here.node, end.there.node;
    DeafSessionIsDropped(here.cfg, here.peers[there.self.id].path, start, gap, hereRun);
    DeafSessionIsDropped(there.cfg, there.peers[here.self.id].path, start, gap, thereRun);
  }

  /** A side whose session with the other was dropped, ready to dial again. */
  function Redialling(s: Side, pid: Id): Side {
    Side(RemovePeer(s.node, pid), None, None, s.clock)
  }

  /** Once both have dropped it, the two are at rest again: a new pair of dials starts from
      where the convergence theorem does. */
  lemma HealedIsAtRest(w: World, moves: seq<Move>)
    requires AtRest(w) && Legal(w, moves) && Settled(After(w, moves))
    ensures var end := After(w, moves);
            AtRest(World(Redialling(end.here, IdOf(end.there)), Redialling(end.there, IdOf(end.here)), {}))
  {
    RunKeepsInv(w, moves);
    SettledPending(After(w, moves).here, IdOf(After(w, moves).there));
    SettledPending(After(w, moves).there, IdOf(After(w, moves).here));
  }

  lemma SettledPending(s: Side, pid: Id)
    requires PendingFits(s.node, pid, s.dial) && !Awaits(s.node, s.dial)
    ensures PendingFits(s.node, pid, None)
  {}
}
