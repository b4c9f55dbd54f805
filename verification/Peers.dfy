/** The timing state of one session: which path it uses, whether its sending
    direction is alive, and when to probe for a direct path. */
module Peers {
  import opened Bits
  import opened Types

  const KEEPALIVE_RETRY_MAX: Millis := 2_000
  const DIRECT_PROBE_MAX_INTERVAL: Millis := 30_000

  datatype Timings = Timings(
    keepaliveInterval: Millis, keepaliveTimeout: Millis, directProbeInterval: Millis,
    handshakeTimeout: Millis, relayFallback: Millis, peerExpiry: Millis)

  datatype KeepalivePending = KeepalivePending(token: u64, firstSentAt: Millis, lastSentAt: Millis)

  datatype DropReason = KeepaliveTimeout | Expired
  datatype PeerTick = Idle | Keepalive(token: u64) | Drop(reason: DropReason)
  datatype KeepaliveAck = AckedKeepalive | AckedProbe | AckUnknown
  datatype PathProbe = NoProbe | Punch(target: Addr, token: u64) | Lookup

  datatype Peer = Peer(
    addr: Addr, directAddr: Option<Addr>, relayed: bool,
    lastSeen: Millis, lastAck: Millis, keepalive: Option<KeepalivePending>,
    nextProbe: Option<Millis>, probeInterval: Millis, probeToken: Option<u64>)

  // ------------------------------------------------ what each operation does

  /** An authenticated packet arrived: the peer is alive, and may have moved. */
  function MarkSeen(p: Peer, src: Addr, now: Millis, srcIsRelay: bool, isKeepalive: bool): (Peer, Option<Addr>) {
    var seen := p.(lastSeen := now);
    if p.addr == src then (seen, None)
    else if srcIsRelay then
      if p.relayed then (seen.(addr := src), Some(p.addr)) else (seen, None)
    else if p.relayed && isKeepalive then
      (if p.directAddr == Some(src) then seen else seen.(directAddr := Some(src), nextProbe := None), None)
    else
      (seen.(addr := src, directAddr := Some(src), relayed := false, nextProbe := None, probeToken := None),
       Some(p.addr))
  }

  function AckKeepalive(p: Peer, token: u64, now: Millis): (Peer, KeepaliveAck) {
    if p.keepalive.Some? && p.keepalive.value.token == token then
      (p.(keepalive := None, lastAck := now), AckedKeepalive)
    else if p.probeToken == Some(token) then
      (p.(probeToken := None, lastAck := now), AckedProbe)
    else (p, AckUnknown)
  }

  function Tick(p: Peer, now: Millis, cfg: Timings, token: u64): (Peer, PeerTick) {
    match p.keepalive
    case Some(k) =>
      if Since(now, k.firstSentAt) >= cfg.keepaliveTimeout then (p, Drop(KeepaliveTimeout))
      else if Since(now, k.lastSentAt) >= RetryInterval(cfg) then
        (p.(keepalive := Some(k.(lastSentAt := now))), Keepalive(k.token))
      else (p, Idle)
    case None =>
      if Since(now, p.lastSeen) >= cfg.peerExpiry then (p, Drop(Expired))
      else if Since(now, p.lastAck) >= cfg.keepaliveInterval then
        (p.(keepalive := Some(KeepalivePending(token, now, now))), Keepalive(token))
      else (p, Idle)
  }

  function RetryInterval(cfg: Timings): Millis {
    Min(cfg.keepaliveInterval, KEEPALIVE_RETRY_MAX)
  }

  function TakePathProbe(p: Peer, now: Millis, cfg: Timings, token: u64): (Peer, PathProbe) {
    if !p.relayed || p.directAddr == Some(p.addr) || (p.nextProbe.Some? && now < p.nextProbe.value) then (p, NoProbe)
    else
      var interval := if p.nextProbe.None? then cfg.directProbeInterval
                      else Min(p.probeInterval * 2, DIRECT_PROBE_MAX_INTERVAL);
      var scheduled := p.(probeInterval := interval, nextProbe := Some(now + interval));
      match p.directAddr
      case Some(direct) => (scheduled.(probeToken := Some(token)), Punch(direct, token))
      case None => (scheduled, Lookup)
  }

  /** A direct endpoint was learned outside the session's own traffic. */
  function LearnEndpoint(p: Peer, endpoint: Addr): Peer {
    if p.directAddr == Some(endpoint) then p else p.(directAddr := Some(endpoint), nextProbe := None)
  }

  class PeerState {
    var addr: Addr
    var directAddr: Option<Addr>
    var relayed: bool
    var lastSeen: Millis
    var lastAck: Millis
    var keepalive: Option<KeepalivePending>
    var nextProbe: Option<Millis>
    var probeInterval: Millis
    var probeToken: Option<u64>

    ghost function View(): Peer
      reads this
    {
      Peer(addr, directAddr, relayed, lastSeen, lastAck, keepalive, nextProbe, probeInterval, probeToken)
    }

    /** The state `add_peer` creates for a fresh session. */
    constructor (addr: Addr, directAddr: Option<Addr>, relayed: bool, now: Millis, cfg: Timings)
      ensures View() == Peer(addr, directAddr, relayed, now, now, None, None, cfg.directProbeInterval, None)
    {
      this.addr, this.directAddr, this.relayed := addr, directAddr, relayed;
      lastSeen, lastAck, keepalive := now, now, None;
      nextProbe, probeInterval, probeToken := None, cfg.directProbeInterval, None;
    }

    method Seen(src: Addr, now: Millis, srcIsRelay: bool, isKeepalive: bool) returns (moved: Option<Addr>)
      modifies this
      ensures (View(), moved) == MarkSeen(old(View()), src, now, srcIsRelay, isKeepalive)
    {
      lastSeen := now;
      if addr == src {
        return None;
      }
      if srcIsRelay {
        if !relayed {
          return None;
        }
      } else if relayed && isKeepalive {
        if directAddr != Some(src) {
          directAddr := Some(src);
          nextProbe := None;
        }
        return None;
      }
      moved := Some(addr);
      addr := src;
      if !srcIsRelay {
        directAddr := Some(src);
        relayed := false;
        nextProbe := None;
        probeToken := None;
      }
    }

    method Acknowledge(token: u64, now: Millis) returns (r: KeepaliveAck)
      modifies this
      ensures (View(), r) == AckKeepalive(old(View()), token, now)
    {
      if keepalive.Some? && keepalive.value.token == token {
        keepalive := None;
        lastAck := now;
        return AckedKeepalive;
      }
      if probeToken == Some(token) {
        probeToken := None;
        lastAck := now;
        return AckedProbe;
      }
      return AckUnknown;
    }

    method MaintenanceTick(now: Millis, cfg: Timings, token: u64) returns (r: PeerTick)
      modifies this
      ensures (View(), r) == Tick(old(View()), now, cfg, token)
    {
      if keepalive.Some? {
        var pending := keepalive.value;
        if Since(now, pending.firstSentAt) >= cfg.keepaliveTimeout {
          return Drop(KeepaliveTimeout);
        }
        if Since(now, pending.lastSentAt) >= RetryInterval(cfg) {
          keepalive := Some(pending.(lastSentAt := now));
          return Keepalive(pending.token);
        }
        return Idle;
      }
      if Since(now, lastSeen) >= cfg.peerExpiry {
        return Drop(Expired);
      }
      if Since(now, lastAck) >= cfg.keepaliveInterval {
        keepalive := Some(KeepalivePending(token, now, now));
        return Keepalive(token);
      }
      return Idle;
    }

    method ProbePath(now: Millis, cfg: Timings, token: u64) returns (r: PathProbe)
      modifies this
      ensures (View(), r) == TakePathProbe(old(View()), now, cfg, token)
    {
      if !relayed {
        return NoProbe;
      }
      if directAddr == Some(addr) {
        return NoProbe;
      }
      if nextProbe.Some? && now < nextProbe.value {
        return NoProbe;
      }
      if nextProbe.None? {
        probeInterval := cfg.directProbeInterval;
      } else {
        probeInterval := Min(probeInterval * 2, DIRECT_PROBE_MAX_INTERVAL);
      }
      nextProbe := Some(now + probeInterval);
      if directAddr.Some? {
        probeToken := Some(token);
        return Punch(directAddr.value, token);
      }
      return Lookup;
    }

    method NoteEndpoint(endpoint: Addr)
      modifies this
      ensures View() == LearnEndpoint(old(View()), endpoint)
    {
      if directAddr == Some(endpoint) {
        return;
      }
      directAddr := Some(endpoint);
      nextProbe := None;
    }
  }

  // ------------------------------------------------ runs of one session

  datatype Event =
    | SeenFrom(src: Addr, srcIsRelay: bool, isKeepalive: bool)
    | Ack(token: u64)
    | TickAt(token: u64)
    | ProbeAt(token: u64)
    | Learn(endpoint: Addr)

  datatype Timed = At(now: Millis, event: Event)

  datatype Outcome = Quiet | Acked(ack: KeepaliveAck) | Ticked(tick: PeerTick) | Probed(probe: PathProbe)

  function Step(cfg: Timings, p: Peer, t: Timed): (Peer, Outcome) {
    match t.event
    case SeenFrom(src, srcIsRelay, isKeepalive) => (MarkSeen(p, src, t.now, srcIsRelay, isKeepalive).0, Quiet)
    case Ack(token) => var (p', r) := AckKeepalive(p, token, t.now); (p', Acked(r))
    case TickAt(token) => var (p', r) := Tick(p, t.now, cfg, token); (p', Ticked(r))
    case ProbeAt(token) => var (p', r) := TakePathProbe(p, t.now, cfg, token); (p', Probed(r))
    case Learn(endpoint) => (LearnEndpoint(p, endpoint), Quiet)
  }

  ghost function Run(cfg: Timings, p: Peer, run: seq<Timed>): Peer {
    if run == [] then p else Step(cfg, Run(cfg, p, run[..|run| - 1]), run[|run| - 1]).0
  }

  ghost function OutcomeAt(cfg: Timings, p: Peer, run: seq<Timed>, i: nat): Outcome
    requires i < |run|
  {
    Step(cfg, Run(cfg, p, run[..i]), run[i]).1
  }

  ghost predicate Clocked(start: Millis, run: seq<Timed>) {
    && (forall i | 0 <= i < |run| :: start <= run[i].now)
    && (forall i, j | 0 <= i < j < |run| :: run[i].now <= run[j].now)
  }

  // ------------------------------------------------ path migration

  /** The only kind of step that takes a session off its relay. */
  predicate GoesDirect(p: Peer, e: Event) {
    e.SeenFrom? && !e.srcIsRelay && !e.isKeepalive && e.src != p.addr
  }

  /** The packet moves the session to its own, direct source. */
  predicate MovesDirect(p: Peer, e: Event) {
    e.SeenFrom? && !e.srcIsRelay && e.src != p.addr && !(p.relayed && e.isKeepalive)
  }

  predicate ProbesOnlyRelayed(p: Peer) {
    !p.relayed ==> p.nextProbe.None? && p.probeToken.None?
  }

  ghost predicate NeverLeavesRelay(cfg: Timings, p: Peer, run: seq<Timed>) {
    forall i | 0 <= i < |run| :: !GoesDirect(Run(cfg, p, run[..i]), run[i].event)
  }

  lemma NeverLeavesOneMore(cfg: Timings, p: Peer, run: seq<Timed>)
    requires run != []
    ensures var n := |run| - 1;
            NeverLeavesRelay(cfg, p, run) <==>
            NeverLeavesRelay(cfg, p, run[..n]) && !GoesDirect(Run(cfg, p, run[..n]), run[n].event)
  {
    var n := |run| - 1;
    forall i | 0 <= i < n
      ensures run[..n][..i] == run[..i] && run[..n][i] == run[i]
    {}
    if NeverLeavesRelay(cfg, p, run) {
      forall i | 0 <= i < n
        ensures !GoesDirect(Run(cfg, p, run[..n][..i]), run[..n][i].event)
      {
        assert !GoesDirect(Run(cfg, p, run[..i]), run[i].event);
      }
    }
  }

  lemma RelayStep(cfg: Timings, p: Peer, t: Timed)
    ensures Step(cfg, p, t).0.relayed <==> p.relayed && !GoesDirect(p, t.event)
    ensures ProbesOnlyRelayed(p) ==> ProbesOnlyRelayed(Step(cfg, p, t).0)
  {}

  /** A session is still relayed exactly when it began so and no non-keepalive packet
      from a new, non-relay source has arrived; a direct one has nothing to probe. */
  lemma {:induction false} RelayedUntilDirectTraffic(cfg: Timings, p: Peer, run: seq<Timed>)
    ensures Run(cfg, p, run).relayed <==> p.relayed && NeverLeavesRelay(cfg, p, run)
    ensures ProbesOnlyRelayed(p) ==> ProbesOnlyRelayed(Run(cfg, p, run))
  {
    if run != [] {
      RelayedUntilDirectTraffic(cfg, p, run[..|run| - 1]);
      NeverLeavesOneMore(cfg, p, run);
      RelayStep(cfg, Run(cfg, p, run[..|run| - 1]), run[|run| - 1]);
    }
  }

  /** `mark_seen` reports the address left behind, exactly when it changed. */
  lemma MoveIsReported(p: Peer, src: Addr, now: Millis, srcIsRelay: bool, isKeepalive: bool)
    ensures var (p', moved) := MarkSeen(p, src, now, srcIsRelay, isKeepalive);
            moved == if p'.addr != p.addr then Some(p.addr) else None
  {}

  /** Step i of the run changed the address packets are sent to. */
  ghost predicate MovesAt(cfg: Timings, p: Peer, run: seq<Timed>, i: nat)
    requires i < |run|
  {
    Run(cfg, p, run[..i + 1]).addr != Run(cfg, p, run[..i]).addr
  }

  /** A packet that came straight from this address. */
  predicate DirectFrom(e: Event, a: Addr) {
    e.SeenFrom? && !e.srcIsRelay && e.src == a
  }

  lemma DirectMove(cfg: Timings, p: Peer, t: Timed)
    requires !p.relayed && Step(cfg, p, t).0.addr != p.addr
    ensures DirectFrom(t.event, Step(cfg, p, t).0.addr)
  {}

  /** Once direct, always direct: every later move of the address, one by one, is to
      the source of a packet that arrived at that moment without a relay. */
  lemma DirectStaysDirect(cfg: Timings, p: Peer, run: seq<Timed>)
    requires !p.relayed
    ensures !Run(cfg, p, run).relayed
    ensures forall i | 0 <= i < |run| && MovesAt(cfg, p, run, i) ::
              DirectFrom(run[i].event, Run(cfg, p, run[..i + 1]).addr)
  {
    RelayedUntilDirectTraffic(cfg, p, run);
    forall i | 0 <= i < |run| && MovesAt(cfg, p, run, i)
      ensures DirectFrom(run[i].event, Run(cfg, p, run[..i + 1]).addr)
    {
      assert run[..i + 1][..i] == run[..i];
      RelayedUntilDirectTraffic(cfg, p, run[..i]);
      DirectMove(cfg, Run(cfg, p, run[..i]), run[i]);
    }
  }
}
