/** What a session's state says about its past: every field, and every decision of a
    maintenance tick or probe, told from the events of the run alone. */
module PeerHistory {
  import opened Bits
  import opened Types
  import opened Peers
  import opened Liveness

  // ------------------------------------------------ when a peer is dropped, probed or left alone

  /** When a packet last arrived, or the session began. */
  ghost function SeenAt(p: Peer, run: seq<Timed>): Millis {
    if run == [] then p.lastSeen
    else if run[|run| - 1].event.SeenFrom? then run[|run| - 1].now
    else SeenAt(p, run[..|run| - 1])
  }

  lemma {:induction false} SeenIsRecorded(cfg: Timings, p: Peer, run: seq<Timed>)
    ensures Run(cfg, p, run).lastSeen == SeenAt(p, run)
  {
    if run != [] {
      SeenIsRecorded(cfg, p, run[..|run| - 1]);
    }
  }

  /** When something this end sent was last acknowledged, or the session began. */
  ghost function AnsweredAt(cfg: Timings, p: Peer, run: seq<Timed>): Millis {
    if run == [] then p.lastAck
    else
      var n := |run| - 1;
      if OutcomeAt(cfg, p, run, n).Acked? && OutcomeAt(cfg, p, run, n).ack != AckUnknown then run[n].now
      else AnsweredAt(cfg, p, run[..n])
  }

  lemma {:induction false} AnswerIsRecorded(cfg: Timings, p: Peer, run: seq<Timed>)
    ensures Run(cfg, p, run).lastAck == AnsweredAt(cfg, p, run)
  {
    if run != [] {
      AnswerIsRecorded(cfg, p, run[..|run| - 1]);
    }
  }

  /** Some keepalive was started and its token never acknowledged since. */
  ghost predicate Outstanding(cfg: Timings, p: Peer, run: seq<Timed>) {
    exists i: nat, token: u64 | i < |run| :: StartsKeepalive(cfg, p, run, i, token) && NeverAcked(run, i + 1, token)
  }

  lemma OutstandingIsRecorded(cfg: Timings, p: Peer, run: seq<Timed>)
    requires p.keepalive.None?
    ensures Run(cfg, p, run).keepalive.Some? <==> Outstanding(cfg, p, run)
  {
    if Run(cfg, p, run).keepalive.Some? {
      var i := OutstandingSince(cfg, p, run);
    }
    forall i: nat, token: u64 | i < |run| && StartsKeepalive(cfg, p, run, i, token) && NeverAcked(run, i + 1, token)
      ensures Run(cfg, p, run).keepalive.Some?
    {
      StaysOutstanding(cfg, p, run, i, token);
    }
  }

  ghost function TickOutcome(cfg: Timings, p: Peer, run: seq<Timed>, now: Millis, token: u64): PeerTick {
    Tick(Run(cfg, p, run), now, cfg, token).1
  }

  /** A peer is dropped as expired exactly when nothing is outstanding and its last packet
      (or the start of the session) is at least the expiry time ago. */
  lemma ExpiredExactlyWhenUnseen(cfg: Timings, p: Peer, run: seq<Timed>, now: Millis, token: u64)
    requires p.keepalive.None?
    ensures TickOutcome(cfg, p, run, now, token) == Drop(Expired) <==>
            !Outstanding(cfg, p, run) && Since(now, SeenAt(p, run)) >= cfg.peerExpiry
  {
    OutstandingIsRecorded(cfg, p, run);
    SeenIsRecorded(cfg, p, run);
  }

  /** A fresh keepalive goes out exactly when nothing is outstanding, the peer has not
      expired, and the last acknowledgement is at least the interval ago. */
  lemma KeepaliveStartsExactly(cfg: Timings, p: Peer, run: seq<Timed>, now: Millis, token: u64)
    requires p.keepalive.None? && !Outstanding(cfg, p, run)
    ensures TickOutcome(cfg, p, run, now, token) == Keepalive(token) <==>
            && Since(now, SeenAt(p, run)) < cfg.peerExpiry
            && Since(now, AnsweredAt(cfg, p, run)) >= cfg.keepaliveInterval
  {
    OutstandingIsRecorded(cfg, p, run);
    SeenIsRecorded(cfg, p, run);
    AnswerIsRecorded(cfg, p, run);
  }

  /** When a keepalive was last put on the wire. */
  ghost function SentAt(cfg: Timings, p: Peer, run: seq<Timed>): Millis {
    if run == [] then 0
    else
      var n := |run| - 1;
      if OutcomeAt(cfg, p, run, n).Ticked? && OutcomeAt(cfg, p, run, n).tick.Keepalive? then run[n].now
      else SentAt(cfg, p, run[..n])
  }

  lemma {:induction false} SendIsRecorded(cfg: Timings, p: Peer, run: seq<Timed>)
    requires p.keepalive.None?
    ensures var k := Run(cfg, p, run).keepalive; k.Some? ==> k.value.lastSentAt == SentAt(cfg, p, run)
  {
    if run != [] {
      SendIsRecorded(cfg, p, run[..|run| - 1]);
    }
  }

  /** An unanswered keepalive is repeated, with its own token, exactly when it has not
      timed out and the last copy is at least min(interval, 2 s) old. */
  lemma KeepaliveRepeatsExactly(cfg: Timings, p: Peer, run: seq<Timed>, i: nat, first: u64, now: Millis, token: u64)
    requires p.keepalive.None? && i < |run| && StartsKeepalive(cfg, p, run, i, first) && NeverAcked(run, i + 1, first)
    ensures TickOutcome(cfg, p, run, now, token) ==
            if Since(now, run[i].now) >= cfg.keepaliveTimeout then Drop(KeepaliveTimeout)
            else if Since(now, SentAt(cfg, p, run)) >= Min(cfg.keepaliveInterval, 2_000) then Keepalive(first)
            else Idle
  {
    StaysOutstanding(cfg, p, run, i, first);
    SendIsRecorded(cfg, p, run);
  }

  /** A peer is dropped exactly when a token has waited the whole timeout for its
      acknowledgement, or nothing is outstanding and no packet came for the expiry time. */
  lemma DroppedExactly(cfg: Timings, p: Peer, run: seq<Timed>, now: Millis, token: u64)
    requires p.keepalive.None?
    ensures TickOutcome(cfg, p, run, now, token).Drop? <==>
            || (exists i: nat, first: u64 | i < |run| ::
                  && StartsKeepalive(cfg, p, run, i, first) && NeverAcked(run, i + 1, first)
                  && Since(now, run[i].now) >= cfg.keepaliveTimeout)
            || (!Outstanding(cfg, p, run) && Since(now, SeenAt(p, run)) >= cfg.peerExpiry)
  {
    TimeoutExactlyWhenUnanswered(cfg, p, run, At(now, TickAt(token)));
    ExpiredExactlyWhenUnseen(cfg, p, run, now, token);
  }

  // ------------------------------------------------ where packets go

  /** A packet whose source a session adopts: through a relay only while relayed, and
      directly unless it is a keepalive to a relayed session (a hole punch). */
  predicate Adopts(relayed: bool, e: Event) {
    e.SeenFrom? && (if e.srcIsRelay then relayed else !(relayed && e.isKeepalive))
  }

  /** The source of the last adopted packet, or the first address. */
  ghost function AdoptedAddr(cfg: Timings, p: Peer, run: seq<Timed>): Addr {
    if run == [] then p.addr
    else
      var n := |run| - 1;
      if Adopts(Run(cfg, p, run[..n]).relayed, run[n].event) then run[n].event.src
      else AdoptedAddr(cfg, p, run[..n])
  }

  /** Packets always go to the source of the last adopted packet. */
  lemma {:induction false} AddressIsLastAdopted(cfg: Timings, p: Peer, run: seq<Timed>)
    ensures Run(cfg, p, run).addr == AdoptedAddr(cfg, p, run)
  {
    if run != [] {
      AddressIsLastAdopted(cfg, p, run[..|run| - 1]);
    }
  }

  /** A session that left its relay sends to an address a packet came from directly. */
  lemma {:induction false} LeavingRelayGoesDirect(cfg: Timings, p: Peer, run: seq<Timed>)
    requires p.relayed && !Run(cfg, p, run).relayed
    ensures exists i | 0 <= i < |run| :: DirectFrom(run[i].event, Run(cfg, p, run).addr)
  {
    var n := |run| - 1;
    var before := Run(cfg, p, run[..n]);
    if Run(cfg, p, run).addr == before.addr && !before.relayed {
      LeavingRelayGoesDirect(cfg, p, run[..n]);
      var i :| 0 <= i < n && DirectFrom(run[..n][i].event, before.addr);
      assert run[i] == run[..n][i];
    } else {
      assert DirectFrom(run[n].event, Run(cfg, p, run).addr);
    }
  }

  /** The last direct endpoint the run named, or the one known at first. */
  ghost function NamedEndpoint(cfg: Timings, p: Peer, run: seq<Timed>): Option<Addr> {
    if run == [] then p.directAddr
    else
      var n := |run| - 1;
      match run[n].event
      case Learn(endpoint) => Some(endpoint)
      case SeenFrom(src, srcIsRelay, _) =>
        if !srcIsRelay && src != AdoptedAddr(cfg, p, run[..n]) then Some(src) else NamedEndpoint(cfg, p, run[..n])
      case _ => NamedEndpoint(cfg, p, run[..n])
  }

  lemma {:induction false} EndpointIsLastNamed(cfg: Timings, p: Peer, run: seq<Timed>)
    ensures Run(cfg, p, run).directAddr == NamedEndpoint(cfg, p, run)
  {
    if run != [] {
      EndpointIsLastNamed(cfg, p, run[..|run| - 1]);
      AddressIsLastAdopted(cfg, p, run[..|run| - 1]);
    }
  }

  // ------------------------------------------------ when the direct path is probed

  /** The next probe's time, from the probes since the last reset. */
  ghost predicate ProbeDue(cfg: Timings, seen: Probes, now: Millis) {
    seen.count == 0 || now >= seen.last + Backoff(cfg.directProbeInterval, seen.count - 1)
  }

  /** A probe fires exactly when the session is relayed, is not already sending to the
      endpoint it would probe, and the backoff has passed; it goes to the last endpoint
      named, or is a lookup if none ever was. */
  lemma ProbeFiresExactly(cfg: Timings, p: Peer, run: seq<Timed>, now: Millis, token: u64)
    requires p.nextProbe.None?
    ensures var endpoint := NamedEndpoint(cfg, p, run);
            TakePathProbe(Run(cfg, p, run), now, cfg, token).1 ==
            if !(p.relayed && NeverLeavesRelay(cfg, p, run)) || endpoint == Some(AdoptedAddr(cfg, p, run))
               || !ProbeDue(cfg, ProbesSinceReset(cfg, p, run), now) then NoProbe
            else if endpoint.Some? then Punch(endpoint.value, token) else Lookup
  {
    RelayedUntilDirectTraffic(cfg, p, run);
    EndpointIsLastNamed(cfg, p, run);
    AddressIsLastAdopted(cfg, p, run);
    ProbeSchedule(cfg, p, run);
    ProbeDecision(cfg, Run(cfg, p, run), ProbesSinceReset(cfg, p, run), now, token);
  }

  lemma ProbeDecision(cfg: Timings, p: Peer, seen: Probes, now: Millis, token: u64)
    requires Scheduled(cfg, p, seen)
    ensures TakePathProbe(p, now, cfg, token).1 ==
            if !p.relayed || p.directAddr == Some(p.addr) || !ProbeDue(cfg, seen, now) then NoProbe
            else if p.directAddr.Some? then Punch(p.directAddr.value, token) else Lookup
  {}

  /** The token of the last punch, until it is acknowledged or the session goes direct. */
  ghost function PunchedToken(cfg: Timings, p: Peer, run: seq<Timed>): Option<u64> {
    if run == [] then p.probeToken
    else
      var n := |run| - 1;
      var outcome := OutcomeAt(cfg, p, run, n);
      if outcome.Probed? && outcome.probe.Punch? then Some(outcome.probe.token)
      else if outcome == Acked(AckedProbe) || MovesDirect(Run(cfg, p, run[..n]), run[n].event) then None
      else PunchedToken(cfg, p, run[..n])
  }

  lemma {:induction false} PunchIsRecorded(cfg: Timings, p: Peer, run: seq<Timed>)
    ensures Run(cfg, p, run).probeToken == PunchedToken(cfg, p, run)
  {
    if run != [] {
      PunchIsRecorded(cfg, p, run[..|run| - 1]);
    }
  }

  /** An acknowledgement counts exactly when its token is the outstanding keepalive's or
      else the last unanswered punch's. */
  lemma AcknowledgedExactly(cfg: Timings, p: Peer, run: seq<Timed>, now: Millis, token: u64)
    requires p.keepalive.None?
    ensures var r := AckKeepalive(Run(cfg, p, run), token, now).1;
            var waiting := exists i: nat | i < |run| ::
                             StartsKeepalive(cfg, p, run, i, token) && NeverAcked(run, i + 1, token);
            r == if waiting then AckedKeepalive
                 else if PunchedToken(cfg, p, run) == Some(token) then AckedProbe else AckUnknown
  {
    PunchIsRecorded(cfg, p, run);
    var k := Run(cfg, p, run).keepalive;
    if k.Some? {
      var i := OutstandingSince(cfg, p, run);
    }
    forall i: nat | i < |run| && StartsKeepalive(cfg, p, run, i, token) && NeverAcked(run, i + 1, token)
      ensures k.Some? && k.value.token == token
    {
      StaysOutstanding(cfg, p, run, i, token);
    }
  }
}
