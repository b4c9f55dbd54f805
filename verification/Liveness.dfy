/** Keepalive and probe timing over whole runs of one session: a dead sending
    direction is found in bounded time, and transmissions stay within budget. */
module Liveness {
  import opened Bits
  import opened Types
  import opened Peers

  // ------------------------------------------------ dead-direction detection

  /** When the last maintenance tick of the run was (its start, if none yet). */
  ghost function LastTick(start: Millis, run: seq<Timed>): Millis {
    if run == [] then start
    else if run[|run| - 1].event.TickAt? then run[|run| - 1].now
    else LastTick(start, run[..|run| - 1])
  }

  /** Maintenance ticks come at most `gap` apart. */
  ghost predicate TicksEvery(start: Millis, gap: Millis, run: seq<Timed>) {
    forall i | 0 <= i < |run| :: run[i].now <= LastTick(start, run[..i]) + gap
  }

  ghost predicate Dropped(o: Outcome) {
    o.Ticked? && o.tick.Drop?
  }

  ghost predicate NeverDropped(cfg: Timings, p: Peer, run: seq<Timed>) {
    forall i | 0 <= i < |run| :: !Dropped(OutcomeAt(cfg, p, run, i))
  }

  /** No acknowledgement answers anything this end has outstanding. */
  ghost predicate NothingAnswered(cfg: Timings, p: Peer, run: seq<Timed>) {
    forall i | 0 <= i < |run| && run[i].event.Ack? :: OutcomeAt(cfg, p, run, i) == Acked(AckUnknown)
  }

  /** Ticks come on time and nothing is answered. */
  ghost predicate Silent(cfg: Timings, p: Peer, start: Millis, gap: Millis, run: seq<Timed>) {
    Clocked(start, run) && TicksEvery(start, gap, run) && NothingAnswered(cfg, p, run)
  }

  ghost predicate Unanswered(cfg: Timings, p: Peer, start: Millis, gap: Millis, run: seq<Timed>) {
    Silent(cfg, p, start, gap, run) && NeverDropped(cfg, p, run)
  }

  lemma OutcomeInPrefix(cfg: Timings, p: Peer, run: seq<Timed>, n: nat)
    requires n <= |run|
    ensures forall i | 0 <= i < n ::
              run[..n][i] == run[i] && OutcomeAt(cfg, p, run[..n], i) == OutcomeAt(cfg, p, run, i)
  {
    forall i | 0 <= i < n
      ensures OutcomeAt(cfg, p, run[..n], i) == OutcomeAt(cfg, p, run, i)
    {
      assert run[..n][..i] == run[..i];
    }
  }

  lemma SilentPrefix(cfg: Timings, p: Peer, start: Millis, gap: Millis, run: seq<Timed>, n: nat)
    requires Silent(cfg, p, start, gap, run) && n <= |run|
    ensures Silent(cfg, p, start, gap, run[..n])
    ensures NeverDropped(cfg, p, run) ==> NeverDropped(cfg, p, run[..n])
  {
    OutcomeInPrefix(cfg, p, run, n);
    forall i | 0 <= i < n
      ensures LastTick(start, run[..n][..i]) == LastTick(start, run[..i])
    {
      assert run[..n][..i] == run[..i];
    }
  }

  /** The peer's own timestamps lie in the past. */
  predicate Past(p: Peer, start: Millis) {
    p.lastAck <= start && (p.keepalive.Some? ==> p.keepalive.value.firstSentAt <= start)
  }

  /** How far an unanswered run can have come. */
  predicate OnSchedule(cfg: Timings, p: Peer, start: Millis, gap: Millis, lastTick: Millis) {
    && p.lastAck <= start
    && match p.keepalive
       case None => lastTick <= start + cfg.keepaliveInterval
       case Some(k) =>
         && k.firstSentAt <= start + cfg.keepaliveInterval + gap
         && lastTick <= start + cfg.keepaliveInterval + gap + cfg.keepaliveTimeout
  }

  lemma StepOnSchedule(cfg: Timings, p: Peer, start: Millis, gap: Millis, lastTick: Millis, t: Timed)
    requires OnSchedule(cfg, p, start, gap, lastTick)
    requires start <= t.now <= lastTick + gap
    requires !Dropped(Step(cfg, p, t).1)
    requires t.event.Ack? ==> Step(cfg, p, t).1 == Acked(AckUnknown)
    ensures OnSchedule(cfg, Step(cfg, p, t).0, start, gap, if t.event.TickAt? then t.now else lastTick)
  {}

  lemma {:induction false} RunOnSchedule(cfg: Timings, p: Peer, start: Millis, gap: Millis, run: seq<Timed>)
    requires Past(p, start) && Unanswered(cfg, p, start, gap, run)
    ensures OnSchedule(cfg, Run(cfg, p, run), start, gap, LastTick(start, run))
  {
    if run != [] {
      var n := |run| - 1;
      SilentPrefix(cfg, p, start, gap, run, n);
      RunOnSchedule(cfg, p, start, gap, run[..n]);
      assert !Dropped(OutcomeAt(cfg, p, run, n));
      StepOnSchedule(cfg, Run(cfg, p, run[..n]), start, gap, LastTick(start, run[..n]), run[n]);
    }
  }

  /** When a peer that answers nothing from `start` on must be gone. */
  function Deadline(cfg: Timings, start: Millis, gap: Millis): Millis {
    start + cfg.keepaliveInterval + cfg.keepaliveTimeout + 2 * gap
  }

  /** Whatever traffic keeps arriving, a peer that answers nothing is gone by
      start + interval + timeout + two tick gaps: nothing happens to it later. */
  lemma DeadDirectionIsDropped(cfg: Timings, p: Peer, start: Millis, gap: Millis, run: seq<Timed>)
    requires Past(p, start) && Unanswered(cfg, p, start, gap, run)
    ensures forall i | 0 <= i < |run| :: run[i].now <= Deadline(cfg, start, gap)
  {
    forall i | 0 <= i < |run|
      ensures run[i].now <= Deadline(cfg, start, gap)
    {
      SilentPrefix(cfg, p, start, gap, run, i);
      RunOnSchedule(cfg, p, start, gap, run[..i]);
    }
  }

  lemma {:induction false} FirstDrop(cfg: Timings, p: Peer, run: seq<Timed>) returns (k: nat)
    requires !NeverDropped(cfg, p, run)
    ensures k < |run| && Dropped(OutcomeAt(cfg, p, run, k)) && NeverDropped(cfg, p, run[..k])
  {
    var n := |run| - 1;
    OutcomeInPrefix(cfg, p, run, n);
    if NeverDropped(cfg, p, run[..n]) {
      k := n;
    } else {
      k := FirstDrop(cfg, p, run[..n]);
      assert run[..n][..k] == run[..k];
    }
  }

  /** The same, said of the drop itself: in a silent run that goes on past the deadline,
      some tick at or before the deadline drops the peer. */
  lemma DroppedByDeadline(cfg: Timings, p: Peer, start: Millis, gap: Millis, run: seq<Timed>) returns (k: nat)
    requires Past(p, start) && Silent(cfg, p, start, gap, run)
    requires run != [] && run[|run| - 1].now > Deadline(cfg, start, gap)
    ensures k < |run| && Dropped(OutcomeAt(cfg, p, run, k)) && run[k].now <= Deadline(cfg, start, gap)
  {
    if NeverDropped(cfg, p, run) {
      DeadDirectionIsDropped(cfg, p, start, gap, run);
      assert false;
    }
    k := FirstDrop(cfg, p, run);
    SilentPrefix(cfg, p, start, gap, run, k);
    RunOnSchedule(cfg, p, start, gap, run[..k]);
    assert run[k].now <= LastTick(start, run[..k]) + gap;
  }

  // ------------------------------------------------ what a timeout means

  /** Tick i put a fresh keepalive with this token on the wire. */
  ghost predicate StartsKeepalive(cfg: Timings, p: Peer, run: seq<Timed>, i: nat, token: u64)
    requires i < |run|
  {
    && run[i].event == TickAt(token)
    && Run(cfg, p, run[..i]).keepalive.None?
    && OutcomeAt(cfg, p, run, i) == Ticked(Keepalive(token))
  }

  ghost predicate NeverAcked(run: seq<Timed>, from: nat, token: u64) {
    forall j | from <= j < |run| :: run[j].event != Ack(token)
  }

  lemma StartsInPrefix(cfg: Timings, p: Peer, run: seq<Timed>, n: nat, i: nat, token: u64)
    requires i < n <= |run|
    ensures StartsKeepalive(cfg, p, run[..n], i, token) <==> StartsKeepalive(cfg, p, run, i, token)
  {
    assert run[..n][..i] == run[..i];
  }

  /** An outstanding keepalive was started by some tick and never acknowledged since. */
  lemma {:induction false} OutstandingSince(cfg: Timings, p: Peer, run: seq<Timed>) returns (i: nat)
    requires p.keepalive.None? && Run(cfg, p, run).keepalive.Some?
    ensures i < |run|
    ensures var k := Run(cfg, p, run).keepalive.value;
            && StartsKeepalive(cfg, p, run, i, k.token) && run[i].now == k.firstSentAt
            && NeverAcked(run, i + 1, k.token)
  {
    var n := |run| - 1;
    var before := Run(cfg, p, run[..n]);
    if before.keepalive.Some? {
      i := OutstandingSince(cfg, p, run[..n]);
      StartsInPrefix(cfg, p, run, n, i, before.keepalive.value.token);
      var token := before.keepalive.value.token;
      forall j | i + 1 <= j < |run|
        ensures run[j].event != Ack(token)
      {
        assert j < n ==> run[j] == run[..n][j];
      }
    } else {
      i := n;
    }
  }

  /** A started keepalive stays outstanding until its own token is acknowledged. */
  lemma {:induction false} StaysOutstanding(cfg: Timings, p: Peer, run: seq<Timed>, i: nat, token: u64)
    requires i < |run| && StartsKeepalive(cfg, p, run, i, token) && NeverAcked(run, i + 1, token)
    ensures var k := Run(cfg, p, run).keepalive;
            k.Some? && k.value.token == token && k.value.firstSentAt == run[i].now
    decreases |run|
  {
    var n := |run| - 1;
    if i < n {
      StartsInPrefix(cfg, p, run, n, i, token);
      assert forall j | i + 1 <= j < n :: run[..n][j] == run[j];
      StaysOutstanding(cfg, p, run[..n], i, token);
      assert run[n].event != Ack(token);
    }
  }

  /** A tick reports a keepalive timeout exactly when some token has been waiting for
      its acknowledgement at least the timeout. */
  lemma TimeoutExactlyWhenUnanswered(cfg: Timings, p: Peer, run: seq<Timed>, t: Timed)
    requires p.keepalive.None? && t.event.TickAt?
    ensures Step(cfg, Run(cfg, p, run), t).1 == Ticked(Drop(KeepaliveTimeout)) <==>
            exists i: nat, token: u64 | i < |run| ::
              && StartsKeepalive(cfg, p, run, i, token) && NeverAcked(run, i + 1, token)
              && Since(t.now, run[i].now) >= cfg.keepaliveTimeout
  {
    if Step(cfg, Run(cfg, p, run), t).1 == Ticked(Drop(KeepaliveTimeout)) {
      var i := OutstandingSince(cfg, p, run);
    }
    forall i: nat, token: u64 | i < |run| && StartsKeepalive(cfg, p, run, i, token) && NeverAcked(run, i + 1, token)
                                && Since(t.now, run[i].now) >= cfg.keepaliveTimeout
      ensures Step(cfg, Run(cfg, p, run), t).1 == Ticked(Drop(KeepaliveTimeout))
    {
      StaysOutstanding(cfg, p, run, i, token);
    }
  }

  // ------------------------------------------------ transmission budget

  /** How often the outstanding keepalive has been sent, one step later. */
  ghost function SentAfter(cfg: Timings, p: Peer, t: Timed, sent: nat): nat {
    var earlier := if p.keepalive.Some? then sent else 0;
    match Step(cfg, p, t).1
    case Ticked(Keepalive(_)) => earlier + 1
    case _ => earlier
  }

  ghost function TimesSent(cfg: Timings, p: Peer, run: seq<Timed>): nat {
    if run == [] then 0
    else
      var n := |run| - 1;
      SentAfter(cfg, Run(cfg, p, run[..n]), run[n], TimesSent(cfg, p, run[..n]))
  }

  ghost predicate Spaced(cfg: Timings, p: Peer, sent: nat, now: Millis) {
    match p.keepalive
    case None => true
    case Some(k) =>
      && sent >= 1
      && (sent - 1) * RetryInterval(cfg) <= k.lastSentAt - k.firstSentAt < cfg.keepaliveTimeout
      && k.lastSentAt <= now
  }

  lemma SpacedStep(cfg: Timings, p: Peer, sent: nat, before: Millis, t: Timed)
    requires Spaced(cfg, p, sent, before) && before <= t.now && cfg.keepaliveTimeout > 0
    ensures Spaced(cfg, Step(cfg, p, t).0, SentAfter(cfg, p, t, sent), t.now)
  {
    if sent >= 1 {
      assert sent * RetryInterval(cfg) == (sent - 1) * RetryInterval(cfg) + RetryInterval(cfg);
    }
  }

  ghost function LastTime(start: Millis, run: seq<Timed>): Millis {
    if run == [] then start else run[|run| - 1].now
  }

  lemma {:induction false} SendsAreSpaced(cfg: Timings, p: Peer, start: Millis, run: seq<Timed>)
    requires p.keepalive.None? && Clocked(start, run) && cfg.keepaliveTimeout > 0
    ensures Spaced(cfg, Run(cfg, p, run), TimesSent(cfg, p, run), LastTime(start, run))
  {
    if run != [] {
      var n := |run| - 1;
      SendsAreSpaced(cfg, p, start, run[..n]);
      SpacedStep(cfg, Run(cfg, p, run[..n]), TimesSent(cfg, p, run[..n]), LastTime(start, run[..n]), run[n]);
    }
  }

  /** A keepalive sent n times satisfies (n - 1) * min(interval, 2 s) < timeout. */
  lemma KeepaliveBudget(cfg: Timings, p: Peer, start: Millis, run: seq<Timed>)
    requires p.keepalive.None? && Clocked(start, run) && cfg.keepaliveTimeout > 0
    requires Run(cfg, p, run).keepalive.Some?
    ensures TimesSent(cfg, p, run) >= 1
    ensures (TimesSent(cfg, p, run) - 1) * RetryInterval(cfg) < cfg.keepaliveTimeout
  {
    SendsAreSpaced(cfg, p, start, run);
  }

  // ------------------------------------------------ probe backoff

  ghost predicate Fires(o: Outcome) {
    o.Probed? && o.probe != NoProbe
  }

  /** The event names a direct endpoint other than the one known. */
  predicate NewEndpoint(p: Peer, e: Event) {
    match e
    case Learn(endpoint) => p.directAddr != Some(endpoint)
    case SeenFrom(src, srcIsRelay, _) => !srcIsRelay && src != p.addr && p.directAddr != Some(src)
    case _ => false
  }

  /** Probes and lookups since the schedule was last reset, and when the last was. */
  datatype Probes = Probes(count: nat, last: Millis)

  ghost function ProbesAfter(cfg: Timings, p: Peer, t: Timed, seen: Probes): Probes {
    if Fires(Step(cfg, p, t).1) then Probes(seen.count + 1, t.now)
    else if NewEndpoint(p, t.event) || MovesDirect(p, t.event) then Probes(0, seen.last)
    else seen
  }

  ghost function ProbesSinceReset(cfg: Timings, p: Peer, run: seq<Timed>): Probes {
    if run == [] then Probes(0, 0)
    else
      var n := |run| - 1;
      ProbesAfter(cfg, Run(cfg, p, run[..n]), run[n], ProbesSinceReset(cfg, p, run[..n]))
  }

  /** The configured base first, then doubling up to the ceiling. */
  function Backoff(base: Millis, k: nat): Millis {
    if k == 0 then base else Min(base * Pow2(k), DIRECT_PROBE_MAX_INTERVAL)
  }

  lemma BackoffDoubles(base: Millis, k: nat)
    ensures Backoff(base, k + 1) == Min(Backoff(base, k) * 2, DIRECT_PROBE_MAX_INTERVAL)
  {
    assert base * Pow2(k + 1) == (base * Pow2(k)) * 2;
  }

  ghost predicate Scheduled(cfg: Timings, p: Peer, seen: Probes) {
    if seen.count == 0 then p.nextProbe.None?
    else
      && p.probeInterval == Backoff(cfg.directProbeInterval, seen.count - 1)
      && p.nextProbe == Some(seen.last + p.probeInterval)
  }

  lemma OnlyProbesReschedule(cfg: Timings, p: Peer, t: Timed)
    requires !t.event.ProbeAt?
    ensures var p' := Step(cfg, p, t).0;
            if NewEndpoint(p, t.event) || MovesDirect(p, t.event) then p'.nextProbe.None?
            else p'.nextProbe == p.nextProbe && p'.probeInterval == p.probeInterval
  {}

  lemma ScheduledStep(cfg: Timings, p: Peer, seen: Probes, t: Timed)
    requires Scheduled(cfg, p, seen)
    ensures Scheduled(cfg, Step(cfg, p, t).0, ProbesAfter(cfg, p, t, seen))
  {
    if t.event.ProbeAt? {
      ProbeReschedules(cfg, p, seen, t);
    } else {
      OnlyProbesReschedule(cfg, p, t);
    }
  }

  lemma ProbeReschedules(cfg: Timings, p: Peer, seen: Probes, t: Timed)
    requires Scheduled(cfg, p, seen) && t.event.ProbeAt?
    ensures Scheduled(cfg, Step(cfg, p, t).0, ProbesAfter(cfg, p, t, seen))
  {
    if seen.count > 0 {
      BackoffDoubles(cfg.directProbeInterval, seen.count - 1);
    }
  }

  lemma {:induction false} ProbeSchedule(cfg: Timings, p: Peer, run: seq<Timed>)
    requires p.nextProbe.None?
    ensures Scheduled(cfg, Run(cfg, p, run), ProbesSinceReset(cfg, p, run))
  {
    if run != [] {
      var n := |run| - 1;
      ProbeSchedule(cfg, p, run[..n]);
      ScheduledStep(cfg, Run(cfg, p, run[..n]), ProbesSinceReset(cfg, p, run[..n]), run[n]);
    }
  }

  /** A probe sent now sets the interval to its closed form, and comes at least the
      previous interval after the previous probe. */
  ghost predicate BacksOff(cfg: Timings, p: Peer, seen: Probes, t: Timed) {
    var after := Step(cfg, p, t).0;
    && after.probeInterval == Backoff(cfg.directProbeInterval, seen.count)
    && after.nextProbe == Some(t.now + after.probeInterval)
    && (seen.count > 0 ==> seen.last + Backoff(cfg.directProbeInterval, seen.count - 1) <= t.now)
  }

  lemma FiresOnSchedule(cfg: Timings, p: Peer, seen: Probes, t: Timed)
    requires Scheduled(cfg, p, seen) && Fires(Step(cfg, p, t).1)
    ensures BacksOff(cfg, p, seen, t)
  {
    if seen.count > 0 {
      BackoffDoubles(cfg.directProbeInterval, seen.count - 1);
    }
  }

  /** In every run: between resets the interval is the base, then min(base * 2^k, 30 s)
      after k further probes, and probes keep that distance. */
  lemma ProbesBackOff(cfg: Timings, p: Peer, run: seq<Timed>, t: Timed)
    requires p.nextProbe.None? && Fires(Step(cfg, Run(cfg, p, run), t).1)
    ensures BacksOff(cfg, Run(cfg, p, run), ProbesSinceReset(cfg, p, run), t)
  {
    ProbeSchedule(cfg, p, run);
    FiresOnSchedule(cfg, Run(cfg, p, run), ProbesSinceReset(cfg, p, run), t);
  }
}
