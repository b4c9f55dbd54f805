/** When an unanswered handshake is certain to be tried through a relay before it is
    abandoned, however the maintenance ticks fall. */
module Fallback {
  import opened Bits
  import opened Types
  import opened Peers
  import opened Retry

  ghost predicate RelayAlwaysConnected<M>(h: Pending<M>, ticks: seq<Maintenance>) {
    forall i | 0 <= i < |ticks| :: FindRelay(ticks[i].relays, h.peerId).Some?
  }

  /** Tick i sent a copy to the relay the handshake had fallen back to by then. */
  ghost predicate CopyToRelay<M>(cfg: Timings, h: Pending<M>, ticks: seq<Maintenance>, i: nat)
    requires i < |ticks|
  {
    match RunTicks(cfg, h, ticks[..i])
    case None => false
    case Some(before) => SendsToRelay(cfg, before, ticks[i])
  }

  /** One tick of one handshake sends a copy to its relay. */
  ghost predicate SendsToRelay<M>(cfg: Timings, h: Pending<M>, t: Maintenance) {
    var (h', sent) := TickOne(h, t.now, cfg, t.relays);
    h'.Some? && h'.value.relayAddr.Some? && h'.value.relayAddr.value in sent
  }

  ghost predicate NoCopyYet<M>(cfg: Timings, h: Pending<M>, ticks: seq<Maintenance>) {
    forall i | 0 <= i < |ticks| :: !CopyToRelay(cfg, h, ticks, i)
  }

  /** The ticks go on until the handshake would have been abandoned. */
  ghost predicate Outlives<M>(cfg: Timings, h: Pending<M>, ticks: seq<Maintenance>) {
    ticks != [] && LastTime(h, ticks) >= h.createdAt + cfg.handshakeTimeout
  }

  /** A copy reaches a relay before the handshake is abandoned, however the ticks fall. */
  ghost predicate FallbackGuaranteed<M>(cfg: Timings, h: Pending<M>, gap: Millis) {
    forall ticks | Regular(h, gap, ticks) && RelayAlwaysConnected(h, ticks) && Outlives(cfg, h, ticks) ::
      !NoCopyYet(cfg, h, ticks)
  }

  // ------------------------------------------------ the condition

  /** The latest the n-th transmission can be with ticks at most `gap` apart: each of
      the n - 1 retries may be served up to gap - 1 after it falls due. */
  function LatestAttempt(n: nat, gap: Millis): Millis
    requires n >= 1 && gap >= 1
  {
    DelaySum(n - 1) + (n - 1) * (gap - 1)
  }

  /** The latest the n-th transmission can be and still go out without a relay. */
  function LatestDirect(cfg: Timings, gap: Millis, n: nat): Millis
    requires n >= 1 && gap >= 1 && cfg.relayFallback >= 1
  {
    Min(cfg.relayFallback - 1, LatestAttempt(n, gap))
  }

  /** If the n-th transmission was the last without a relay, the next one is still
      served before the timeout. */
  predicate LeavesTime(cfg: Timings, gap: Millis, n: nat)
    requires n >= 1 && gap >= 1 && cfg.relayFallback >= 1
  {
    LatestDirect(cfg, gap, n) + RetryDelay(n) + gap <= cfg.handshakeTimeout
  }

  /** Attempts and time are left when the fallback comes due, whichever transmission
      came last before it. */
  predicate FallbackFits(cfg: Timings, gap: Millis)
    requires gap >= 1 && cfg.relayFallback >= 1
  {
    && cfg.relayFallback <= DelaySum(9)
    && cfg.relayFallback + gap <= cfg.handshakeTimeout
    && forall n | 1 <= n <= 9 && DelaySum(n - 1) < cfg.relayFallback :: LeavesTime(cfg, gap, n)
  }

  lemma LatestStep(n: nat, gap: Millis)
    requires n >= 1 && gap >= 1
    ensures LatestAttempt(n + 1, gap) == LatestAttempt(n, gap) + RetryDelay(n) + gap - 1
    ensures DelaySum(n - 1) <= LatestAttempt(n, gap)
  {
    OneMoreTime(n - 1, gap - 1);
    assert (n + 1 - 1) * (gap - 1) == (n - 1 + 1) * (gap - 1);
  }

  lemma OneMoreTime(a: nat, b: nat)
    ensures (a + 1) * b == a * b + b && a * b >= 0
  {}

  // ------------------------------------------------ the condition suffices

  /** While no copy has gone to a relay: the fallback is not due yet and the next
      attempt is no later than the last one allows; or the relay is chosen and the
      attempt that will carry the copy is due in time. */
  ghost predicate AwaitingRelay<M>(cfg: Timings, gap: Millis, h: Pending<M>, lastTick: Millis)
    requires gap >= 1 && cfg.relayFallback >= 1
  {
    && 1 <= h.attempts <= 9 && lastTick < h.nextAttempt
    && if h.relayAddr.None? then
         && lastTick < h.createdAt + cfg.relayFallback
         && h.nextAttempt <= h.createdAt + LatestDirect(cfg, gap, h.attempts) + RetryDelay(h.attempts)
       else h.nextAttempt + gap <= h.createdAt + cfg.handshakeTimeout
  }

  /** A tick before the fallback: the attempts stay on schedule. */
  lemma EarlyStep<M>(cfg: Timings, gap: Millis, origin: Pending<M>, h: Pending<M>, lastTick: Millis, t: Maintenance)
    requires gap >= 1 && cfg.relayFallback >= 1 && FallbackFits(cfg, gap)
    requires OnBudget(origin, h, lastTick) && h.relayAddr.None? && AwaitingRelay(cfg, gap, h, lastTick)
    requires lastTick <= t.now <= lastTick + gap && t.now < h.createdAt + cfg.relayFallback
    ensures var h' := TickOne(h, t.now, cfg, t.relays).0; h'.Some? && AwaitingRelay(cfg, gap, h'.value, t.now)
  {
    var n := h.attempts;
    LatestStep(n, gap);
    DelayBounds(n + 1);
    if t.now >= h.nextAttempt && n == 9 {
      assert false;
    }
  }

  /** The tick at which the fallback comes due, and those after it. */
  lemma LateStep<M>(cfg: Timings, gap: Millis, origin: Pending<M>, h: Pending<M>, lastTick: Millis, t: Maintenance)
    requires gap >= 1 && cfg.relayFallback >= 1 && FallbackFits(cfg, gap)
    requires OnBudget(origin, h, lastTick) && h.peerId.Some? && AwaitingRelay(cfg, gap, h, lastTick)
    requires lastTick <= t.now <= lastTick + gap && FindRelay(t.relays, h.peerId).Some?
    requires h.relayAddr.Some? || t.now >= h.createdAt + cfg.relayFallback
    ensures SendsToRelay(cfg, h, t)
            || var h' := TickOne(h, t.now, cfg, t.relays).0; h'.Some? && AwaitingRelay(cfg, gap, h'.value, t.now)
  {
    if h.relayAddr.None? {
      assert DelaySum(h.attempts - 1) < cfg.relayFallback;
      assert LeavesTime(cfg, gap, h.attempts);
    }
  }

  lemma {:induction false} RunAwaiting<M>(cfg: Timings, h: Pending<M>, gap: Millis, ticks: seq<Maintenance>)
    requires Fresh(h) && h.peerId.Some? && gap >= 1 && cfg.relayFallback >= 1 && FallbackFits(cfg, gap)
    requires Regular(h, gap, ticks) && RelayAlwaysConnected(h, ticks) && NoCopyYet(cfg, h, ticks)
    ensures RunTicks(cfg, h, ticks).Some?
    ensures AwaitingRelay(cfg, gap, RunTicks(cfg, h, ticks).value, LastTime(h, ticks))
  {
    if ticks == [] {
      DelayBounds(1);
    } else {
      var n := |ticks| - 1;
      RegularPrefix(h, gap, ticks, n);
      NoCopyPrefix(cfg, h, ticks, n);
      RunAwaiting(cfg, h, gap, ticks[..n]);
      RunOnBudget(cfg, h, gap, ticks[..n]);
      var before := RunTicks(cfg, h, ticks[..n]).value;
      assert !CopyToRelay(cfg, h, ticks, n);
      AwaitingStep(cfg, gap, h, before, LastTime(h, ticks[..n]), ticks[n]);
    }
  }

  lemma AwaitingStep<M>(cfg: Timings, gap: Millis, origin: Pending<M>, h: Pending<M>, lastTick: Millis, t: Maintenance)
    requires gap >= 1 && cfg.relayFallback >= 1 && FallbackFits(cfg, gap)
    requires OnBudget(origin, h, lastTick) && h.peerId.Some? && AwaitingRelay(cfg, gap, h, lastTick)
    requires lastTick <= t.now <= lastTick + gap && FindRelay(t.relays, h.peerId).Some?
    requires !SendsToRelay(cfg, h, t)
    ensures var h' := TickOne(h, t.now, cfg, t.relays).0; h'.Some? && AwaitingRelay(cfg, gap, h'.value, t.now)
  {
    if h.relayAddr.None? && t.now < h.createdAt + cfg.relayFallback {
      EarlyStep(cfg, gap, origin, h, lastTick, t);
    } else {
      LateStep(cfg, gap, origin, h, lastTick, t);
    }
  }

  lemma NoCopyPrefix<M>(cfg: Timings, h: Pending<M>, ticks: seq<Maintenance>, n: nat)
    requires NoCopyYet(cfg, h, ticks) && n <= |ticks|
    ensures NoCopyYet(cfg, h, ticks[..n])
  {
    forall i | 0 <= i < n
      ensures !CopyToRelay(cfg, h, ticks[..n], i)
    {
      assert ticks[..n][..i] == ticks[..i];
      assert !CopyToRelay(cfg, h, ticks, i);
    }
  }

  // ------------------------------------------------ the condition is needed

  /** One more tick at the end of a schedule. */
  lemma Append<M>(cfg: Timings, h: Pending<M>, gap: Millis, ticks: seq<Maintenance>, t: Maintenance)
    requires Regular(h, gap, ticks) && RelayAlwaysConnected(h, ticks) && NoCopyYet(cfg, h, ticks)
    requires LastTime(h, ticks) <= t.now <= LastTime(h, ticks) + gap && FindRelay(t.relays, h.peerId).Some?
    requires RunTicks(cfg, h, ticks).Some? ==> !SendsToRelay(cfg, RunTicks(cfg, h, ticks).value, t)
    ensures Regular(h, gap, ticks + [t]) && RelayAlwaysConnected(h, ticks + [t]) && NoCopyYet(cfg, h, ticks + [t])
    ensures RunTicks(cfg, h, ticks + [t]) ==
            match RunTicks(cfg, h, ticks) case None => None case Some(h') => TickOne(h', t.now, cfg, t.relays).0
    ensures LastTime(h, ticks + [t]) == t.now
  {
    var all := ticks + [t];
    assert all[..|ticks|] == ticks;
    forall i | 0 <= i < |ticks|
      ensures all[..i] == ticks[..i] && all[i] == ticks[i] && !CopyToRelay(cfg, h, all, i)
    {
      assert all[..i] == ticks[..i];
      assert !CopyToRelay(cfg, h, ticks, i);
    }
  }

  /** A schedule up to `last` that has sent nothing to a relay; unless the handshake is
      already abandoned, the n-th transmission was the last and the next is due at `due`. */
  ghost predicate Waiting<M>(cfg: Timings, h: Pending<M>, gap: Millis, ticks: seq<Maintenance>, last: Millis, n: nat,
                             due: Millis) {
    && Regular(h, gap, ticks) && RelayAlwaysConnected(h, ticks) && NoCopyYet(cfg, h, ticks)
    && LastTime(h, ticks) == h.createdAt + last
    && (RunTicks(cfg, h, ticks).Some? ==> WaitsFor(cfg, h, RunTicks(cfg, h, ticks).value, last, n, due))
  }

  predicate WaitsFor<M>(cfg: Timings, origin: Pending<M>, h: Pending<M>, last: Millis, n: nat, due: Millis) {
    && h.createdAt == origin.createdAt && h.peerId == origin.peerId
    && h.attempts == n && h.nextAttempt == h.createdAt + due
    && (last < cfg.relayFallback ==> h.relayAddr.None?)
  }

  /** A tick `now` after the dial, with one relay connected. */
  function TickAfter<M>(h: Pending<M>, now: Millis, relay: Relay): (t: Maintenance)
    ensures Some(relay.id) != h.peerId ==> FindRelay(t.relays, h.peerId).Some?
  {
    assert [relay][0] == relay;
    Maintenance(h.createdAt + now, [relay])
  }

  /** The tick sends nothing to a relay and leaves the handshake waiting for `due`. */
  ghost predicate StepsTo<M>(cfg: Timings, origin: Pending<M>, h: Pending<M>, t: Maintenance, last: Millis, n: nat,
                             due: Millis) {
    && !SendsToRelay(cfg, h, t)
    && var h' := TickOne(h, t.now, cfg, t.relays).0;
    && (h'.Some? ==> WaitsFor(cfg, origin, h'.value, last, n, due))
  }

  lemma AppendWaiting<M>(cfg: Timings, h: Pending<M>, gap: Millis, ticks: seq<Maintenance>, last: Millis, n: nat,
                         due: Millis, now: Millis, relay: Relay, n': nat, due': Millis)
    requires Waiting(cfg, h, gap, ticks, last, n, due) && Some(relay.id) != h.peerId && last <= now <= last + gap
    requires RunTicks(cfg, h, ticks).Some? ==>
               StepsTo(cfg, h, RunTicks(cfg, h, ticks).value, TickAfter(h, now, relay), now, n', due')
    ensures Waiting(cfg, h, gap, ticks + [TickAfter(h, now, relay)], now, n', due')
  {
    Append(cfg, h, gap, ticks, TickAfter(h, now, relay));
  }

  lemma QuietTick<M>(cfg: Timings, origin: Pending<M>, h: Pending<M>, last: Millis, n: nat, due: Millis, now: Millis,
                     relay: Relay)
    requires WaitsFor(cfg, origin, h, last, n, due) && last <= now && (now < due || n == HANDSHAKE_MAX_ATTEMPTS)
    ensures StepsTo(cfg, origin, h, TickAfter(origin, now, relay), now, n, due)
  {}

  lemma DirectTick<M>(cfg: Timings, origin: Pending<M>, h: Pending<M>, last: Millis, n: nat, due: Millis, now: Millis,
                      relay: Relay)
    requires WaitsFor(cfg, origin, h, last, n, due) && n < HANDSHAKE_MAX_ATTEMPTS
    requires last <= now && due <= now < cfg.relayFallback
    ensures StepsTo(cfg, origin, h, TickAfter(origin, now, relay), now, n + 1, now + RetryDelay(n + 1))
  {}

  /** A tick before the next transmission is due, or after the tenth, changes nothing
      that matters. */
  lemma WaitOne<M>(cfg: Timings, h: Pending<M>, gap: Millis, ticks: seq<Maintenance>, last: Millis, n: nat, due: Millis,
                   now: Millis, relay: Relay)
    requires Waiting(cfg, h, gap, ticks, last, n, due) && Some(relay.id) != h.peerId
    requires last <= now <= last + gap && (now < due || n == HANDSHAKE_MAX_ATTEMPTS)
    ensures Waiting(cfg, h, gap, ticks + [TickAfter(h, now, relay)], now, n, due)
  {
    if RunTicks(cfg, h, ticks).Some? {
      QuietTick(cfg, h, RunTicks(cfg, h, ticks).value, last, n, due, now, relay);
    }
    AppendWaiting(cfg, h, gap, ticks, last, n, due, now, relay, n, due);
  }

  /** Ticking every millisecond until `now`. */
  lemma {:induction false} WaitUntil<M>(cfg: Timings, h: Pending<M>, gap: Millis, ticks: seq<Maintenance>, last: Millis,
                                        n: nat, due: Millis, now: Millis, relay: Relay) returns (more: seq<Maintenance>)
    requires Waiting(cfg, h, gap, ticks, last, n, due) && Some(relay.id) != h.peerId && gap >= 1
    requires last <= now < due
    ensures Waiting(cfg, h, gap, more, now, n, due)
    decreases now
  {
    if last == now {
      more := ticks;
    } else {
      more := WaitUntil(cfg, h, gap, ticks, last, n, due, now - 1, relay);
      WaitOne(cfg, h, gap, more, now - 1, n, due, now, relay);
      more := more + [TickAfter(h, now, relay)];
    }
  }

  /** A tick at or after the due time, but before the fallback, transmits directly. */
  lemma TransmitAt<M>(cfg: Timings, h: Pending<M>, gap: Millis, ticks: seq<Maintenance>, last: Millis, n: nat,
                      due: Millis, now: Millis, relay: Relay)
    requires Waiting(cfg, h, gap, ticks, last, n, due) && Some(relay.id) != h.peerId
    requires last <= now <= last + gap && due <= now < cfg.relayFallback && n < HANDSHAKE_MAX_ATTEMPTS
    ensures Waiting(cfg, h, gap, ticks + [TickAfter(h, now, relay)], now, n + 1, now + RetryDelay(n + 1))
  {
    if RunTicks(cfg, h, ticks).Some? {
      DirectTick(cfg, h, RunTicks(cfg, h, ticks).value, last, n, due, now, relay);
    }
    AppendWaiting(cfg, h, gap, ticks, last, n, due, now, relay, n + 1, now + RetryDelay(n + 1));
  }

  /** When the transmission before one at `at` should be. */
  lemma EarlierTransmission(n: nat, gap: Millis, at: Millis) returns (before: Millis)
    requires gap >= 1 && n >= 2 && DelaySum(n - 1) <= at <= LatestAttempt(n, gap)
    ensures DelaySum(n - 2) <= before <= LatestAttempt(n - 1, gap)
    ensures before < before + RetryDelay(n - 1) <= at <= before + RetryDelay(n - 1) - 1 + gap
  {
    LatestStep(n - 1, gap);
    DelayBounds(n - 1);
    before := Min(at - RetryDelay(n - 1), LatestAttempt(n - 1, gap));
  }

  lemma FreshWaits<M>(cfg: Timings, h: Pending<M>, gap: Millis)
    requires Fresh(h)
    ensures Waiting(cfg, h, gap, [], 0, 1, RetryDelay(1))
  {}

  /** The n-th transmission can fall at any time its retry delays and the tick gap allow. */
  lemma {:induction false} TransmissionAnywhere<M>(cfg: Timings, h: Pending<M>, gap: Millis, n: nat, at: Millis,
                                                   relay: Relay)
    returns (ticks: seq<Maintenance>)
    requires Fresh(h) && Some(relay.id) != h.peerId && gap >= 1 && 1 <= n <= 9
    requires DelaySum(n - 1) <= at <= LatestAttempt(n, gap) && at < cfg.relayFallback
    ensures Waiting(cfg, h, gap, ticks, at, n, at + RetryDelay(n))
  {
    if n == 1 {
      ticks := [];
      FreshWaits(cfg, h, gap);
    } else {
      var before := EarlierTransmission(n, gap, at);
      var due := before + RetryDelay(n - 1);
      ticks := TransmissionAnywhere(cfg, h, gap, n - 1, before, relay);
      ticks := WaitUntil(cfg, h, gap, ticks, before, n - 1, due, due - 1, relay);
      TransmitAt(cfg, h, gap, ticks, due - 1, n - 1, due, at, relay);
      ticks := ticks + [TickAfter(h, at, relay)];
    }
  }

  /** A transmission that leaves no time for the next: ticks up to the moment that is
      due, then one that jumps past the timeout. */
  lemma NoTimeLeft<M>(cfg: Timings, h: Pending<M>, gap: Millis, n: nat, relay: Relay)
    requires Fresh(h) && Some(relay.id) != h.peerId && gap >= 1 && cfg.relayFallback >= 1
    requires 1 <= n <= 9 && DelaySum(n - 1) < cfg.relayFallback && !LeavesTime(cfg, gap, n)
    ensures !FallbackGuaranteed(cfg, h, gap)
  {
    LatestStep(n, gap);
    DelayBounds(n);
    var at := LatestDirect(cfg, gap, n);
    var due := at + RetryDelay(n);
    var ticks := TransmissionAnywhere(cfg, h, gap, n, at, relay);
    ticks := WaitUntil(cfg, h, gap, ticks, at, n, due, due - 1, relay);
    GivesUp(cfg, h, gap, ticks, due - 1, n, due, relay);
  }

  lemma GivesUp<M>(cfg: Timings, h: Pending<M>, gap: Millis, ticks: seq<Maintenance>, last: Millis, n: nat,
                   due: Millis, relay: Relay)
    requires Waiting(cfg, h, gap, ticks, last, n, due) && Some(relay.id) != h.peerId
    requires last + gap >= cfg.handshakeTimeout
    ensures !FallbackGuaranteed(cfg, h, gap)
  {
    var jump := TickAfter(h, last + gap, relay);
    Append(cfg, h, gap, ticks, jump);
    assert Outlives(cfg, h, ticks + [jump]);
  }

  /** A fallback after the tenth transmission can be: all ten may be spent by then. */
  lemma NoAttemptLeft<M>(cfg: Timings, h: Pending<M>, gap: Millis, relay: Relay)
    requires Fresh(h) && Some(relay.id) != h.peerId && gap >= 1 && cfg.relayFallback > DelaySum(9)
    ensures !FallbackGuaranteed(cfg, h, gap)
  {
    LatestStep(9, gap);
    DelayBounds(9);
    var at := DelaySum(8);
    var due := DelaySum(9);
    var ticks := TransmissionAnywhere(cfg, h, gap, 9, at, relay);
    ticks := WaitUntil(cfg, h, gap, ticks, at, 9, due, due - 1, relay);
    TransmitAt(cfg, h, gap, ticks, due - 1, 9, due, due, relay);
    ticks := ticks + [TickAfter(h, due, relay)];
    Exhausted(cfg, h, gap, ticks, due, due + RetryDelay(10), relay);
  }

  /** After the tenth transmission nothing is sent, so the schedule may go on. */
  lemma {:induction false} Exhausted<M>(cfg: Timings, h: Pending<M>, gap: Millis, ticks: seq<Maintenance>, last: Millis,
                                        due: Millis, relay: Relay)
    requires Waiting(cfg, h, gap, ticks, last, HANDSHAKE_MAX_ATTEMPTS, due) && Some(relay.id) != h.peerId && gap >= 1
    ensures !FallbackGuaranteed(cfg, h, gap)
    decreases cfg.handshakeTimeout - last
  {
    if last + gap >= cfg.handshakeTimeout {
      GivesUp(cfg, h, gap, ticks, last, HANDSHAKE_MAX_ATTEMPTS, due, relay);
    } else {
      WaitOne(cfg, h, gap, ticks, last, HANDSHAKE_MAX_ATTEMPTS, due, last + 1, relay);
      Exhausted(cfg, h, gap, ticks + [TickAfter(h, last + 1, relay)], last + 1, due, relay);
    }
  }

  /** Some transmission falls due at or after the fallback with the previous one before it. */
  lemma {:induction false} AttemptAround(fallback: Millis, n: nat) returns (k: nat)
    requires 1 <= fallback <= DelaySum(n)
    ensures 1 <= k <= n && DelaySum(k - 1) < fallback <= DelaySum(k)
  {
    if DelaySum(n - 1) < fallback {
      k := n;
    } else {
      k := AttemptAround(fallback, n - 1);
    }
  }

  // ------------------------------------------------ exactly when

  /** An unanswered handshake to a known peer gets a copy through a relay before it is
      abandoned, under every tick schedule, exactly when attempts and time are left for
      it. The condition needs only the configuration and the tick gap. */
  lemma FallbackGuaranteedExactly<M>(cfg: Timings, h: Pending<M>, gap: Millis, relay: Relay)
    requires Fresh(h) && h.peerId.Some? && Some(relay.id) != h.peerId && gap >= 1 && cfg.relayFallback >= 1
    ensures FallbackGuaranteed(cfg, h, gap) <==> FallbackFits(cfg, gap)
  {
    if FallbackFits(cfg, gap) {
      forall ticks | Regular(h, gap, ticks) && RelayAlwaysConnected(h, ticks) && Outlives(cfg, h, ticks)
        ensures !NoCopyYet(cfg, h, ticks)
      {
        RelayFallbackHappens(cfg, h, gap, ticks);
      }
    } else if cfg.relayFallback > DelaySum(9) {
      NoAttemptLeft(cfg, h, gap, relay);
    } else {
      var n := TightAttempt(cfg, gap);
      NoTimeLeft(cfg, h, gap, n, relay);
    }
  }

  lemma TightAttempt(cfg: Timings, gap: Millis) returns (n: nat)
    requires gap >= 1 && 1 <= cfg.relayFallback <= DelaySum(9) && !FallbackFits(cfg, gap)
    ensures 1 <= n <= 9 && DelaySum(n - 1) < cfg.relayFallback && !LeavesTime(cfg, gap, n)
  {
    if k :| 1 <= k <= 9 && DelaySum(k - 1) < cfg.relayFallback && !LeavesTime(cfg, gap, k) {
      n := k;
    } else {
      n := AttemptAround(cfg.relayFallback, 9);
      LatestStep(n, gap);
    }
  }

  /** Whatever the schedule, the copy is sent before the handshake is abandoned. */
  lemma RelayFallbackHappens<M>(cfg: Timings, h: Pending<M>, gap: Millis, ticks: seq<Maintenance>)
    requires Fresh(h) && h.peerId.Some? && gap >= 1 && cfg.relayFallback >= 1 && FallbackFits(cfg, gap)
    requires Regular(h, gap, ticks) && RelayAlwaysConnected(h, ticks) && Outlives(cfg, h, ticks)
    ensures exists i | 0 <= i < |ticks| :: CopyToRelay(cfg, h, ticks, i)
  {
    if NoCopyYet(cfg, h, ticks) {
      RunAwaiting(cfg, h, gap, ticks);
      RunOnBudget(cfg, h, gap, ticks);
      assert false;
    }
  }

  /** A rule of thumb: a fallback of at most 21.5 s, with one retry delay and one tick gap
      to spare before the timeout, is enough. */
  lemma AmpleTimeoutSuffices(cfg: Timings, gap: Millis)
    requires gap >= 1 && 1 <= cfg.relayFallback <= 21_500
    requires cfg.relayFallback + gap + HANDSHAKE_RETRY_MAX <= cfg.handshakeTimeout
    ensures FallbackFits(cfg, gap)
  {
    NineDelays();
    forall n | 1 <= n <= 9 && DelaySum(n - 1) < cfg.relayFallback
      ensures LeavesTime(cfg, gap, n)
    {
      DelayBounds(n);
    }
  }

  /** The relay a handshake falls back to was connected at some tick, and is not the
      peer being dialled. */
  lemma {:induction false} FallbackTargetIsARelay<M>(cfg: Timings, h: Pending<M>, ticks: seq<Maintenance>)
    returns (k: nat)
    requires Fresh(h) && RunTicks(cfg, h, ticks).Some? && RunTicks(cfg, h, ticks).value.relayAddr.Some?
    ensures k < |ticks| && FindRelay(ticks[k].relays, h.peerId) == RunTicks(cfg, h, ticks).value.relayAddr
    ensures RunTicks(cfg, h, ticks).value.peerId == h.peerId
  {
    var n := |ticks| - 1;
    var before := RunTicks(cfg, h, ticks[..n]).value;
    KeepsPeer(cfg, h, ticks[..n]);
    if before.relayAddr.Some? {
      k := FallbackTargetIsARelay(cfg, h, ticks[..n]);
    } else {
      k := n;
    }
  }

  lemma {:induction false} KeepsPeer<M>(cfg: Timings, h: Pending<M>, ticks: seq<Maintenance>)
    requires RunTicks(cfg, h, ticks).Some?
    ensures RunTicks(cfg, h, ticks).value.peerId == h.peerId
  {
    if ticks != [] {
      KeepsPeer(cfg, h, ticks[..|ticks| - 1]);
    }
  }

  // ------------------------------------------------ when it cannot happen

  /** All ten attempts are spent before the fallback comes due. */
  ghost predicate SpentInTime<M>(gap: Millis, h: Pending<M>, lastTick: Millis) {
    h.attempts < HANDSHAKE_MAX_ATTEMPTS ==>
      && lastTick < h.nextAttempt
      && h.nextAttempt <= h.createdAt + DelaySum(h.attempts) + (h.attempts - 1) * (gap - 1)
  }

  lemma SpentStep<M>(cfg: Timings, gap: Millis, origin: Pending<M>, h: Pending<M>, lastTick: Millis, t: Maintenance)
    requires gap >= 1 && cfg.relayFallback > DelaySum(9) + 9 * (gap - 1)
    requires OnBudget(origin, h, lastTick) && SpentInTime(gap, h, lastTick) && lastTick <= t.now <= lastTick + gap
    requires h.relayAddr.Some? ==> h.attempts == HANDSHAKE_MAX_ATTEMPTS
    ensures var (h', sent) := TickOne(h, t.now, cfg, t.relays);
            && (h'.Some? ==> SpentInTime(gap, h'.value, t.now)
                             && (h'.value.relayAddr.Some? ==> h'.value.attempts == HANDSHAKE_MAX_ATTEMPTS))
            && (h'.Some? && h'.value.relayAddr.Some? ==> sent == [])
  {
    if h.attempts < HANDSHAKE_MAX_ATTEMPTS {
      DelaySumGrows(h.attempts, 9);
      DelayBounds(h.attempts + 1);
      GapStep(h.attempts, gap - 1);
    }
  }

  lemma GapStep(n: nat, gap: nat)
    requires 1 <= n <= 9
    ensures n * gap == (n - 1) * gap + gap <= 9 * gap
  {}

  lemma {:induction false} RunSpent<M>(cfg: Timings, h: Pending<M>, gap: Millis, ticks: seq<Maintenance>)
    requires Fresh(h) && Regular(h, gap, ticks) && gap >= 1 && cfg.relayFallback > DelaySum(9) + 9 * (gap - 1)
    requires RunTicks(cfg, h, ticks).Some?
    ensures var h' := RunTicks(cfg, h, ticks).value;
            SpentInTime(gap, h', LastTime(h, ticks)) && (h'.relayAddr.Some? ==> h'.attempts == HANDSHAKE_MAX_ATTEMPTS)
  {
    if ticks != [] {
      var n := |ticks| - 1;
      RegularPrefix(h, gap, ticks, n);
      RunSpent(cfg, h, gap, ticks[..n]);
      RunOnBudget(cfg, h, gap, ticks[..n]);
      SpentStep(cfg, gap, h, RunTicks(cfg, h, ticks[..n]).value, LastTime(h, ticks[..n]), ticks[n]);
    } else {
      DelayBounds(1);
    }
  }

  /** A fallback later than the last attempt can be never reaches a relay, however
      long the handshake timeout is. */
  lemma LateFallbackNeverHappens<M>(cfg: Timings, h: Pending<M>, gap: Millis, ticks: seq<Maintenance>)
    requires Fresh(h) && Regular(h, gap, ticks) && gap >= 1 && cfg.relayFallback > DelaySum(9) + 9 * (gap - 1)
    ensures NoCopyYet(cfg, h, ticks)
  {
    forall i | 0 <= i < |ticks|
      ensures !CopyToRelay(cfg, h, ticks, i)
    {
      if RunTicks(cfg, h, ticks[..i]).Some? {
        RegularPrefix(h, gap, ticks, i);
        RunSpent(cfg, h, gap, ticks[..i]);
        RunOnBudget(cfg, h, gap, ticks[..i]);
        SpentStep(cfg, gap, h, RunTicks(cfg, h, ticks[..i]).value, LastTime(h, ticks[..i]), ticks[i]);
        assert ticks[..i + 1][..i] == ticks[..i];
      }
    }
  }

  // ------------------------------------------------ configurations

  /** What the configuration check demands of the two timeouts. */
  predicate ValidatedFallback(cfg: Timings) {
    0 < cfg.relayFallback < cfg.handshakeTimeout
  }

  /** The daemon's timings, in milliseconds, with these two timeouts. */
  function WithTimeouts(relayFallback: Millis, handshakeTimeout: Millis): Timings {
    Timings(10_000, 30_000, 5_000, handshakeTimeout, relayFallback, 300_000)
  }

  const MAINTENANCE_TICK: Millis := 250

  /** The default configuration, a 5 s fallback under a 20 s timeout, is safe. */
  lemma DefaultsGuaranteeFallback<M>(h: Pending<M>, relay: Relay)
    requires Fresh(h) && h.peerId.Some? && Some(relay.id) != h.peerId
    ensures FallbackGuaranteed(WithTimeouts(5_000, 20_000), h, MAINTENANCE_TICK)
  {
    AmpleTimeoutSuffices(WithTimeouts(5_000, 20_000), MAINTENANCE_TICK);
    FallbackGuaranteedExactly(WithTimeouts(5_000, 20_000), h, MAINTENANCE_TICK, relay);
  }

  /** Passing the configuration check is not enough. Too few attempts: with a 25 s
      fallback under a 60 s timeout, no schedule at the daemon's tick tries the relay. */
  lemma ValidationDoesNotImplyFallback<M>(h: Pending<M>, ticks: seq<Maintenance>)
    requires Fresh(h) && Regular(h, MAINTENANCE_TICK, ticks)
    ensures ValidatedFallback(WithTimeouts(25_000, 60_000)) && NoCopyYet(WithTimeouts(25_000, 60_000), h, ticks)
  {
    NineDelays();
    LateFallbackNeverHappens(WithTimeouts(25_000, 60_000), h, MAINTENANCE_TICK, ticks);
  }

  /** Too little time: with a 19 s fallback under the default 20 s timeout the last
      attempt before the fallback may be less than 3 s before the timeout, however
      close the ticks. */
  lemma SpacingDefeatsFallback<M>(h: Pending<M>, gap: Millis, relay: Relay)
    requires Fresh(h) && h.peerId.Some? && Some(relay.id) != h.peerId && gap >= 1
    ensures ValidatedFallback(WithTimeouts(19_000, 20_000)) && !FallbackGuaranteed(WithTimeouts(19_000, 20_000), h, gap)
  {
    var cfg := WithTimeouts(19_000, 20_000);
    NineDelays();
    assert DelaySum(9) == DelaySum(8) + RetryDelay(9) && RetryDelay(9) == 3_000;
    LatestStep(9, gap);
    assert !LeavesTime(cfg, gap, 9);
    FallbackGuaranteedExactly(cfg, h, gap, relay);
  }
}
