/** Outgoing handshakes: retransmission with backoff, and a copy through a relay once
    the direct path looks dead. Module Fallback says when that copy is certain. */
module Retry {
  import opened Bits
  import opened Types
  import opened Peers

  const HANDSHAKE_RETRY_BASE: Millis := 500
  const HANDSHAKE_RETRY_MAX: Millis := 3_000
  const HANDSHAKE_MAX_ATTEMPTS: nat := 10

  /** An unanswered handshake; `message` is the handshake_1 it repeats. */
  datatype Pending<M> = Pending(
    message: M, directAddr: Addr, relayAddr: Option<Addr>, peerId: Option<Id>,
    createdAt: Millis, nextAttempt: Millis, attempts: nat)

  /** A connected relay, by peer id and address. */
  datatype Relay = Relay(id: Id, addr: Addr)

  function RetryDelay(attempts: nat): Millis {
    var exponent := Min(if attempts >= 1 then attempts - 1 else 0, 8);
    Min(HANDSHAKE_RETRY_BASE * Pow2(Min(exponent, 3)), HANDSHAKE_RETRY_MAX)
  }

  function NewPending<M>(message: M, directAddr: Addr, peerId: Option<Id>, now: Millis): Pending<M> {
    Pending(message, directAddr, None, peerId, now, now + RetryDelay(1), 1)
  }

  predicate GaveUp<M>(h: Pending<M>, now: Millis, cfg: Timings) {
    Since(now, h.createdAt) >= cfg.handshakeTimeout
  }

  predicate RetransmitDue<M>(h: Pending<M>, now: Millis, cfg: Timings) {
    !GaveUp(h, now, cfg) && h.attempts < HANDSHAKE_MAX_ATTEMPTS && now >= h.nextAttempt
  }

  function RecordAttempt<M>(h: Pending<M>, now: Millis): Pending<M> {
    h.(attempts := h.attempts + 1, nextAttempt := now + RetryDelay(h.attempts + 1))
  }

  predicate RelayFallbackDue<M>(h: Pending<M>, now: Millis, cfg: Timings) {
    h.relayAddr.None? && h.peerId.Some? && Since(now, h.createdAt) >= cfg.relayFallback
  }

  function Targets<M>(h: Pending<M>): (targets: seq<Addr>)
    ensures h.directAddr in targets
    ensures h.relayAddr.Some? ==> h.relayAddr.value in targets
  {
    [h.directAddr] + (if h.relayAddr.Some? && h.relayAddr.value != h.directAddr then [h.relayAddr.value] else [])
  }

  /** The first relay that is not the peer being dialled. */
  function FindRelay(relays: seq<Relay>, peerId: Option<Id>): (r: Option<Addr>)
    ensures r.Some? <==> exists i | 0 <= i < |relays| :: Some(relays[i].id) != peerId
    ensures r.Some? ==> exists i | 0 <= i < |relays| :: Some(relays[i].id) != peerId && relays[i].addr == r.value
  {
    if relays == [] then None
    else if Some(relays[0].id) != peerId then Some(relays[0].addr)
    else
      var r := FindRelay(relays[1..], peerId);
      assert forall i | 0 < i < |relays| :: relays[i] == relays[1..][i - 1];
      r
  }

  function WithFallback<M>(h: Pending<M>, now: Millis, cfg: Timings, relays: seq<Relay>): Pending<M> {
    if RelayFallbackDue(h, now, cfg) && FindRelay(relays, h.peerId).Some?
    then h.(relayAddr := FindRelay(relays, h.peerId)) else h
  }

  /** One maintenance tick for one handshake: its new state, or nothing once it is
      abandoned, and where copies were sent. */
  function TickOne<M>(h: Pending<M>, now: Millis, cfg: Timings, relays: seq<Relay>): (Option<Pending<M>>, seq<Addr>) {
    if GaveUp(h, now, cfg) then (None, [])
    else
      var h' := WithFallback(h, now, cfg, relays);
      if RetransmitDue(h', now, cfg) then (Some(RecordAttempt(h', now)), Targets(h')) else (Some(h'), [])
  }

  /** One maintenance tick for every handshake in flight. */
  function TickAll<M>(pending: map<u32, Pending<M>>, now: Millis, cfg: Timings,
                      relays: seq<Relay>): map<u32, Pending<M>>
  {
    map k | k in pending && TickOne(pending[k], now, cfg, relays).0.Some? ::
      TickOne(pending[k], now, cfg, relays).0.value
  }

  /** A tick drops what has expired and changes neither message nor target of the rest. */
  lemma TickAllKeeps<M>(pending: map<u32, Pending<M>>, now: Millis, cfg: Timings, relays: seq<Relay>)
    ensures var after := TickAll(pending, now, cfg, relays);
            && (forall k :: k in after <==> k in pending && !GaveUp(pending[k], now, cfg))
            && (forall k | k in after ::
                  && after[k].message == pending[k].message && after[k].peerId == pending[k].peerId
                  && after[k].directAddr == pending[k].directAddr)
  {}

  /** The table of handshakes in flight, keyed by our receiving session id. */
  class HandshakeTable<M(==)> {
    var pending: map<u32, Pending<M>>

    constructor ()
      ensures pending == map[]
    {
      pending := map[];
    }

    /** Drops what has expired, arms relay fallbacks, and resends what is due. */
    method RetransmitHandshakes(now: Millis, cfg: Timings, relays: seq<Relay>) returns (sent: map<u32, seq<Addr>>)
      modifies this
      ensures pending == TickAll(old(pending), now, cfg, relays)
      ensures sent == SentBy(old(pending), now, cfg, relays)
    {
      var before := pending;
      var kept := map k | k in before && !GaveUp(before[k], now, cfg) :: before[k];
      var after;
      after, sent := SweepKept(kept, now, cfg, relays);
      assert after == TickAll(before, now, cfg, relays);
      assert sent == SentBy(before, now, cfg, relays);
      pending := after;
    }
  }

  /** Where one tick sends copies of each handshake that is due. */
  function SentBy<M>(pending: map<u32, Pending<M>>, now: Millis, cfg: Timings,
                     relays: seq<Relay>): map<u32, seq<Addr>>
  {
    map k | k in pending && TickOne(pending[k], now, cfg, relays).1 != [] :: TickOne(pending[k], now, cfg, relays).1
  }

  method SweepKept<M>(kept: map<u32, Pending<M>>, now: Millis, cfg: Timings, relays: seq<Relay>)
    returns (after: map<u32, Pending<M>>, sent: map<u32, seq<Addr>>)
    requires forall k | k in kept :: !GaveUp(kept[k], now, cfg)
    ensures after.Keys == kept.Keys
    ensures forall k | k in kept :: Some(after[k]) == TickOne(kept[k], now, cfg, relays).0
    ensures sent == SentBy(kept, now, cfg, relays)
  {
    var todo := kept.Keys;
    after, sent := map[], map[];
    while todo != {}
      invariant todo <= kept.Keys
      invariant after.Keys == kept.Keys - todo
      invariant forall k | k in after :: Some(after[k]) == TickOne(kept[k], now, cfg, relays).0
      invariant forall k | k in sent :: k in after && sent[k] == TickOne(kept[k], now, cfg, relays).1 != []
      invariant forall k | k in after && k !in sent :: TickOne(kept[k], now, cfg, relays).1 == []
      decreases todo
    {
      var k :| k in todo;
      var h, targets := ServeOne(kept[k], now, cfg, relays);
      after := after[k := h];
      if targets != [] {
        sent := sent[k := targets];
      }
      todo := todo - {k};
    }
  }

  method ServeOne<M>(handshake: Pending<M>, now: Millis, cfg: Timings, relays: seq<Relay>)
    returns (h: Pending<M>, targets: seq<Addr>)
    requires !GaveUp(handshake, now, cfg)
    ensures (Some(h), targets) == TickOne(handshake, now, cfg, relays)
  {
    h, targets := handshake, [];
    if RelayFallbackDue(h, now, cfg) {
      var relay := FindRelay(relays, h.peerId);
      if relay.Some? {
        h := h.(relayAddr := relay);
      }
    }
    if RetransmitDue(h, now, cfg) {
      targets := Targets(h);
      h := RecordAttempt(h, now);
    }
  }

  // ------------------------------------------------ runs of one handshake

  datatype Maintenance = Maintenance(now: Millis, relays: seq<Relay>)

  ghost function RunTicks<M>(cfg: Timings, h: Pending<M>, ticks: seq<Maintenance>): Option<Pending<M>> {
    if ticks == [] then Some(h)
    else
      var n := |ticks| - 1;
      match RunTicks(cfg, h, ticks[..n])
      case None => None
      case Some(h') => TickOne(h', ticks[n].now, cfg, ticks[n].relays).0
  }

  ghost function SentAt<M>(cfg: Timings, h: Pending<M>, ticks: seq<Maintenance>, i: nat): seq<Addr>
    requires i < |ticks|
  {
    match RunTicks(cfg, h, ticks[..i])
    case None => []
    case Some(h') => TickOne(h', ticks[i].now, cfg, ticks[i].relays).1
  }

  ghost function LastTime<M>(h: Pending<M>, ticks: seq<Maintenance>): Millis {
    if ticks == [] then h.createdAt else ticks[|ticks| - 1].now
  }

  /** Ticks in order, at most `gap` apart, the first at most `gap` after the dial. */
  ghost predicate Regular<M>(h: Pending<M>, gap: Millis, ticks: seq<Maintenance>) {
    forall i | 0 <= i < |ticks| :: LastTime(h, ticks[..i]) <= ticks[i].now <= LastTime(h, ticks[..i]) + gap
  }

  lemma RegularPrefix<M>(h: Pending<M>, gap: Millis, ticks: seq<Maintenance>, n: nat)
    requires Regular(h, gap, ticks) && n <= |ticks|
    ensures Regular(h, gap, ticks[..n])
  {
    forall i | 0 <= i < n
      ensures LastTime(h, ticks[..n][..i]) <= ticks[..n][i].now <= LastTime(h, ticks[..n][..i]) + gap
    {
      assert ticks[..n][..i] == ticks[..i];
    }
  }

  ghost predicate Fresh<M>(h: Pending<M>) {
    h == NewPending(h.message, h.directAddr, h.peerId, h.createdAt)
  }

  /** The waits before the transmissions 2 to n + 1. */
  function DelaySum(n: nat): Millis {
    if n == 0 then 0 else DelaySum(n - 1) + RetryDelay(n)
  }

  lemma DelayBounds(n: nat)
    requires n >= 1
    ensures 0 < RetryDelay(n) <= HANDSHAKE_RETRY_MAX
  {}

  lemma NineDelays()
    ensures DelaySum(9) == 21_500
  {
    assert Pow2(1) == 2 && Pow2(2) == 4 && Pow2(3) == 8;
    assert DelaySum(3) == 3_500;
    assert DelaySum(6) == DelaySum(5) + 3_000 == DelaySum(4) + 6_000 == DelaySum(3) + 9_000;
    assert DelaySum(9) == DelaySum(8) + 3_000 == DelaySum(7) + 6_000 == DelaySum(6) + 9_000;
  }

  lemma {:induction false} DelaySumGrows(m: nat, n: nat)
    requires m <= n
    ensures DelaySum(m) <= DelaySum(n)
  {
    if m < n { DelaySumGrows(m, n - 1); }
  }

  // ------------------------------------------------ transmission budget

  /** No attempt is early, none is beyond the tenth, and the next is never far off. */
  ghost predicate OnBudget<M>(origin: Pending<M>, h: Pending<M>, lastTick: Millis) {
    && h.createdAt == origin.createdAt <= lastTick
    && h.peerId == origin.peerId
    && 1 <= h.attempts <= HANDSHAKE_MAX_ATTEMPTS
    && h.createdAt + DelaySum(h.attempts) <= h.nextAttempt <= lastTick + HANDSHAKE_RETRY_MAX
    && h.createdAt + DelaySum(h.attempts - 1) <= lastTick
  }

  lemma BudgetStep<M>(cfg: Timings, origin: Pending<M>, h: Pending<M>, lastTick: Millis, t: Maintenance)
    requires OnBudget(origin, h, lastTick) && lastTick <= t.now
    ensures var h' := TickOne(h, t.now, cfg, t.relays).0; h'.Some? ==> OnBudget(origin, h'.value, t.now)
  {
    DelayBounds(h.attempts + 1);
  }

  lemma {:induction false} RunOnBudget<M>(cfg: Timings, h: Pending<M>, gap: Millis, ticks: seq<Maintenance>)
    requires Fresh(h) && Regular(h, gap, ticks) && RunTicks(cfg, h, ticks).Some?
    ensures OnBudget(h, RunTicks(cfg, h, ticks).value, LastTime(h, ticks))
  {
    if ticks != [] {
      var n := |ticks| - 1;
      RegularPrefix(h, gap, ticks, n);
      RunOnBudget(cfg, h, gap, ticks[..n]);
      BudgetStep(cfg, h, RunTicks(cfg, h, ticks[..n]).value, LastTime(h, ticks[..n]), ticks[n]);
    } else {
      DelayBounds(1);
    }
  }

  /** The n-th transmission comes no earlier than the first n - 1 delays allow, and
      there are at most ten. */
  lemma TransmissionBudget<M>(cfg: Timings, h: Pending<M>, gap: Millis, ticks: seq<Maintenance>, i: nat)
    requires Fresh(h) && Regular(h, gap, ticks) && i < |ticks| && SentAt(cfg, h, ticks, i) != []
    ensures RunTicks(cfg, h, ticks[..i]).Some?
    ensures var n := RunTicks(cfg, h, ticks[..i]).value.attempts + 1;
            n <= HANDSHAKE_MAX_ATTEMPTS && h.createdAt + DelaySum(n - 1) <= ticks[i].now
  {
    RegularPrefix(h, gap, ticks, i);
    RunOnBudget(cfg, h, gap, ticks[..i]);
  }
}
