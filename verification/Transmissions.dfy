/** When an unanswered handshake is sent again, where to, and when it is given up: told
    from the ticks alone. */
module Transmissions {
  import opened Bits
  import opened Types
  import opened Peers
  import opened Retry

  /** The waits between transmissions: half a second, one, two, then three each. */
  lemma DelaySchedule(n: nat)
    requires n >= 1
    ensures RetryDelay(n) == if n == 1 then 500 else if n == 2 then 1_000 else if n == 3 then 2_000 else 3_000
  {
    assert Pow2(1) == 2 && Pow2(2) == 4 && Pow2(3) == 8;
  }

  /** What the next tick would send, and where. */
  ghost function SentOn<M>(cfg: Timings, h: Pending<M>, ticks: seq<Maintenance>, t: Maintenance): seq<Addr> {
    match RunTicks(cfg, h, ticks)
    case None => []
    case Some(h') => TickOne(h', t.now, cfg, t.relays).1
  }

  /** How often the handshake has been sent, and when last. */
  datatype Sends = Sends(count: nat, last: Millis)

  ghost function SendsOf<M>(cfg: Timings, h: Pending<M>, ticks: seq<Maintenance>): Sends {
    if ticks == [] then Sends(1, h.createdAt)
    else
      var n := |ticks| - 1;
      var before := SendsOf(cfg, h, ticks[..n]);
      if SentOn(cfg, h, ticks[..n], ticks[n]) != [] then Sends(before.count + 1, ticks[n].now) else before
  }

  /** The relay chosen by the first tick, at or after the fallback time, that knows one;
      none for a handshake to an unknown peer. */
  ghost function ChosenRelay<M>(cfg: Timings, h: Pending<M>, ticks: seq<Maintenance>): Option<Addr> {
    if ticks == [] then None
    else
      var n := |ticks| - 1;
      var before := ChosenRelay(cfg, h, ticks[..n]);
      if before.Some? then before
      else if h.peerId.Some? && Since(ticks[n].now, h.createdAt) >= cfg.relayFallback
      then FindRelay(ticks[n].relays, h.peerId) else None
  }

  ghost predicate Recorded<M>(cfg: Timings, origin: Pending<M>, h: Pending<M>, sends: Sends, relay: Option<Addr>) {
    && h.message == origin.message && h.directAddr == origin.directAddr && h.peerId == origin.peerId
    && h.createdAt == origin.createdAt && h.relayAddr == relay
    && h.attempts == sends.count && h.nextAttempt == sends.last + RetryDelay(sends.count)
  }

  lemma {:induction false} HistoryIsRecorded<M>(cfg: Timings, h: Pending<M>, ticks: seq<Maintenance>)
    requires Fresh(h) && RunTicks(cfg, h, ticks).Some?
    ensures Recorded(cfg, h, RunTicks(cfg, h, ticks).value, SendsOf(cfg, h, ticks), ChosenRelay(cfg, h, ticks))
  {
    if ticks != [] {
      HistoryIsRecorded(cfg, h, ticks[..|ticks| - 1]);
    }
  }

  ghost predicate TimedOutBy<M>(cfg: Timings, h: Pending<M>, ticks: seq<Maintenance>) {
    exists i | 0 <= i < |ticks| :: Since(ticks[i].now, h.createdAt) >= cfg.handshakeTimeout
  }

  /** A handshake is given up exactly at the first tick at or after its timeout. */
  lemma {:induction false} GivenUpExactly<M>(cfg: Timings, h: Pending<M>, ticks: seq<Maintenance>)
    requires Fresh(h)
    ensures RunTicks(cfg, h, ticks).None? <==> TimedOutBy(cfg, h, ticks)
  {
    if ticks != [] {
      var n := |ticks| - 1;
      GivenUpExactly(cfg, h, ticks[..n]);
      assert ticks == ticks[..n] + [ticks[n]];
      if RunTicks(cfg, h, ticks[..n]).Some? {
        HistoryIsRecorded(cfg, h, ticks[..n]);
      }
      if TimedOutBy(cfg, h, ticks[..n]) {
        var i :| 0 <= i < n && Since(ticks[..n][i].now, h.createdAt) >= cfg.handshakeTimeout;
        assert ticks[i] == ticks[..n][i];
      }
    }
  }

  /** A tick sends exactly when the handshake has not timed out, fewer than ten copies went
      out, and the delay since the last has passed. */
  lemma SendsExactlyWhenDue<M>(cfg: Timings, h: Pending<M>, ticks: seq<Maintenance>, t: Maintenance)
    requires Fresh(h)
    ensures var sends := SendsOf(cfg, h, ticks);
            SentOn(cfg, h, ticks, t) != [] <==>
            && !TimedOutBy(cfg, h, ticks) && Since(t.now, h.createdAt) < cfg.handshakeTimeout
            && sends.count < 10 && t.now >= sends.last + RetryDelay(sends.count)
  {
    GivenUpExactly(cfg, h, ticks);
    if RunTicks(cfg, h, ticks).Some? {
      HistoryIsRecorded(cfg, h, ticks);
    }
  }

  /** Every copy goes to the address first dialled, and to the relay too from the tick on
      that chose one: the relay is an addition, not a replacement. */
  lemma CopiesGoTo<M>(cfg: Timings, h: Pending<M>, ticks: seq<Maintenance>, t: Maintenance)
    requires Fresh(h) && SentOn(cfg, h, ticks, t) != []
    ensures var relay := ChosenRelay(cfg, h, ticks + [t]);
            SentOn(cfg, h, ticks, t)
            == if relay.Some? && relay.value != h.directAddr then [h.directAddr, relay.value] else [h.directAddr]
  {
    HistoryIsRecorded(cfg, h, ticks);
    assert (ticks + [t])[..|ticks|] == ticks;
  }

  /** A handshake to a peer of unknown id never uses a relay. */
  lemma {:induction false} UnknownPeerHasNoRelay<M>(cfg: Timings, h: Pending<M>, ticks: seq<Maintenance>)
    requires h.peerId.None?
    ensures ChosenRelay(cfg, h, ticks).None?
  {
    if ticks != [] {
      UnknownPeerHasNoRelay(cfg, h, ticks[..|ticks| - 1]);
    }
  }
}
