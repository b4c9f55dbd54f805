/** Reassembly undoes fragmentation: one message's fragments arriving in any order,
    with repeats and losses spread over several attempts, among any other traffic. */
module Delivery {
  import opened Bits
  import opened Types
  import opened Crypto
  import opened Packet
  import opened Handshake
  import opened Fragments
  import opened Reassembly

  datatype AnyMessage = Message(src: Addr, id: u32, parts: seq<Bytes>)

  /** A message as its sender split it. */
  type Message = m: AnyMessage | 1 <= |m.parts| <= MAX_CHUNKS witness Message(Addr(0), 0, [[]])

  function KeyOf(m: Message): MsgKey {
    (m.src, m.id)
  }

  /** The chunks an entry holds once the indices in `got` have arrived. */
  ghost function Masked(parts: seq<Bytes>, got: set<nat>): seq<Option<Bytes>> {
    seq(|parts|, i requires 0 <= i < |parts| => if i in got then Some(parts[i]) else None)
  }

  ghost predicate Covers(parts: seq<Bytes>, got: set<nat>) {
    forall i: nat | i < |parts| :: i in got
  }

  lemma {:induction false} MaskedFits(parts: seq<Bytes>, got: set<nat>)
    ensures Size(Masked(parts, got)) <= |Flatten(parts)|
    ensures Covers(parts, got) ==> Join(Masked(parts, got)) == Flatten(parts)
  {
    if parts != [] {
      var n := |parts| - 1;
      MaskedFits(parts[..n], got);
      assert Masked(parts, got)[..n] == Masked(parts[..n], got);
    }
  }

  lemma MaskedPlus(parts: seq<Bytes>, got: set<nat>, i: nat)
    requires i < |parts|
    ensures Masked(parts, got)[i := Some(parts[i])] == Masked(parts, got + {i})
    ensures AllPresent(Masked(parts, got + {i})) <==> Covers(parts, got + {i})
    ensures Size(Masked(parts, got)) + Growth(Masked(parts, got)[i], parts[i]) == Size(Masked(parts, got + {i}))
  {
    SizeUpdate(Masked(parts, got), i, Some(parts[i]));
    assert Masked(parts, got)[i := Some(parts[i])] == Masked(parts, got + {i});
    if AllPresent(Masked(parts, got + {i})) {
      forall j: nat | j < |parts|
        ensures j in got + {i}
      {
        assert Masked(parts, got + {i})[j].Some?;
      }
    }
  }

  /** Everything else in the buffer leaves room for this message. */
  ghost predicate Headroom(st: Partials, m: Message) {
    var others := st - {KeyOf(m)};
    && |others| < MAX_PENDING_MESSAGES
    && SourceMessages(others, m.src) < MAX_PENDING_MESSAGES_PER_SOURCE
    && TotalBytes(others) + |Flatten(m.parts)| <= MAX_BUFFERED_BYTES
    && SourceBytes(others, m.src) + |Flatten(m.parts)| <= MAX_BUFFERED_BYTES_PER_SOURCE
  }

  /** The buffer holds exactly the fragments in `got` of this message. */
  ghost predicate Holds(st: Partials, m: Message, got: set<nat>) {
    if got == {} then KeyOf(m) !in st
    else KeyOf(m) in st && st[KeyOf(m)] == Holding(Masked(m.parts, got), st[KeyOf(m)].started)
  }

  lemma OpenedHolds(st: Partials, m: Message, got: set<nat>, now: nat)
    requires Holds(st, m, got) && Headroom(st, m)
    ensures CanOpen(st, KeyOf(m))
    ensures var open := Opened(st, KeyOf(m), |m.parts|, now);
            && KeyOf(m) in open && open[KeyOf(m)] == Holding(Masked(m.parts, got), open[KeyOf(m)].started)
            && open - {KeyOf(m)} == st - {KeyOf(m)}
  {
    if got == {} {
      assert st - {KeyOf(m)} == st;
      assert Masked(m.parts, got) == Empty(|m.parts|);
    }
  }

  lemma RoomForChunk(open: Partials, m: Message, got: set<nat>, i: nat)
    requires i < |m.parts| && Headroom(open, m)
    requires KeyOf(m) in open && open[KeyOf(m)] == Holding(Masked(m.parts, got), open[KeyOf(m)].started)
    ensures Storable(open, KeyOf(m), NthFragment(m.id, m.parts, i))
  {
    var key := KeyOf(m);
    MaskedPlus(m.parts, got, i);
    MaskedFits(m.parts, got + {i});
    TotalWithout(open, key);
    SourceWith(open, key, open[key]);
    TotalWithout(OfSource(open, m.src), key);
  }

  /** One more fragment: buffered, or the whole message if it was the last one missing. */
  lemma FragmentArrives(st: Partials, m: Message, got: set<nat>, i: nat, now: nat)
    requires Holds(st, m, got) && Headroom(st, m) && i < |m.parts|
    ensures var (st', r) := FeedFragment(st, m.src, NthFragment(m.id, m.parts, i), now);
            if Covers(m.parts, got + {i})
            then r == Complete(Flatten(m.parts)) && KeyOf(m) !in st'
            else r == Buffered && Holds(st', m, got + {i})
  {
    var key, f := KeyOf(m), NthFragment(m.id, m.parts, i);
    OpenedHolds(st, m, got, now);
    var open := Opened(st, key, |m.parts|, now);
    RoomForChunk(open, m, got, i);
    StoreOfStorable(open, key, f);
    MaskedPlus(m.parts, got, i);
    MaskedFits(m.parts, got + {i});
    ChunkIsSmall(m.parts, i);
  }

  lemma {:induction false} ChunkIsSmall(parts: seq<Bytes>, i: nat)
    requires i < |parts|
    ensures |parts[i]| <= |Flatten(parts)|
  {
    if i < |parts| - 1 { ChunkIsSmall(parts[..|parts| - 1], i); }
  }

  // ------------------------------------------------ whole runs

  /** What may happen to the buffer: a fragment of our message (from any attempt,
      sealed with that attempt's nonces), any other datagram, or a sweep. */
  datatype Arrival =
    | Ours(index: nat, dst: Id, maskNonce: MaskNonce, nonce: Nonce, now: nat)
    | Other(src: Addr, data: Bytes, now: nat)
    | Sweep(now: nat)

  /** A receiver with its network key, the message under way to it, and the state
      of its buffer when the first fragment was sent. */
  datatype Setting = Setting(suite: RawSuite, networkKey: Bytes, message: Message, start: Partials)

  ghost function Step(w: Setting, st: Partials, e: Arrival): (Partials, FeedResult) {
    match e
    case Ours(i, dst, maskNonce, nonce, now) =>
      if i >= |w.message.parts| then (st, Buffered) else
      var f := NthFragment(w.message.id, w.message.parts, i);
      FeedDatagram(w.suite, w.networkKey, st, w.message.src,
                   FragmentDatagram(w.suite, w.networkKey, f, dst, maskNonce, nonce), now)
    case Other(src, data, now) => FeedDatagram(w.suite, w.networkKey, st, src, data, now)
    case Sweep(now) => (Cleanup(st, now), Buffered)
  }

  ghost function After(w: Setting, events: seq<Arrival>): Partials {
    if events == [] then w.start
    else Step(w, After(w, events[..|events| - 1]), events[|events| - 1]).0
  }

  ghost function GotAfter(got: set<nat>, e: Arrival): set<nat> {
    if e.Ours? then got + {e.index} else got
  }

  /** The fragment indices that have arrived. */
  ghost function Got(events: seq<Arrival>): set<nat> {
    if events == [] then {} else GotAfter(Got(events[..|events| - 1]), events[|events| - 1])
  }

  /** The step leaves our message its room, and is not a foreign message under its
      id nor a sweep after it has gone stale. */
  ghost predicate Benign(w: Setting, st: Partials, e: Arrival) {
    var key := KeyOf(w.message);
    && Headroom(st, w.message)
    && match e
       case Ours(i, _, _, _, _) => i < |w.message.parts|
       case Other(src, data, _) =>
         var f := ReadFragment(w.suite, w.networkKey, data);
         f.Some? ==> (src, f.value.msgId) != key
       case Sweep(now) => key in st ==> Young(st[key].started, now)
  }

  ghost predicate BenignRun(w: Setting, events: seq<Arrival>) {
    forall i | 0 <= i < |events| :: Benign(w, After(w, events[..i]), events[i])
  }

  lemma OursArrives(w: Setting, st: Partials, got: set<nat>, e: Arrival)
    requires AeadLaws(w.suite) && e.Ours? && e.index < |w.message.parts|
    requires Holds(st, w.message, got) && Headroom(st, w.message)
    ensures var (st', r) := Step(w, st, e);
            if Covers(w.message.parts, got + {e.index})
            then r == Complete(Flatten(w.message.parts)) && KeyOf(w.message) !in st'
            else r == Buffered && Holds(st', w.message, got + {e.index})
  {
    var f := NthFragment(w.message.id, w.message.parts, e.index);
    ReadInvertsSeal(w.suite, w.networkKey, f, e.dst, e.maskNonce, e.nonce);
    FragmentArrives(st, w.message, got, e.index, e.now);
  }

  lemma OthersLeaveItAlone(w: Setting, st: Partials, got: set<nat>, e: Arrival)
    requires !e.Ours? && Holds(st, w.message, got) && Benign(w, st, e)
    ensures Holds(Step(w, st, e).0, w.message, got)
  {
    if e.Other? {
      var f := ReadFragment(w.suite, w.networkKey, e.data);
      if f.Some? {
        FeedTouchesOnlyItsKey(st, e.src, f.value, e.now, KeyOf(w.message));
      }
    }
  }

  lemma StepHolds(w: Setting, st: Partials, got: set<nat>, e: Arrival)
    requires AeadLaws(w.suite) && Holds(st, w.message, got) && Benign(w, st, e)
    requires !Covers(w.message.parts, GotAfter(got, e))
    ensures Holds(Step(w, st, e).0, w.message, GotAfter(got, e))
  {
    if e.Ours? {
      OursArrives(w, st, got, e);
    } else {
      OthersLeaveItAlone(w, st, got, e);
    }
  }

  lemma {:induction false} GrowsByIndex(w: Setting, events: seq<Arrival>)
    requires AeadLaws(w.suite) && KeyOf(w.message) !in w.start && BenignRun(w, events)
    requires !Covers(w.message.parts, Got(events))
    ensures Holds(After(w, events), w.message, Got(events))
  {
    if events != [] {
      var n := |events| - 1;
      PrefixIsBenign(w, events, n);
      GrowsByIndex(w, events[..n]);
      StepHolds(w, After(w, events[..n]), Got(events[..n]), events[n]);
    }
  }

  lemma PrefixIsBenign(w: Setting, events: seq<Arrival>, n: nat)
    requires BenignRun(w, events) && n <= |events|
    ensures BenignRun(w, events[..n])
  {
    forall i | 0 <= i < n
      ensures Benign(w, After(w, events[..n][..i]), events[..n][i])
    {
      assert events[..n][..i] == events[..i];
    }
  }

  /** How the run's last arrival was answered. */
  ghost function LastAnswer(w: Setting, events: seq<Arrival>): FeedResult
    requires events != []
  {
    Step(w, After(w, events[..|events| - 1]), events[|events| - 1]).1
  }

  /** The run ends with a fragment of our message that was still awaited. */
  ghost predicate EndsAwaited(w: Setting, events: seq<Arrival>) {
    && events != [] && events[|events| - 1].Ours?
    && !Covers(w.message.parts, Got(events[..|events| - 1]))
  }

  /** In every run, each fragment is answered `Buffered` until every index has
      arrived once, and the one that completes the set yields exactly the message. */
  lemma ReassemblyUndoesFragmentation(w: Setting, events: seq<Arrival>)
    requires AeadLaws(w.suite) && KeyOf(w.message) !in w.start && BenignRun(w, events)
    requires EndsAwaited(w, events)
    ensures if Covers(w.message.parts, Got(events))
            then LastAnswer(w, events) == Complete(Flatten(w.message.parts)) && KeyOf(w.message) !in After(w, events)
            else LastAnswer(w, events) == Buffered
  {
    var n := |events| - 1;
    PrefixIsBenign(w, events, n);
    GrowsByIndex(w, events[..n]);
    assert Benign(w, After(w, events[..n]), events[n]);
    OursArrives(w, After(w, events[..n]), Got(events[..n]), events[n]);
  }

  /** The message is what `SendFragmented` makes of these bytes under this limit. */
  ghost predicate SplitOf(m: Message, data: Bytes, maxDatagram: nat) {
    MIN_DATAGRAM <= maxDatagram && m.parts == Chunks(data, maxDatagram - PACKET_OVERHEAD)
  }

  lemma SplitKeepsBytes(m: Message, data: Bytes, maxDatagram: nat)
    requires SplitOf(m, data, maxDatagram)
    ensures Flatten(m.parts) == data
  {
    ChunksCover(data, maxDatagram - PACKET_OVERHEAD);
  }

  /** From sender to receiver: the bytes handed to `SendFragmented` come out whole,
      the empty message included. */
  lemma MessageArrivesIntact(w: Setting, data: Bytes, maxDatagram: nat, events: seq<Arrival>)
    requires AeadLaws(w.suite) && KeyOf(w.message) !in w.start && BenignRun(w, events)
    requires SplitOf(w.message, data, maxDatagram)
    requires EndsAwaited(w, events) && Covers(w.message.parts, Got(events))
    ensures LastAnswer(w, events) == Complete(data)
  {
    SplitKeepsBytes(w.message, data, maxDatagram);
    ReassemblyUndoesFragmentation(w, events);
  }

  /** Whatever arrives, in whatever order, every cap holds after every step and no
      stored message is complete. */
  lemma {:induction false} EveryRunStaysBounded(w: Setting, events: seq<Arrival>)
    requires WellFormed(w.start)
    ensures WellFormed(After(w, events))
  {
    if events != [] {
      var n := |events| - 1;
      EveryRunStaysBounded(w, events[..n]);
      StepStaysBounded(w, After(w, events[..n]), events[n]);
    }
  }

  lemma StepStaysBounded(w: Setting, st: Partials, e: Arrival)
    requires WellFormed(st)
    ensures WellFormed(Step(w, st, e).0)
  {
    match e
    case Ours(i, dst, maskNonce, nonce, now) =>
      if i < |w.message.parts| {
        var f := NthFragment(w.message.id, w.message.parts, i);
        var datagram := FragmentDatagram(w.suite, w.networkKey, f, dst, maskNonce, nonce);
        DatagramStaysBounded(w, st, w.message.src, datagram, now);
      }
    case Other(src, data, now) =>
      DatagramStaysBounded(w, st, src, data, now);
    case Sweep(now) =>
      CleanupKeepsWellFormed(st, now);
  }

  lemma DatagramStaysBounded(w: Setting, st: Partials, src: Addr, data: Bytes, now: nat)
    requires WellFormed(st)
    ensures WellFormed(FeedDatagram(w.suite, w.networkKey, st, src, data, now).0)
  {
    var f := ReadFragment(w.suite, w.networkKey, data);
    if f.Some? {
      FeedKeepsWellFormed(st, src, f.value, now);
    }
  }
}
