/** The receiving side of fragmentation: a buffer of partial messages, bounded in
    messages and bytes, per source and in all.

    The reference state is only the partial messages themselves. The daemon keeps
    running byte counters beside them; class `FragmentAssembler` shows that those
    counters never drift. */
module Reassembly {
  import opened Bits
  import opened Types
  import opened Crypto
  import opened Packet
  import opened Handshake
  import opened Fragments

  /** A partly received message; `bytes` counts what `chunks` holds. */
  datatype Partial = Partial(chunks: seq<Option<Bytes>>, started: nat, bytes: nat)
  type Partials = map<MsgKey, Partial>

  // ------------------------------------------------ sizes

  function Length(chunk: Option<Bytes>): nat {
    if chunk.Some? then |chunk.value| else 0
  }

  function Size(chunks: seq<Option<Bytes>>): nat {
    if chunks == [] then 0 else Size(chunks[..|chunks| - 1]) + Length(chunks[|chunks| - 1])
  }

  lemma {:induction false} SizeUpdate(chunks: seq<Option<Bytes>>, i: nat, chunk: Option<Bytes>)
    requires i < |chunks|
    ensures Size(chunks[i := chunk]) == Size(chunks) - Length(chunks[i]) + Length(chunk)
    ensures Length(chunks[i]) <= Size(chunks)
  {
    var n := |chunks| - 1;
    if i < n {
      SizeUpdate(chunks[..n], i, chunk);
      assert chunks[i := chunk][..n] == chunks[..n][i := chunk];
    } else {
      assert chunks[i := chunk][..n] == chunks[..n];
    }
  }

  function Holding(chunks: seq<Option<Bytes>>, started: nat): Partial {
    Partial(chunks, started, Size(chunks))
  }

  ghost function TotalBytes(st: Partials): nat {
    if st == map[] then 0
    else
      var k :| k in st;
      Size(st[k].chunks) + TotalBytes(st - {k})
  }

  lemma {:induction false} TotalWithout(st: Partials, k: MsgKey)
    requires k in st
    ensures TotalBytes(st) == Size(st[k].chunks) + TotalBytes(st - {k})
    decreases |st|
  {
    var j :| j in st && TotalBytes(st) == Size(st[j].chunks) + TotalBytes(st - {j});
    if j != k {
      TotalWithout(st - {j}, k);
      TotalWithout(st - {k}, j);
      assert st - {j} - {k} == st - {k} - {j};
    }
  }

  lemma TotalWith(st: Partials, k: MsgKey, p: Partial)
    ensures TotalBytes(st[k := p]) == TotalBytes(st - {k}) + Size(p.chunks)
  {
    TotalWithout(st[k := p], k);
    assert st[k := p] - {k} == st - {k};
  }

  ghost function OfSource(st: Partials, src: Addr): Partials {
    map k | k in st && k.0 == src :: st[k]
  }

  ghost function SourceMessages(st: Partials, src: Addr): nat {
    |OfSource(st, src)|
  }

  ghost function SourceBytes(st: Partials, src: Addr): nat {
    TotalBytes(OfSource(st, src))
  }

  lemma SourceWith(st: Partials, k: MsgKey, p: Partial)
    ensures OfSource(st[k := p], k.0) == OfSource(st, k.0)[k := p]
    ensures OfSource(st - {k}, k.0) == OfSource(st, k.0) - {k}
    ensures forall src | src != k.0 :: OfSource(st[k := p], src) == OfSource(st, src) == OfSource(st - {k}, src)
  {}

  // ------------------------------------------------ the reference

  predicate AllPresent(chunks: seq<Option<Bytes>>) {
    forall i | 0 <= i < |chunks| :: chunks[i].Some?
  }

  function Join(chunks: seq<Option<Bytes>>): Bytes {
    if chunks == [] then []
    else Join(chunks[..|chunks| - 1]) + (if chunks[|chunks| - 1].Some? then chunks[|chunks| - 1].value else [])
  }

  function Empty(total: nat): seq<Option<Bytes>> {
    seq(total, _ => None)
  }

  function Growth(prior: Option<Bytes>, chunk: Bytes): nat {
    if |chunk| > Length(prior) then |chunk| - Length(prior) else 0
  }

  ghost predicate CanOpen(st: Partials, key: MsgKey) {
    key in st || (|st| < MAX_PENDING_MESSAGES && SourceMessages(st, key.0) < MAX_PENDING_MESSAGES_PER_SOURCE)
  }

  ghost function Opened(st: Partials, key: MsgKey, total: nat, now: nat): Partials {
    if key in st then st else st[key := Holding(Empty(total), now)]
  }

  /** Storing a chunk in an existing entry. */
  ghost function Store(st: Partials, key: MsgKey, f: Fragment): (Partials, FeedResult)
    requires key in st && f.index < f.total
  {
    var chunks := st[key].chunks;
    if |chunks| != f.total then (st - {key}, Buffered)
    else
      var growth := Growth(chunks[f.index], f.chunk);
      if Size(chunks) + growth > MAX_FRAGMENTED_MESSAGE_BYTES then (st - {key}, Buffered)
      else if TotalBytes(st) + growth > MAX_BUFFERED_BYTES
              || SourceBytes(st, key.0) + growth > MAX_BUFFERED_BYTES_PER_SOURCE then (st, Buffered)
      else
        var stored := chunks[f.index := Some(f.chunk)];
        if AllPresent(stored) then (st - {key}, Complete(Join(stored)))
        else (st[key := Holding(stored, st[key].started)], Buffered)
  }

  ghost function FeedFragment(st: Partials, src: Addr, f: Fragment, now: nat): (Partials, FeedResult) {
    var key := (src, f.msgId);
    if f.index >= f.total || |f.chunk| > MAX_FRAGMENTED_MESSAGE_BYTES || !CanOpen(st, key) then (st, Buffered)
    else Store(Opened(st, key, f.total, now), key, f)
  }

  ghost function FeedDatagram(s: RawSuite, networkKey: Bytes, st: Partials, src: Addr, data: Bytes, now: nat)
    : (Partials, FeedResult)
  {
    match ReadFragment(s, networkKey, data)
    case None => (st, NotFragment)
    case Some(f) => FeedFragment(st, src, f, now)
  }

  /** Times are in milliseconds; ages are compared in whole seconds. */
  predicate Young(started: nat, now: nat) {
    Since(now, started) / 1000 < CLEANUP_AGE_SECS
  }

  function Cleanup(st: Partials, now: nat): Partials {
    map k | k in st && Young(st[k].started, now) :: st[k]
  }

  function Expired(pending: Partials, now: nat): Partials {
    map k | k in pending && !Young(pending[k].started, now) :: pending[k]
  }

  /** The three byte caps admit the chunk. */
  ghost predicate Storable(st: Partials, key: MsgKey, f: Fragment)
    requires key in st
  {
    && f.index < f.total == |st[key].chunks|
    && var growth := Growth(st[key].chunks[f.index], f.chunk);
    && Size(st[key].chunks) + growth <= MAX_FRAGMENTED_MESSAGE_BYTES
    && TotalBytes(st) + growth <= MAX_BUFFERED_BYTES
    && SourceBytes(st, key.0) + growth <= MAX_BUFFERED_BYTES_PER_SOURCE
  }

  // ------------------------------------------------ invariants over every run

  ghost predicate WellFormedEntry(p: Partial) {
    && 1 <= |p.chunks| <= MAX_CHUNKS
    && !AllPresent(p.chunks)
    && p.bytes == Size(p.chunks) <= MAX_FRAGMENTED_MESSAGE_BYTES
  }

  ghost predicate WithinCaps(st: Partials) {
    && |st| <= MAX_PENDING_MESSAGES
    && TotalBytes(st) <= MAX_BUFFERED_BYTES
    && (forall src :: SourceMessages(st, src) <= MAX_PENDING_MESSAGES_PER_SOURCE)
    && (forall src :: SourceBytes(st, src) <= MAX_BUFFERED_BYTES_PER_SOURCE)
  }

  ghost predicate WellFormed(st: Partials) {
    (forall k | k in st :: WellFormedEntry(st[k])) && WithinCaps(st)
  }

  ghost predicate Submap(small: Partials, big: Partials) {
    forall k | k in small :: k in big && small[k] == big[k]
  }

  lemma {:induction false} SubmapIsSmaller(small: Partials, big: Partials)
    requires Submap(small, big)
    ensures TotalBytes(small) <= TotalBytes(big) && |small| <= |big|
    decreases |small|
  {
    if small != map[] {
      var k :| k in small;
      TotalWithout(small, k);
      TotalWithout(big, k);
      SubmapIsSmaller(small - {k}, big - {k});
    }
  }

  lemma SubmapKeepsWellFormed(small: Partials, big: Partials)
    requires Submap(small, big) && WellFormed(big)
    ensures WellFormed(small)
  {
    SubmapIsSmaller(small, big);
    forall src
      ensures SourceMessages(small, src) <= MAX_PENDING_MESSAGES_PER_SOURCE
      ensures SourceBytes(small, src) <= MAX_BUFFERED_BYTES_PER_SOURCE
    {
      SubmapIsSmaller(OfSource(small, src), OfSource(big, src));
      assert SourceMessages(big, src) <= MAX_PENDING_MESSAGES_PER_SOURCE;
      assert SourceBytes(big, src) <= MAX_BUFFERED_BYTES_PER_SOURCE;
    }
  }

  lemma {:induction false} EmptySize(total: nat)
    ensures Size(Empty(total)) == 0
  {
    if total > 0 {
      EmptySize(total - 1);
      assert Empty(total)[..total - 1] == Empty(total - 1);
    }
  }

  /** Replacing (or adding) one entry: what the four caps then need. */
  lemma ReplaceKeepsCaps(st: Partials, key: MsgKey, p: Partial)
    requires WithinCaps(st) && CanOpen(st, key)
    requires TotalBytes(st - {key}) + Size(p.chunks) <= MAX_BUFFERED_BYTES
    requires SourceBytes(st - {key}, key.0) + Size(p.chunks) <= MAX_BUFFERED_BYTES_PER_SOURCE
    ensures WithinCaps(st[key := p])
  {
    var st' := st[key := p];
    TotalWith(st, key, p);
    SourceWith(st, key, p);
    TotalWith(OfSource(st, key.0), key, p);
    forall src
      ensures SourceMessages(st', src) <= MAX_PENDING_MESSAGES_PER_SOURCE
      ensures SourceBytes(st', src) <= MAX_BUFFERED_BYTES_PER_SOURCE
    {
      assert SourceMessages(st, src) <= MAX_PENDING_MESSAGES_PER_SOURCE;
      assert SourceBytes(st, src) <= MAX_BUFFERED_BYTES_PER_SOURCE;
    }
  }

  lemma OpenKeepsWellFormed(st: Partials, key: MsgKey, total: nat, now: nat)
    requires WellFormed(st) && CanOpen(st, key) && 1 <= total <= MAX_CHUNKS
    ensures WellFormed(Opened(st, key, total, now))
  {
    if key !in st {
      var p := Holding(Empty(total), now);
      EmptySize(total);
      assert !AllPresent(p.chunks) by { assert p.chunks[0].None?; }
      assert st - {key} == st;
      assert SourceBytes(st, key.0) <= MAX_BUFFERED_BYTES_PER_SOURCE;
      ReplaceKeepsCaps(st, key, p);
    }
  }

  lemma StoreKeepsCaps(st: Partials, key: MsgKey, f: Fragment)
    requires WithinCaps(st) && key in st && Storable(st, key, f)
    ensures WithinCaps(st[key := Holding(st[key].chunks[f.index := Some(f.chunk)], st[key].started)])
  {
    var p := Holding(st[key].chunks[f.index := Some(f.chunk)], st[key].started);
    SizeUpdate(st[key].chunks, f.index, Some(f.chunk));
    TotalWithout(st, key);
    TotalWithout(OfSource(st, key.0), key);
    SourceWith(st, key, p);
    ReplaceKeepsCaps(st, key, p);
  }

  lemma StoredKeepsWellFormed(st: Partials, key: MsgKey, f: Fragment)
    requires WellFormed(st) && key in st && Storable(st, key, f)
    requires !AllPresent(st[key].chunks[f.index := Some(f.chunk)])
    ensures WellFormed(st[key := Holding(st[key].chunks[f.index := Some(f.chunk)], st[key].started)])
  {
    SizeUpdate(st[key].chunks, f.index, Some(f.chunk));
    StoreKeepsCaps(st, key, f);
  }

  lemma StoreKeepsWellFormed(st: Partials, key: MsgKey, f: Fragment)
    requires WellFormed(st) && key in st && f.index < f.total
    ensures WellFormed(Store(st, key, f).0)
  {
    var st' := Store(st, key, f).0;
    if st' == st - {key} {
      SubmapKeepsWellFormed(st', st);
    } else if st' != st {
      StoredKeepsWellFormed(st, key, f);
    }
  }

  /** Every fragment keeps all the caps, and no stored message is ever complete. */
  lemma FeedKeepsWellFormed(st: Partials, src: Addr, f: Fragment, now: nat)
    requires WellFormed(st) && f.total <= MAX_CHUNKS
    ensures WellFormed(FeedFragment(st, src, f, now).0)
  {
    var key := (src, f.msgId);
    var st' := FeedFragment(st, src, f, now).0;
    if st' != st {
      var opened' := Opened(st, key, f.total, now);
      OpenKeepsWellFormed(st, key, f.total, now);
      StoreKeepsWellFormed(opened', key, f);
      assert st' == Store(opened', key, f).0;
    }
  }

  /** A fragment changes no entry but its own. */
  lemma FeedTouchesOnlyItsKey(st: Partials, src: Addr, f: Fragment, now: nat, k: MsgKey)
    requires k != (src, f.msgId)
    ensures var st' := FeedFragment(st, src, f, now).0;
            (k in st <==> k in st') && (k in st ==> st'[k] == st[k])
  {}

  lemma CleanupKeepsWellFormed(st: Partials, now: nat)
    requires WellFormed(st)
    ensures WellFormed(Cleanup(st, now))
  {
    SubmapKeepsWellFormed(Cleanup(st, now), st);
  }

  /** A sweep keeps exactly the messages begun less than 30 s ago, untouched. */
  lemma SurvivesExactly(st: Partials, now: nat, k: MsgKey)
    ensures k in Cleanup(st, now) <==> k in st && now < st[k].started + 30_000
    ensures k in Cleanup(st, now) ==> Cleanup(st, now)[k] == st[k]
  {}

  // ------------------------------------------------ what becomes of a fragment

  /** A fragment that can be placed at all: sensible index, size within bounds. */
  predicate Sensible(f: Fragment) {
    f.index < f.total && |f.chunk| <= MAX_FRAGMENTED_MESSAGE_BYTES
  }

  /** The bytes its message would hold with this fragment. */
  ghost function SizeWith(st: Partials, key: MsgKey, f: Fragment): nat {
    if key in st && f.index < |st[key].chunks|
    then Size(st[key].chunks) + (if |f.chunk| > Length(st[key].chunks[f.index])
                                 then |f.chunk| - Length(st[key].chunks[f.index]) else 0)
    else |f.chunk|
  }

  /** A fragment that disagrees about the number of chunks, or would make its message too
      long, discards the message. */
  lemma ConflictDiscards(st: Partials, src: Addr, f: Fragment, now: nat)
    requires Sensible(f) && (src, f.msgId) in st
    requires |st[(src, f.msgId)].chunks| != f.total || SizeWith(st, (src, f.msgId), f) > MAX_FRAGMENTED_MESSAGE_BYTES
    ensures FeedFragment(st, src, f, now) == (st - {(src, f.msgId)}, Buffered)
  {}

  /** A fragment that cannot be placed, or starts one message too many, changes nothing. */
  lemma RefusedChangesNothing(st: Partials, src: Addr, f: Fragment, now: nat)
    requires !Sensible(f) || ((src, f.msgId) !in st
               && (|st| >= MAX_PENDING_MESSAGES || SourceMessages(st, src) >= MAX_PENDING_MESSAGES_PER_SOURCE))
    ensures FeedFragment(st, src, f, now) == (st, Buffered)
  {}

  /** The latest copy of a chunk is the one kept: the other chunks and the age of the
      message stay, and a message begins when its first fragment arrives. */
  lemma StoredChunkIsTheLatest(st: Partials, src: Addr, f: Fragment, now: nat)
    requires Sensible(f) && CanOpen(st, (src, f.msgId))
    requires Storable(Opened(st, (src, f.msgId), f.total, now), (src, f.msgId), f)
    ensures var key := (src, f.msgId);
            var (st', r) := FeedFragment(st, src, f, now);
            r == Buffered ==>
              && key in st' && |st'[key].chunks| == f.total && st'[key].chunks[f.index] == Some(f.chunk)
              && st'[key].started == (if key in st then st[key].started else now)
              && forall i | 0 <= i < f.total && i != f.index ::
                   st'[key].chunks[i] == if key in st then st[key].chunks[i] else None
  {
    StoreOfStorable(Opened(st, (src, f.msgId), f.total, now), (src, f.msgId), f);
  }

  /** A fragment the byte caps do not admit leaves every chunk as it was. */
  lemma FullBufferKeepsChunks(st: Partials, src: Addr, f: Fragment, now: nat)
    requires Sensible(f) && CanOpen(st, (src, f.msgId))
    requires var open := Opened(st, (src, f.msgId), f.total, now);
             && |open[(src, f.msgId)].chunks| == f.total
             && SizeWith(open, (src, f.msgId), f) <= MAX_FRAGMENTED_MESSAGE_BYTES
             && !Storable(open, (src, f.msgId), f)
    ensures FeedFragment(st, src, f, now) == (Opened(st, (src, f.msgId), f.total, now), Buffered)
  {}

  // ------------------------------------------------ the daemon's buffer

  function SaturatingAdd(a: nat, b: nat): nat {
    if a + b > USIZE_MAX then USIZE_MAX else a + b
  }

  function SaturatingSub(a: nat, b: nat): nat {
    if a >= b then a - b else 0
  }

  /** The caps hold, and both levels of counters say what is really stored. */
  ghost predicate Sound(pending: Partials, buffered: nat) {
    WellFormed(pending) && buffered == TotalBytes(pending)
  }

  lemma RemoveStaysSound(pending: Partials, buffered: nat, key: MsgKey)
    requires Sound(pending, buffered) && key in pending
    ensures Sound(pending - {key}, SaturatingSub(buffered, pending[key].bytes))
  {
    SubmapKeepsWellFormed(pending - {key}, pending);
    TotalWithout(pending, key);
  }

  /** One more entry of the usage count, which cannot reach the integer limit. */
  lemma UsageStep(all: Partials, todo: set<MsgKey>, k: MsgKey, src: Addr)
    requires k in todo && todo <= all.Keys && all[k].bytes == Size(all[k].chunks)
    requires SourceBytes(all, src) <= MAX_BUFFERED_BYTES_PER_SOURCE
    ensures var done, next := all - todo, all - (todo - {k});
            && SourceMessages(next, src) == SourceMessages(done, src) + (if k.0 == src then 1 else 0)
            && SourceBytes(next, src) == SourceBytes(done, src) + (if k.0 == src then all[k].bytes else 0)
            && SourceBytes(next, src) <= USIZE_MAX
  {
    var done, next := all - todo, all - (todo - {k});
    var p := all[k];
    assert next == done[k := p];
    SourceWith(done, k, p);
    TotalWith(OfSource(done, k.0), k, p);
    assert OfSource(done, k.0) - {k} == OfSource(done, k.0);
    assert Submap(OfSource(next, src), OfSource(all, src));
    SubmapIsSmaller(OfSource(next, src), OfSource(all, src));
  }

  lemma OpenAddsNoBytes(pending: Partials, key: MsgKey, total: nat, now: nat)
    requires key !in pending
    ensures Partial(Empty(total), now, 0) == Holding(Empty(total), now)
    ensures TotalBytes(Opened(pending, key, total, now)) == TotalBytes(pending)
  {
    EmptySize(total);
    TotalWith(pending, key, Holding(Empty(total), now));
    assert pending - {key} == pending;
  }

  lemma StoreOfStorable(st: Partials, key: MsgKey, f: Fragment)
    requires key in st && Storable(st, key, f)
    ensures var stored := st[key].chunks[f.index := Some(f.chunk)];
            Store(st, key, f) == if AllPresent(stored) then (st - {key}, Complete(Join(stored)))
                                 else (st[key := Holding(stored, st[key].started)], Buffered)
  {}

  /** After an accepted chunk the counters are again exact, whether the message
      stays or leaves. */
  lemma WriteStaysSound(pending: Partials, buffered: nat, key: MsgKey, f: Fragment)
    requires Sound(pending, buffered) && key in pending && Storable(pending, key, f)
    ensures var entry := pending[key];
            var stored := entry.chunks[f.index := Some(f.chunk)];
            var change: int := |f.chunk| - Length(entry.chunks[f.index]);
            && entry.bytes + change == Size(stored) <= MAX_FRAGMENTED_MESSAGE_BYTES
            && Size(stored) <= buffered + change <= MAX_BUFFERED_BYTES
            && (AllPresent(stored) ==> Sound(pending - {key}, buffered + change - Size(stored)))
            && (!AllPresent(stored) ==> Sound(pending[key := Holding(stored, entry.started)], buffered + change))
  {
    var entry := pending[key];
    var stored := entry.chunks[f.index := Some(f.chunk)];
    SizeUpdate(entry.chunks, f.index, Some(f.chunk));
    RemoveStaysSound(pending, buffered, key);
    TotalWithout(pending, key);
    if !AllPresent(stored) {
      StoreKeepsWellFormed(pending, key, f);
      TotalWith(pending, key, Holding(stored, entry.started));
    }
  }

  lemma CleanupStep(all: Partials, todo: set<MsgKey>, k: MsgKey, now: nat)
    requires k in todo && todo <= all.Keys
    ensures var done, next := all - todo, all - (todo - {k});
            if Young(all[k].started, now)
            then Cleanup(next, now) == Cleanup(done, now)[k := all[k]] && Expired(next, now) == Expired(done, now)
            else Cleanup(next, now) == Cleanup(done, now) && Expired(next, now) == Expired(done, now)[k := all[k]]
  {}

  lemma ExpiredTotal(all: Partials, todo: set<MsgKey>, k: MsgKey, now: nat)
    requires k in todo && todo <= all.Keys && !Young(all[k].started, now)
    requires TotalBytes(all) <= USIZE_MAX
    ensures var before := Expired(all - todo, now);
            && TotalBytes(before[k := all[k]]) == TotalBytes(before) + Size(all[k].chunks)
            && TotalBytes(before[k := all[k]]) <= USIZE_MAX
  {
    var before := Expired(all - todo, now);
    TotalWith(before, k, all[k]);
    assert before - {k} == before;
    assert Submap(before[k := all[k]], all);
    SubmapIsSmaller(before[k := all[k]], all);
  }

  lemma CleanupWithout(all: Partials, k: MsgKey, now: nat)
    requires k in all
    ensures Cleanup(all - {k}, now) == Cleanup(all, now) - {k}
    ensures Expired(all - {k}, now) == Expired(all, now) - {k}
    ensures if Young(all[k].started, now)
            then && k in Cleanup(all, now) && Cleanup(all, now)[k] == all[k]
                 && Expired(all, now) - {k} == Expired(all, now)
            else && k in Expired(all, now) && Expired(all, now)[k] == all[k]
                 && Cleanup(all, now) - {k} == Cleanup(all, now)
  {}

  lemma {:induction false} CleanupTotal(all: Partials, now: nat)
    ensures TotalBytes(all) == TotalBytes(Cleanup(all, now)) + TotalBytes(Expired(all, now))
    decreases |all|
  {
    if all == map[] {
      assert Cleanup(all, now) == map[] && Expired(all, now) == map[];
    } else {
      var k :| k in all;
      CleanupWithout(all, k, now);
      TotalWithout(all, k);
      CleanupTotal(all - {k}, now);
      if Young(all[k].started, now) {
        TotalWithout(Cleanup(all, now), k);
      } else {
        TotalWithout(Expired(all, now), k);
      }
    }
  }

  method UsageOf(all: Partials, src: Addr) returns (messages: nat, bytes: nat)
    requires forall k | k in all :: all[k].bytes == Size(all[k].chunks)
    requires SourceBytes(all, src) <= MAX_BUFFERED_BYTES_PER_SOURCE
    ensures messages == SourceMessages(all, src)
    ensures bytes == SourceBytes(all, src)
  {
    messages, bytes := 0, 0;
    var todo := all.Keys;
    assert OfSource(all - todo, src) == map[];
    while todo != {}
      invariant todo <= all.Keys
      invariant messages == SourceMessages(all - todo, src)
      invariant bytes == SourceBytes(all - todo, src)
      decreases todo
    {
      var k :| k in todo;
      UsageStep(all, todo, k, src);
      if k.0 == src {
        messages := messages + 1;
        bytes := SaturatingAdd(bytes, all[k].bytes);
      }
      todo := todo - {k};
    }
    assert all - todo == all;
  }

  class FragmentAssembler {
    var pending: Partials
    var bufferedBytes: nat

    ghost predicate Valid()
      reads this
    {
      Sound(pending, bufferedBytes)
    }

    constructor ()
      ensures Valid() && pending == map[]
    {
      pending, bufferedBytes := map[], 0;
      new;
      assert forall src :: OfSource(pending, src) == map[];
    }

    method SourceUsage(src: Addr) returns (messages: nat, bytes: nat)
      requires Valid()
      ensures messages == SourceMessages(pending, src)
      ensures bytes == SourceBytes(pending, src)
    {
      assert SourceBytes(pending, src) <= MAX_BUFFERED_BYTES_PER_SOURCE;
      messages, bytes := UsageOf(pending, src);
    }

    method RemovePending(key: MsgKey)
      requires Valid()
      modifies this
      ensures Valid()
      ensures pending == old(pending) - {key}
    {
      if key in pending {
        RemoveStaysSound(pending, bufferedBytes, key);
        bufferedBytes := SaturatingSub(bufferedBytes, pending[key].bytes);
        pending := pending - {key};
      }
    }

    method Feed(s: RawSuite, src: Addr, data: Bytes, networkKey: Bytes, now: nat) returns (r: FeedResult)
      requires Valid()
      modifies this
      ensures Valid()
      ensures (pending, r) == FeedDatagram(s, networkKey, old(pending), src, data, now)
    {
      var read := ReadFragment(s, networkKey, data);
      if read.None? {
        return NotFragment;
      }
      var f := read.value;
      if f.index >= f.total || f.total == 0 {
        return Buffered;
      }
      if |f.chunk| > MAX_FRAGMENTED_MESSAGE_BYTES {
        return Buffered;
      }
      var key := (src, f.msgId);
      var room := OpenEntry(key, f.total, now);
      if !room {
        return Buffered;
      }
      r := StoreChunk(key, f);
    }

    /** Makes sure the message has an entry, unless a message cap forbids a new one. */
    method OpenEntry(key: MsgKey, total: nat, now: nat) returns (ok: bool)
      requires Valid() && 1 <= total <= MAX_CHUNKS
      modifies this
      ensures Valid()
      ensures ok <==> CanOpen(old(pending), key)
      ensures pending == if ok then Opened(old(pending), key, total, now) else old(pending)
    {
      if key !in pending {
        var sourceMessages, _ := SourceUsage(key.0);
        if |pending| >= MAX_PENDING_MESSAGES || sourceMessages >= MAX_PENDING_MESSAGES_PER_SOURCE {
          return false;
        }
        OpenKeepsWellFormed(pending, key, total, now);
        OpenAddsNoBytes(pending, key, total, now);
        pending := pending[key := Partial(Empty(total), now, 0)];
      }
      return true;
    }

    method StoreChunk(key: MsgKey, f: Fragment) returns (r: FeedResult)
      requires Valid() && key in pending && f.index < f.total
      modifies this
      ensures Valid()
      ensures (pending, r) == Store(old(pending), key, f)
    {
      var entry := pending[key];
      if |entry.chunks| != f.total {
        RemovePending(key);
        return Buffered;
      }
      var oldLen := Length(entry.chunks[f.index]);
      var delta := SaturatingSub(|f.chunk|, oldLen);
      var messageBytes := SaturatingAdd(entry.bytes, delta);
      if messageBytes > MAX_FRAGMENTED_MESSAGE_BYTES {
        RemovePending(key);
        return Buffered;
      }
      var _, sourceBytes := SourceUsage(key.0);
      if SaturatingAdd(bufferedBytes, delta) > MAX_BUFFERED_BYTES
         || SaturatingAdd(sourceBytes, delta) > MAX_BUFFERED_BYTES_PER_SOURCE {
        return Buffered;
      }
      r := WriteChunk(key, f, delta);
    }

    /** The accepted chunk goes in, and a finished message comes out. */
    method WriteChunk(key: MsgKey, f: Fragment, delta: nat) returns (r: FeedResult)
      requires Valid() && key in pending && Storable(pending, key, f)
      requires delta == Growth(pending[key].chunks[f.index], f.chunk)
      modifies this
      ensures Valid()
      ensures (pending, r) == Store(old(pending), key, f)
    {
      WriteStaysSound(pending, bufferedBytes, key, f);
      StoreOfStorable(pending, key, f);
      var entry := pending[key];
      var oldLen := Length(entry.chunks[f.index]);
      var bytes: nat;
      if oldLen > |f.chunk| {
        bufferedBytes := SaturatingSub(bufferedBytes, oldLen - |f.chunk|);
        bytes := SaturatingSub(entry.bytes, oldLen - |f.chunk|);
      } else {
        bufferedBytes := SaturatingAdd(bufferedBytes, delta);
        bytes := SaturatingAdd(entry.bytes, delta);
      }
      var stored := entry.chunks[f.index := Some(f.chunk)];
      assert bytes == Size(stored);
      assert bufferedBytes == old(bufferedBytes) + |f.chunk| - oldLen;
      var complete := AllPresent(stored);
      if complete {
        pending := pending - {key};
        bufferedBytes := SaturatingSub(bufferedBytes, bytes);
        r := Complete(Join(stored));
      } else {
        pending := pending[key := Partial(stored, entry.started, bytes)];
        r := Buffered;
      }
    }

    method CleanupExpired(now: nat)
      requires Valid()
      modifies this
      ensures Valid()
      ensures pending == Cleanup(old(pending), now)
    {
      var kept, removedBytes := SweepExpired(pending, now);
      CleanupTotal(pending, now);
      CleanupKeepsWellFormed(pending, now);
      pending := kept;
      bufferedBytes := SaturatingSub(bufferedBytes, removedBytes);
    }
  }

  /** The entries still young enough, and the bytes the others held. */
  method SweepExpired(all: Partials, now: nat) returns (kept: Partials, removedBytes: nat)
    requires forall k | k in all :: all[k].bytes == Size(all[k].chunks)
    requires TotalBytes(all) <= USIZE_MAX
    ensures kept == Cleanup(all, now)
    ensures removedBytes == TotalBytes(Expired(all, now))
  {
    var todo := all.Keys;
    kept, removedBytes := map[], 0;
    assert Expired(all - todo, now) == map[];
    while todo != {}
      invariant todo <= all.Keys
      invariant kept == Cleanup(all - todo, now)
      invariant removedBytes == TotalBytes(Expired(all - todo, now))
      decreases todo
    {
      var k :| k in todo;
      CleanupStep(all, todo, k, now);
      if Young(all[k].started, now) {
        kept := kept[k := all[k]];
      } else {
        ExpiredTotal(all, todo, k, now);
        removedBytes := SaturatingAdd(removedBytes, all[k].bytes);
      }
      todo := todo - {k};
    }
    assert all - todo == all;
  }
}
