/** The cache of handshake responses, bounded to 256 entries of at most 60 s, against
    an unbounded memory of every response. */
module Cache {
  import opened Bits
  import opened Types

  const HANDSHAKE_CACHE_TTL: Millis := 60_000
  const HANDSHAKE_CACHE_MAX_ENTRIES: nat := 256

  /** A response with the peer it was for. Keys identify requests: the daemon uses a
      digest of the request, module Nodes the request itself. */
  datatype Cached<R> = Cached(response: R, peerId: Id, createdAt: Millis)

  type Entries<K, R> = map<K, Cached<R>>

  predicate Young<R>(c: Cached<R>, now: Millis) {
    Since(now, c.createdAt) < HANDSHAKE_CACHE_TTL
  }

  function Find<K(!new), R>(entries: Entries<K, R>, key: K, now: Millis): Option<Cached<R>> {
    if key in entries && Young(entries[key], now) then Some(entries[key]) else None
  }

  function Live<K(!new), R>(entries: Entries<K, R>, now: Millis): Entries<K, R> {
    map k | k in entries && Young(entries[k], now) :: entries[k]
  }

  ghost predicate IsOldest<K(!new), R>(entries: Entries<K, R>, key: K) {
    key in entries && forall k | k in entries :: entries[key].createdAt <= entries[k].createdAt
  }

  /** A full cache is rid of expired entries before an insertion. */
  function Cleaned<K(!new), R>(entries: Entries<K, R>, now: Millis): Entries<K, R> {
    if |entries| >= HANDSHAKE_CACHE_MAX_ENTRIES then Live(entries, now) else entries
  }

  /** The effect of an insertion; `victim` makes room if the cache is still full. */
  function Put<K(!new), R>(entries: Entries<K, R>, key: K, c: Cached<R>, victim: K): Entries<K, R> {
    var cleaned := Cleaned(entries, c.createdAt);
    (if |cleaned| >= HANDSHAKE_CACHE_MAX_ENTRIES then cleaned - {victim} else cleaned)[key := c]
  }

  /** Only a cache still full gives up an entry, and then an oldest one (any of them). */
  ghost predicate IsVictim<K(!new), R>(entries: Entries<K, R>, now: Millis, victim: K) {
    |Cleaned(entries, now)| >= HANDSHAKE_CACHE_MAX_ENTRIES ==> IsOldest(Cleaned(entries, now), victim)
  }

  ghost predicate Inserted<K(!new), R>(before: Entries<K, R>, key: K, c: Cached<R>, after: Entries<K, R>) {
    exists victim :: IsVictim(before, c.createdAt, victim) && after == Put(before, key, c, victim)
  }

  class HandshakeCache<K(==, !new), R> {
    var entries: Entries<K, R>

    ghost predicate Valid()
      reads this
    {
      |entries| <= HANDSHAKE_CACHE_MAX_ENTRIES
    }

    constructor ()
      ensures Valid() && entries == map[]
    {
      entries := map[];
    }

    method Get(key: K, now: Millis) returns (r: Option<Cached<R>>)
      ensures r == Find(entries, key, now)
    {
      r := None;
      if key in entries && Since(now, entries[key].createdAt) < HANDSHAKE_CACHE_TTL {
        r := Some(entries[key]);
      }
    }

    method Insert(key: K, response: R, peerId: Id, now: Millis)
      requires Valid()
      modifies this
      ensures Valid()
      ensures Inserted(old(entries), key, Cached(response, peerId, now), entries)
    {
      ghost var victim;
      entries, victim := PutEntry(entries, key, Cached(response, peerId, now));
      InsertIsBounded(old(entries), key, Cached(response, peerId, now), entries);
    }

    /** No lookup from now on is affected, and nothing expired is left. */
    method Cleanup(now: Millis)
      modifies this
      ensures forall key, later | now <= later :: Find(entries, key, later) == Find(old(entries), key, later)
      ensures forall key | key in entries :: Young(entries[key], now)
      ensures |entries| <= |old(entries)|
    {
      LiveIsSmaller(entries, now);
      entries := map k | k in entries && Since(now, entries[k].createdAt) < HANDSHAKE_CACHE_TTL :: entries[k];
      assert entries == Live(old(entries), now);
    }
  }

  method PutEntry<K(==, !new), R>(entries: Entries<K, R>, key: K, c: Cached<R>)
    returns (after: Entries<K, R>, ghost victim: K)
    ensures Inserted(entries, key, c, after)
    ensures IsVictim(entries, c.createdAt, victim) && after == Put(entries, key, c, victim)
  {
    after, victim := entries, key;
    if |after| >= HANDSHAKE_CACHE_MAX_ENTRIES {
      after := map k | k in after && Since(c.createdAt, after[k].createdAt) < HANDSHAKE_CACHE_TTL :: after[k];
      assert after == Live(entries, c.createdAt);
    }
    if |after| >= HANDSHAKE_CACHE_MAX_ENTRIES {
      var oldest := FindOldest(after);
      victim := oldest;
      after := after - {oldest};
    }
    after := after[key := c];
    assert IsVictim(entries, c.createdAt, victim) && after == Put(entries, key, c, victim);
  }

  method FindOldest<K(==, !new), R>(entries: Entries<K, R>) returns (oldest: K)
    requires |entries| > 0
    ensures IsOldest(entries, oldest)
  {
    var todo := entries.Keys;
    oldest :| oldest in todo;
    while todo != {}
      invariant todo <= entries.Keys && oldest in entries
      invariant forall k | k in entries && k !in todo :: entries[oldest].createdAt <= entries[k].createdAt
      decreases todo
    {
      var k :| k in todo;
      if entries[k].createdAt < entries[oldest].createdAt {
        oldest := k;
      }
      todo := todo - {k};
    }
  }

  ghost predicate Submap<K(!new), R>(small: Entries<K, R>, big: Entries<K, R>) {
    forall k | k in small :: k in big && small[k] == big[k]
  }

  lemma SubsetIsSmaller<K>(small: set<K>, big: set<K>)
    requires small <= big
    ensures |small| <= |big|
    ensures |small| == |big| ==> small == big
  {
    assert big == small + (big - small);
  }

  lemma LiveIsSmaller<K(!new), R>(entries: Entries<K, R>, now: Millis)
    ensures |Live(entries, now)| <= |entries|
  {
    SubsetIsSmaller(Live(entries, now).Keys, entries.Keys);
  }

  /** With room for one more, an insertion leaves every other young entry alone. */
  lemma PutKeepsYoung<K(!new), R>(entries: Entries<K, R>, key: K, c: Cached<R>, victim: K, other: K)
    requires |Live(entries, c.createdAt)| < HANDSHAKE_CACHE_MAX_ENTRIES && other != key
    ensures var after := Put(entries, key, c, victim);
            && (other !in entries ==> other !in after)
            && (other in entries && Young(entries[other], c.createdAt) ==>
                other in after && after[other] == entries[other])
  {}

  /** An entry is served for exactly 60 s. */
  lemma FoundExactlyWhileYoung<K(!new), R>(entries: Entries<K, R>, key: K, now: Millis)
    ensures Find(entries, key, now).Some? <==> key in entries && now < entries[key].createdAt + 60_000
    ensures Find(entries, key, now).Some? ==> Find(entries, key, now).value == entries[key]
  {}

  /** A young entry that had to make room is no newer than any that stayed. */
  lemma EvictedIsOldest<K(!new), R>(before: Entries<K, R>, key: K, c: Cached<R>, after: Entries<K, R>, gone: K, kept: K)
    requires Inserted(before, key, c, after)
    requires gone in before && gone !in after && Young(before[gone], c.createdAt) && kept in after && kept != key
    ensures kept in before && after[kept] == before[kept] && before[gone].createdAt <= before[kept].createdAt
  {}

  // ------------------------------------------------ runs

  /** A handshake_1 with this digest arrives (`response` is what processing it afresh
      would answer), or the periodic cleanup runs. */
  datatype Step<K, R> = Asked(digest: K, response: R, peerId: Id, now: Millis) | Sweep(now: Millis)

  /** One step of the daemon's cache: only a request that misses is inserted. */
  ghost predicate Next<K(!new), R>(before: Entries<K, R>, step: Step<K, R>, after: Entries<K, R>) {
    match step
    case Sweep(now) => after == Live(before, now)
    case Asked(digest, response, peerId, now) =>
      if Find(before, digest, now).Some? then after == before
      else Inserted(before, digest, Cached(response, peerId, now), after)
  }

  /** The unbounded memory forgets nothing. */
  ghost function Remember<K(!new), R>(all: Entries<K, R>, step: Step<K, R>): Entries<K, R> {
    match step
    case Sweep(_) => all
    case Asked(digest, response, peerId, now) =>
      if Find(all, digest, now).Some? then all else all[digest := Cached(response, peerId, now)]
  }

  ghost function Memory<K(!new), R>(steps: seq<Step<K, R>>): Entries<K, R> {
    if steps == [] then map[] else Remember(Memory(steps[..|steps| - 1]), steps[|steps| - 1])
  }

  /** `states[i]` is the cache after the first i steps. */
  ghost predicate IsRun<K(!new), R>(states: seq<Entries<K, R>>, steps: seq<Step<K, R>>) {
    && |states| == |steps| + 1 && states[0] == map[]
    && (forall i | 0 <= i < |steps| :: Next(states[i], steps[i], states[i + 1]))
    && (forall i, j | 0 <= i < j < |steps| :: steps[i].now <= steps[j].now)
  }

  ghost predicate Agree<K(!new), R>(entries: Entries<K, R>, all: Entries<K, R>, now: Millis) {
    forall k :: Find(entries, k, now) == Find(all, k, now)
  }

  /** Distinct digests answered in the last 60 s never exceed the capacity. */
  ghost predicate Roomy<K(!new), R>(steps: seq<Step<K, R>>) {
    forall i | 0 <= i < |steps| :: RoomAt(steps, i)
  }

  ghost predicate RoomAt<K(!new), R>(steps: seq<Step<K, R>>, i: nat)
    requires i < |steps|
  {
    |Live(Memory(steps[..i + 1]), steps[i].now)| <= HANDSHAKE_CACHE_MAX_ENTRIES
  }

  /** After step i the cache answers every digest as the memory would. */
  ghost predicate AgreesAfter<K(!new), R>(states: seq<Entries<K, R>>, steps: seq<Step<K, R>>, i: nat)
    requires |states| == |steps| + 1 && i < |steps|
  {
    Agree(states[i + 1], Memory(steps[..i + 1]), steps[i].now)
  }

  lemma InsertIsBounded<K(!new), R>(before: Entries<K, R>, key: K, c: Cached<R>, after: Entries<K, R>)
    requires Inserted(before, key, c, after) && |before| <= HANDSHAKE_CACHE_MAX_ENTRIES
    ensures |after| <= HANDSHAKE_CACHE_MAX_ENTRIES
  {
    LiveIsSmaller(before, c.createdAt);
  }

  /** The cache never holds more than 256 entries, in any run. */
  lemma {:induction false} AlwaysBounded<K(!new), R>(states: seq<Entries<K, R>>, steps: seq<Step<K, R>>, i: nat)
    requires IsRun(states, steps) && i < |states|
    ensures |states[i]| <= HANDSHAKE_CACHE_MAX_ENTRIES
  {
    if i > 0 {
      AlwaysBounded(states, steps, i - 1);
      assert Next(states[i - 1], steps[i - 1], states[i]);
      match steps[i - 1]
      case Sweep(now) => LiveIsSmaller(states[i - 1], now);
      case Asked(digest, response, peerId, now) =>
        if Find(states[i - 1], digest, now).None? {
          InsertIsBounded(states[i - 1], digest, Cached(response, peerId, now), states[i]);
        }
    }
  }

  /** Entries<K, R> are remembered ones, and every remembered one still young at `now` is here. */
  ghost predicate Faithful<K(!new), R>(entries: Entries<K, R>, all: Entries<K, R>, now: Millis) {
    && Submap(entries, all)
    && forall k | k in all && Young(all[k], now) :: k in entries
  }

  lemma FaithfulLater<K(!new), R>(entries: Entries<K, R>, all: Entries<K, R>, now: Millis, later: Millis)
    requires Faithful(entries, all, now) && now <= later
    ensures Faithful(entries, all, later)
  {}

  lemma InsertIsFaithful<K(!new), R>(before: Entries<K, R>, all: Entries<K, R>, key: K, c: Cached<R>,
                                     after: Entries<K, R>)
    requires Faithful(before, all, c.createdAt) && |before| <= HANDSHAKE_CACHE_MAX_ENTRIES
    requires Find(before, key, c.createdAt).None? && Inserted(before, key, c, after)
    requires |Live(all[key := c], c.createdAt)| <= HANDSHAKE_CACHE_MAX_ENTRIES
    ensures Faithful(after, all[key := c], c.createdAt)
  {
    var now := c.createdAt;
    var cleaned := Cleaned(before, now);
    if |before| >= HANDSHAKE_CACHE_MAX_ENTRIES {
      RoomForOne(cleaned, all, key, c);
    }
  }

  /** Young entries plus a new one fit the window, so the cache is not full of them. */
  lemma RoomForOne<K(!new), R>(young: Entries<K, R>, all: Entries<K, R>, key: K, c: Cached<R>)
    requires Submap(young, all) && key !in young
    requires forall k | k in young :: Young(young[k], c.createdAt)
    requires |Live(all[key := c], c.createdAt)| <= HANDSHAKE_CACHE_MAX_ENTRIES
    ensures |young| < HANDSHAKE_CACHE_MAX_ENTRIES
  {
    SubsetIsSmaller(young.Keys + {key}, Live(all[key := c], c.createdAt).Keys);
    assert |young.Keys + {key}| == |young| + 1;
  }

  lemma StepIsFaithful<K(!new), R>(before: Entries<K, R>, all: Entries<K, R>, step: Step<K, R>, after: Entries<K, R>)
    requires Faithful(before, all, step.now) && |before| <= HANDSHAKE_CACHE_MAX_ENTRIES && Next(before, step, after)
    requires |Live(Remember(all, step), step.now)| <= HANDSHAKE_CACHE_MAX_ENTRIES
    ensures Faithful(after, Remember(all, step), step.now)
  {
    if step.Asked? && Find(before, step.digest, step.now).None? {
      InsertIsFaithful(before, all, step.digest, Cached(step.response, step.peerId, step.now), after);
    }
  }

  lemma {:induction false} RunIsFaithful<K(!new), R>(states: seq<Entries<K, R>>, steps: seq<Step<K, R>>, i: nat)
    requires IsRun(states, steps) && Roomy(steps) && i < |steps|
    ensures Faithful(states[i], Memory(steps[..i]), steps[i].now)
    ensures Faithful(states[i + 1], Memory(steps[..i + 1]), steps[i].now)
    decreases i
  {
    if i > 0 {
      RunIsFaithful(states, steps, i - 1);
      assert steps[..i - 1 + 1] == steps[..i];
      FaithfulLater(states[i], Memory(steps[..i]), steps[i - 1].now, steps[i].now);
    } else {
      assert steps[..0] == [];
    }
    AlwaysBounded(states, steps, i);
    assert steps[..i + 1][..i] == steps[..i];
    assert RoomAt(steps, i);
    StepIsFaithful(states[i], Memory(steps[..i]), steps[i], states[i + 1]);
  }

  lemma FaithfulAgrees<K(!new), R>(entries: Entries<K, R>, all: Entries<K, R>, now: Millis)
    requires Faithful(entries, all, now)
    ensures Agree(entries, all, now)
  {}

  lemma AgreementNeedsRoom<K(!new), R>(entries: Entries<K, R>, all: Entries<K, R>, now: Millis)
    requires Agree(entries, all, now) && |entries| <= HANDSHAKE_CACHE_MAX_ENTRIES
    ensures |Live(all, now)| <= HANDSHAKE_CACHE_MAX_ENTRIES
  {
    forall k | k in Live(all, now)
      ensures k in entries
    {
      assert Find(entries, k, now) == Find(all, k, now);
    }
    SubsetIsSmaller(Live(all, now).Keys, entries.Keys);
  }

  /** In every run, the bounded cache answers as the unbounded memory would after every
      step, exactly when no 60 s window holds more than 256 distinct digests. */
  lemma CacheAgreesExactlyWhenRoomy<K(!new), R>(states: seq<Entries<K, R>>, steps: seq<Step<K, R>>)
    requires IsRun(states, steps)
    ensures Roomy(steps) <==> forall i | 0 <= i < |steps| :: AgreesAfter(states, steps, i)
  {
    if Roomy(steps) {
      forall i | 0 <= i < |steps|
        ensures AgreesAfter(states, steps, i)
      {
        RunIsFaithful(states, steps, i);
        FaithfulAgrees(states[i + 1], Memory(steps[..i + 1]), steps[i].now);
      }
    }
    forall i | 0 <= i < |steps| && AgreesAfter(states, steps, i)
      ensures RoomAt(steps, i)
    {
      AlwaysBounded(states, steps, i + 1);
      AgreementNeedsRoom(states[i + 1], Memory(steps[..i + 1]), steps[i].now);
    }
  }

  /** What the daemon sends back: the cached response, or the freshly computed one. */
  ghost function AnswerTo<K(!new), R>(entries: Entries<K, R>, step: Step<K, R>): R
    requires step.Asked?
  {
    match Find(entries, step.digest, step.now)
    case Some(c) => c.response
    case None => step.response
  }

  lemma {:induction false} MemoryKeeps<K(!new), R>(steps: seq<Step<K, R>>, i: nat, j: nat, c: Cached<R>)
    requires i < j < |steps| && steps[i].Asked?
    requires forall a, b | 0 <= a < b < |steps| :: steps[a].now <= steps[b].now
    requires steps[i].digest in Memory(steps[..i + 1]) && Memory(steps[..i + 1])[steps[i].digest] == c
    requires Young(c, steps[j].now)
    ensures steps[i].digest in Memory(steps[..j]) && Memory(steps[..j])[steps[i].digest] == c
    decreases j
  {
    if i + 1 < j {
      MemoryKeeps(steps, i, j - 1, c);
      assert steps[..j][..j - 1] == steps[..j - 1];
    }
  }

  /** A repeated handshake_1 gets the byte-identical reply and creates no second
      session, as long as the first reply is less than 60 s old. */
  lemma RepeatGetsTheSameReply<K(!new), R>(states: seq<Entries<K, R>>, steps: seq<Step<K, R>>, i: nat, j: nat)
    requires IsRun(states, steps) && Roomy(steps) && i < j < |steps|
    requires steps[i].Asked? && steps[j].Asked? && steps[i].digest == steps[j].digest
    requires Find(states[i], steps[i].digest, steps[i].now).None?
    requires steps[j].now < steps[i].now + HANDSHAKE_CACHE_TTL
    ensures AnswerTo(states[j], steps[j]) == AnswerTo(states[i], steps[i]) == steps[i].response
    ensures states[j + 1] == states[j]
  {
    var c := Cached(steps[i].response, steps[i].peerId, steps[i].now);
    RunIsFaithful(states, steps, i);
    assert steps[..i + 1][..i] == steps[..i];
    assert Find(Memory(steps[..i]), steps[i].digest, steps[i].now).None?;
    MemoryKeeps(steps, i, j, c);
    RunIsFaithful(states, steps, j);
    assert Next(states[j], steps[j], states[j + 1]);
  }

  /** An entry comes from an earlier request with its digest, and from its time. */
  ghost predicate Traced<K(!new), R>(steps: seq<Step<K, R>>, j: nat, digest: K, c: Cached<R>) {
    exists i | 0 <= i < j && i < |steps| ::
      steps[i].Asked? && steps[i].digest == digest && c == Cached(steps[i].response, steps[i].peerId, steps[i].now)
  }

  lemma {:induction false} EntriesAreTraced<K(!new), R>(states: seq<Entries<K, R>>, steps: seq<Step<K, R>>, j: nat,
                                                        key: K)
    requires IsRun(states, steps) && j < |states| && key in states[j]
    ensures Traced(steps, j, key, states[j][key])
  {
    var n := j - 1;
    assert j > 0;
    assert Next(states[n], steps[n], states[j]);
    if key in states[n] && states[j][key] == states[n][key] {
      EntriesAreTraced(states, steps, n, key);
    } else {
      assert steps[n].Asked? && steps[n].digest == key;
    }
  }

  /** In any run, roomy or not, a reply served from the cache is the one computed for the
      same request less than 60 s before. */
  lemma CachedReplyIsRecent<K(!new), R>(states: seq<Entries<K, R>>, steps: seq<Step<K, R>>, j: nat)
    requires IsRun(states, steps) && j < |steps| && steps[j].Asked?
    requires Find(states[j], steps[j].digest, steps[j].now).Some?
    ensures exists i | 0 <= i < j ::
              && steps[i].Asked? && steps[i].digest == steps[j].digest
              && AnswerTo(states[j], steps[j]) == steps[i].response && steps[j].now < steps[i].now + 60_000
  {
    EntriesAreTraced(states, steps, j, steps[j].digest);
  }
}
