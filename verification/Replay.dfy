/** The 64-bit sliding replay window of a session, and the sender and receiver
    ends of one session composed over a network that duplicates, delays,
    reorders and loses packets.

    The bitmap is a 64-bit word with the shift, or and mask of module Bits;
    reserving a sequence number wraps at 2^64 as the daemon's counter does. */
module Replay {

  import opened Bits

  const REPLAY_WINDOW_BITS: nat := 64

  /** The reference: remember every number ever accepted. A number is admissible
      when it is new and no accepted number is 64 or more ahead of it. */
  ghost predicate Admissible(accepted: set<u64>, number: u64) {
    && number !in accepted
    && forall a | a in accepted :: a < number || a - number < REPLAY_WINDOW_BITS
  }

  /** The same decision told from the highest number alone. */
  lemma AdmissibleCases(accepted: set<u64>, highest: u64, number: u64)
    requires highest in accepted && forall a | a in accepted :: a <= highest
    ensures Admissible(accepted, number) <==>
            highest < number || (number !in accepted && highest - number < REPLAY_WINDOW_BITS)
  {}

  /** Digit k of the bitmap tells whether the number k behind `highest` was accepted. */
  ghost predicate Describes(seen: nat, highest: u64, accepted: set<u64>) {
    forall k: nat | k < 64 && k <= highest :: Bit(seen, k) <==> highest - k in accepted
  }

  class ReplayWindow {
    var initialized: bool
    var highest: u64
    var seen: nat
    ghost var accepted: set<u64>

    ghost predicate Valid()
      reads this
    {
      && (initialized <==> accepted != {})
      && (initialized ==>
            && highest in accepted
            && (forall a | a in accepted :: a <= highest)
            && Describes(seen, highest, accepted))
    }

    constructor ()
      ensures Valid() && accepted == {}
    {
      initialized, highest, seen := false, 0, 0;
      accepted := {};
    }

    method Accept(number: u64) returns (ok: bool)
      requires Valid()
      modifies this
      ensures Valid()
      ensures ok <==> Admissible(old(accepted), number)
      ensures accepted == old(accepted) + (if ok then {number} else {})
    {
      if !initialized {
        initialized, highest, seen := true, number, 1;
        accepted := {number};
        OneDescribesItself(number, {number});
        return true;
      }
      AdmissibleCases(accepted, highest, number);

      if number > highest {
        var shift := number - highest;
        AdvanceKeepsHistory(accepted, highest, seen, number);
        seen := if shift >= REPLAY_WINDOW_BITS then 1 else Or(Shl64(seen, shift), 1);
        highest := number;
        accepted := accepted + {number};
        return true;
      }

      var behind := highest - number;
      if behind >= REPLAY_WINDOW_BITS {
        return false;
      }
      var bit := Shl64(1, behind);
      SingleBit(behind);
      MaskTestsBit(seen, behind);
      if And(seen, bit) != 0 {
        return false;
      }
      MarkKeepsHistory(accepted, highest, seen, number);
      seen := Or(seen, bit);
      accepted := accepted + {number};
      return true;
    }
  }

  lemma SingleBit(behind: nat)
    requires behind < 64
    ensures Shl64(1, behind) == Pow2(behind)
  {
    LowOfPow2(behind, WORD_BITS);
  }

  lemma OneDescribesItself(number: u64, accepted: set<u64>)
    requires number in accepted && forall a | a in accepted :: a == number || a + 64 <= number
    ensures Describes(1, number, accepted)
  {
    forall k: nat | k < 64 && k <= number
      ensures Bit(1, k) <==> number - k in accepted
    {
      Pow2Bit(0, k);
    }
  }

  /** Moving the window forward loses no digit that still matters. */
  lemma AdvanceKeepsHistory(accepted: set<u64>, highest: u64, seen: nat, number: u64)
    requires highest in accepted && highest < number
    requires forall a | a in accepted :: a <= highest
    requires Describes(seen, highest, accepted)
    ensures var shift := number - highest;
            Describes(if shift >= REPLAY_WINDOW_BITS then 1 else Or(Shl64(seen, shift), 1),
                      number, accepted + {number})
  {
    var shift := number - highest;
    if shift >= REPLAY_WINDOW_BITS {
      OneDescribesItself(number, accepted + {number});
    } else {
      forall k: nat | k < 64 && k <= number
        ensures Bit(Or(Shl64(seen, shift), 1), k) <==> number - k in accepted + {number}
      {
        OrBit(Shl64(seen, shift), 1, k);
        Pow2Bit(0, k);
        Shl64Bit(seen, shift, k);
        if shift <= k {
          assert number - k == highest - (k - shift);
        }
      }
    }
  }

  lemma MarkKeepsHistory(accepted: set<u64>, highest: u64, seen: nat, number: u64)
    requires number <= highest && highest - number < 64
    requires Describes(seen, highest, accepted)
    ensures Describes(Or(seen, Shl64(1, highest - number)), highest, accepted + {number})
  {
    var behind := highest - number;
    SingleBit(behind);
    forall k: nat | k < 64 && k <= highest
      ensures Bit(Or(seen, Pow2(behind)), k) <==> highest - k in accepted + {number}
    {
      OrBit(seen, Pow2(behind), k);
      Pow2Bit(behind, k);
    }
  }

  /** What the reference has accepted after a sequence of calls. */
  ghost function AcceptedBy(calls: seq<u64>): (accepted: set<u64>)
    ensures forall a | a in accepted :: a in calls
  {
    if calls == [] then {} else
      var before := AcceptedBy(calls[..|calls| - 1]);
      var last := calls[|calls| - 1];
      if Admissible(before, last) then before + {last} else before
  }

  ghost predicate AcceptsCall(calls: seq<u64>, i: nat)
    requires i < |calls|
  {
    Admissible(AcceptedBy(calls[..i]), calls[i])
  }

  lemma AcceptedNext(calls: seq<u64>, i: nat)
    requires i < |calls|
    ensures AcceptedBy(calls[..i + 1]) == AcceptedBy(calls[..i]) + (if AcceptsCall(calls, i) then {calls[i]} else {})
  {
    assert calls[..i + 1][..i] == calls[..i];
  }

  /** These decisions are the ones the full history calls for. */
  ghost predicate Decided(calls: seq<u64>, decisions: seq<bool>) {
    |decisions| <= |calls| && forall i | 0 <= i < |decisions| :: decisions[i] <==> AcceptsCall(calls, i)
  }

  lemma DecidedNext(calls: seq<u64>, decisions: seq<bool>, ok: bool)
    requires Decided(calls, decisions) && |decisions| < |calls| && (ok <==> AcceptsCall(calls, |decisions|))
    ensures Decided(calls, decisions + [ok])
  {}

  /** Every call sequence: the bitmap decides each call as the full history would. */
  method RunWindow(calls: seq<u64>) returns (decisions: seq<bool>)
    ensures |decisions| == |calls| && Decided(calls, decisions)
  {
    var window := new ReplayWindow();
    decisions := [];
    for i := 0 to |calls|
      invariant window.Valid() && fresh(window)
      invariant window.accepted == AcceptedBy(calls[..i])
      invariant |decisions| == i && Decided(calls, decisions)
    {
      AcceptedNext(calls, i);
      var ok := window.Accept(calls[i]);
      DecidedNext(calls, decisions, ok);
      decisions := decisions + [ok];
    }
  }

  lemma {:induction false} AcceptedGrows(calls: seq<u64>, i: nat, j: nat)
    requires i <= j <= |calls|
    ensures AcceptedBy(calls[..i]) <= AcceptedBy(calls[..j])
    decreases j
  {
    if i < j {
      AcceptedGrows(calls, i, j - 1);
      assert calls[..j][..j - 1] == calls[..j - 1];
    }
  }

  /** No number is accepted twice, and an accepted one stays remembered. */
  lemma {:induction false} NeverAcceptedTwice(calls: seq<u64>, i: nat, j: nat)
    requires i < j < |calls| && calls[i] == calls[j]
    requires AcceptsCall(calls, i)
    ensures !AcceptsCall(calls, j)
  {
    assert calls[..i + 1][..i] == calls[..i];
    AcceptedGrows(calls, i + 1, j);
  }

  // ------------------------------------------------ sender and receiver composed

  /** One direction of a session. `sent[i]` is the number on the i-th packet;
      `processed` lists the packets whose body reached its handler. */
  datatype Link = Link(txSeq: u64, sent: seq<u64>, accepted: set<u64>, processed: seq<nat>)

  /** `Reserve`: some sending thread takes the next number. `Deliver(i)`: the
      network hands over (a copy of) packet i. */
  datatype Event = Reserve | Deliver(packet: nat)

  /** `tx_seq.wrapping_add(1)`. */
  function NextSeq(txSeq: u64): u64 {
    if txSeq == MAX_SEQ then 0 else txSeq + 1
  }

  const EMPTY_LINK := Link(0, [], {}, [])
  const MAX_SEQ: u64 := U64_RANGE - 1

  ghost function LinkStep(l: Link, e: Event): Link {
    match e
    case Reserve =>
      var next := NextSeq(l.txSeq);
      l.(txSeq := next, sent := l.sent + [next])
    case Deliver(i) =>
      if i < |l.sent| && Admissible(l.accepted, l.sent[i]) then
        l.(accepted := l.accepted + {l.sent[i]}, processed := l.processed + [i])
      else l
  }

  ghost function LinkRun(events: seq<Event>): Link {
    if events == [] then EMPTY_LINK
    else LinkStep(LinkRun(events[..|events| - 1]), events[|events| - 1])
  }

  /** Fewer than 2^64 numbers were handed out: the counter never wraps. */
  ghost predicate NeverWraps(events: seq<Event>) {
    forall i | 0 <= i < |events| && events[i] == Reserve :: LinkRun(events[..i]).txSeq != MAX_SEQ
  }

  ghost predicate Distinct<T>(s: seq<T>) {
    forall i, j | 0 <= i < j < |s| :: s[i] != s[j]
  }

  ghost predicate LinkInvariant(l: Link) {
    && l.txSeq == |l.sent| && (forall i | 0 <= i < |l.sent| :: l.sent[i] == i + 1)
    && Distinct(l.processed)
    && (forall p | p in l.processed :: p < |l.sent|)
    && (forall a | a in l.accepted :: a in l.sent)
    && (forall i | 0 <= i < |l.sent| :: l.sent[i] in l.accepted <==> i in l.processed)
  }

  /** Numbers are handed out one by one from 1, and no packet's body is processed twice, in
      every interleaving of senders and deliveries. */
  lemma {:induction false} ProcessedAtMostOnce(events: seq<Event>)
    requires NeverWraps(events)
    ensures LinkInvariant(LinkRun(events))
  {
    if events != [] {
      var n := |events| - 1;
      var prefix, e := events[..n], events[n];
      forall i | 0 <= i < |prefix| && prefix[i] == Reserve
        ensures LinkRun(prefix[..i]).txSeq != MAX_SEQ
      {
        assert prefix[..i] == events[..i] && events[i] == Reserve;
      }
      ProcessedAtMostOnce(prefix);
      var l := LinkRun(prefix);
      match e
      case Reserve =>
        ReserveKeepsInvariant(l);
      case Deliver(i) =>
        DeliverKeepsInvariant(l, i);
    }
  }

  lemma ReserveKeepsInvariant(l: Link)
    requires LinkInvariant(l) && l.txSeq != MAX_SEQ
    ensures LinkInvariant(LinkStep(l, Reserve))
  {
    var l' := LinkStep(l, Reserve);
    assert forall i | 0 <= i < |l.sent| :: l'.sent[i] == l.sent[i];
    assert l'.sent[|l.sent|] !in l.accepted;
  }

  lemma DeliverKeepsInvariant(l: Link, i: nat)
    requires LinkInvariant(l)
    ensures LinkInvariant(LinkStep(l, Deliver(i)))
  {
    var l' := LinkStep(l, Deliver(i));
    if l' != l {
      assert l'.processed[|l.processed|] == i;
      assert i !in l.processed;
      assert forall p | p in l'.processed :: p == i || p in l.processed;
    }
  }

  ghost function Count(s: seq<nat>, x: nat): nat {
    multiset(s)[x]
  }

  lemma {:induction false} DistinctCount(s: seq<nat>, x: nat)
    requires Distinct(s)
    ensures Count(s, x) == if x in s then 1 else 0
  {
    if s != [] {
      var n := |s| - 1;
      DistinctCount(s[..n], x);
      assert s == s[..n] + [s[n]];
    }
  }

  /** A packet that arrives while it is less than 64 behind everything processed
      so far has, from then on, been processed exactly once. */
  lemma DeliveredInWindowIsProcessedOnce(events: seq<Event>, i: nat)
    requires NeverWraps(events + [Deliver(i)])
    requires var l := LinkRun(events);
             && i < |l.sent|
             && forall p | p in l.processed && p < |l.sent| ::
                  l.sent[p] < l.sent[i] || l.sent[p] - l.sent[i] < REPLAY_WINDOW_BITS
    ensures Count(LinkRun(events + [Deliver(i)]).processed, i) == 1
  {
    var all := events + [Deliver(i)];
    var l := LinkRun(events);
    assert all[..|all| - 1] == events;
    ProcessedAtMostOnce(all);
    assert NeverWraps(events) by {
      forall k | 0 <= k < |events| && events[k] == Reserve
        ensures LinkRun(events[..k]).txSeq != MAX_SEQ
      {
        assert all[..k] == events[..k] && all[k] == Reserve;
      }
    }
    ProcessedAtMostOnce(events);
    var l' := LinkRun(all);
    if l.sent[i] !in l.accepted {
      forall a | a in l.accepted
        ensures a < l.sent[i] || a - l.sent[i] < REPLAY_WINDOW_BITS
      {
        var p :| 0 <= p < |l.sent| && l.sent[p] == a;
        assert p in l.processed;
      }
      assert l'.processed[|l.processed|] == i;
    }
    DistinctCount(l'.processed, i);
  }
}
