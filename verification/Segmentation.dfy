/** Reassembly of segmented messages (section 5.2 of ASHRAE 135-2020): whatever the order and the repeats
    of delivery, what comes out is what was split. */
module Segmentation {
  import opened Machine
  import opened Buffers

  datatype Received = Received(segments: map<U8, Bytes>, totalExpected: Option<nat>)

  /** The first `n` segments one after another; missing ones are skipped. */
  function Join(segments: map<U8, Bytes>, n: U8): Bytes {
    if n == 0 then [] else Join(segments, n - 1) + if n - 1 in segments then segments[n - 1] else []
  }

  /** One more segment: the new state and the answer to the caller. The total passes through one byte. */
  function Add(s: Received, number: U8, moreFollows: bool, data: Bytes): (Received, Option<Bytes>) {
    var segments, total := s.segments[number := data], if moreFollows then s.totalExpected else Some(number + 1);
    (Received(segments, total),
     if total.Some? && |segments| == total.value then Some(Join(segments, Truncate8(total.value))) else None)
  }

  class SegmentBuffer {
    const invokeId: U8
    const windowSize: U8
    var segments: map<U8, Bytes>
    var totalExpected: Option<nat>

    ghost function State(): Received
      reads this
    {
      Received(segments, totalExpected)
    }

    constructor (invokeId: U8, windowSize: U8)
      ensures State() == Received(map[], None)
    {
      this.invokeId := invokeId;
      this.windowSize := windowSize;
      segments := map[];
      totalExpected := None;
    }

    method AddSegment(number: U8, moreFollows: bool, data: Bytes) returns (r: Option<Bytes>)
      modifies this
      ensures (State(), r) == Add(old(State()), number, moreFollows, data)
    {
      segments := segments[number := data];
      if !moreFollows {
        totalExpected := Some(number + 1);
      }
      if totalExpected.Some? && |segments| == totalExpected.value {
        var whole := Reassemble(totalExpected.value);
        return Some(whole);
      }
      return None;
    }

    method Reassemble(total: nat) returns (r: Bytes)
      ensures r == Join(segments, Truncate8(total))
    {
      var buf := new BytesMut();
      for i := 0 to Truncate8(total)
        invariant buf.data == Join(segments, i)
      {
        if i in segments {
          buf.ExtendFromSlice(segments[i]);
        }
      }
      r := buf.data;
    }
  }

  // ---- Deliveries ------------------------------------------------------------------------

  /** The parts of a message in order; part `i` travels with number `i` modulo 256, and only the last one
      says that no more follow. */
  function Concat(parts: seq<Bytes>): Bytes {
    if parts == [] then [] else Concat(parts[..|parts| - 1]) + parts[|parts| - 1]
  }

  /** Which parts are delivered, in order of arrival. */
  predicate Delivery(parts: seq<Bytes>, arrivals: seq<nat>) {
    forall k :: 0 <= k < |arrivals| ==> arrivals[k] < |parts|
  }

  function Deliver(parts: seq<Bytes>, s: Received, i: nat): (Received, Option<Bytes>)
    requires i < |parts|
  {
    Add(s, Truncate8(i), i < |parts| - 1, parts[i])
  }

  function After(parts: seq<Bytes>, arrivals: seq<nat>): Received
    requires Delivery(parts, arrivals)
  {
    if arrivals == [] then Received(map[], None)
    else Deliver(parts, After(parts, arrivals[..|arrivals| - 1]), arrivals[|arrivals| - 1]).0
  }

  /** What the caller is told at the last arrival. */
  function Answer(parts: seq<Bytes>, arrivals: seq<nat>): Option<Bytes>
    requires Delivery(parts, arrivals) && arrivals != []
  {
    Deliver(parts, After(parts, arrivals[..|arrivals| - 1]), arrivals[|arrivals| - 1]).1
  }

  predicate AllArrived(parts: seq<Bytes>, arrivals: seq<nat>) {
    forall i :: 0 <= i < |parts| ==> i in arrivals
  }

  /** What the caller should be told: the message, as soon as every part arrived at least once. */
  function Wanted(parts: seq<Bytes>, arrivals: seq<nat>): Option<Bytes> {
    if AllArrived(parts, arrivals) then Some(Concat(parts)) else None
  }

  // ---- Any arrivals ----------------------------------------------------------------------------

  /** Segments as they come in, from whatever sender. */
  datatype Arrival = Arrival(number: U8, moreFollows: bool, data: Bytes)

  function AfterArrivals(arrivals: seq<Arrival>): Received
    decreases |arrivals|
  {
    if arrivals == [] then Received(map[], None)
    else
      var last := arrivals[|arrivals| - 1];
      Add(AfterArrivals(arrivals[..|arrivals| - 1]), last.number, last.moreFollows, last.data).0
  }

  /** The latest arrival under this number. */
  predicate LatestUnder(arrivals: seq<Arrival>, number: U8, i: nat) {
    i < |arrivals| && arrivals[i].number == number && forall j :: i < j < |arrivals| ==> arrivals[j].number != number
  }

  /** The latest arrival that says it is the end. */
  predicate LatestEnd(arrivals: seq<Arrival>, i: nat) {
    i < |arrivals| && !arrivals[i].moreFollows && forall j :: i < j < |arrivals| ==> arrivals[j].moreFollows
  }

  lemma {:induction false} KeptUnder(arrivals: seq<Arrival>, k: U8)
    ensures var s := AfterArrivals(arrivals);
      (k in s.segments <==> exists i: nat :: LatestUnder(arrivals, k, i))
      && (forall i: nat :: LatestUnder(arrivals, k, i) ==> k in s.segments && s.segments[k] == arrivals[i].data)
    decreases |arrivals|
  {
    hide Join, Truncate8, LatestUnder;
    if arrivals == [] {
      NoneYet(k);
    } else {
      var n := |arrivals| - 1;
      KeptUnder(arrivals[..n], k);
      forall i: nat ensures LatestUnder(arrivals, k, i) <==>
        if k == arrivals[n].number then i == n else LatestUnder(arrivals[..n], k, i)
      {
        LatestUnderAppend(arrivals, k, i);
      }
      LatestInside(arrivals[..n]);
      if k == arrivals[n].number {
        assert LatestUnder(arrivals, k, n);
      } else if i: nat :| LatestUnder(arrivals[..n], k, i) {
        assert LatestUnder(arrivals, k, i);
      }
    }
  }

  lemma NoneYet(k: U8)
    ensures forall i: nat :: !LatestUnder([], k, i) && !LatestEnd([], i)
  {
  }

  lemma LatestInside(arrivals: seq<Arrival>)
    ensures forall k: U8, i: nat :: LatestUnder(arrivals, k, i) ==> i < |arrivals|
    ensures forall i: nat :: LatestEnd(arrivals, i) ==> i < |arrivals|
  {
  }

  lemma {:induction false} EndKept(arrivals: seq<Arrival>)
    ensures var s := AfterArrivals(arrivals);
      (s.totalExpected.Some? <==> exists i: nat :: LatestEnd(arrivals, i))
      && (forall i: nat :: LatestEnd(arrivals, i) ==> s.totalExpected == Some(arrivals[i].number + 1))
    decreases |arrivals|
  {
    hide Join, Truncate8, LatestEnd;
    if arrivals == [] {
      NoneYet(0);
    } else {
      var n := |arrivals| - 1;
      EndKept(arrivals[..n]);
      forall i: nat
        ensures LatestEnd(arrivals, i) <==> if !arrivals[n].moreFollows then i == n else LatestEnd(arrivals[..n], i)
      {
        LatestEndAppend(arrivals, i);
      }
      LatestInside(arrivals[..n]);
      if !arrivals[n].moreFollows {
        assert LatestEnd(arrivals, n);
      } else if i: nat :| LatestEnd(arrivals[..n], i) {
        assert LatestEnd(arrivals, i);
      }
    }
  }

  /** For arrivals of any kind: under each number stands the data that came last, and the total is that of the last
      segment that ended a message. */
  lemma LatestIsKept(arrivals: seq<Arrival>)
    ensures var s := AfterArrivals(arrivals);
      (forall k: U8 :: k in s.segments <==> exists i: nat :: LatestUnder(arrivals, k, i))
      && (forall k: U8, i: nat :: LatestUnder(arrivals, k, i) ==> k in s.segments && s.segments[k] == arrivals[i].data)
      && (s.totalExpected.Some? <==> exists i: nat :: LatestEnd(arrivals, i))
      && (forall i: nat :: LatestEnd(arrivals, i) ==> s.totalExpected == Some(arrivals[i].number + 1))
  {
    hide AfterArrivals, LatestUnder, LatestEnd;
    var s := AfterArrivals(arrivals);
    LatestInside(arrivals);
    EndKept(arrivals);
    forall k: U8
      ensures k in s.segments <==> exists i: nat :: LatestUnder(arrivals, k, i)
      ensures forall i: nat :: LatestUnder(arrivals, k, i) ==> k in s.segments && s.segments[k] == arrivals[i].data
    {
      KeptUnder(arrivals, k);
    }
  }

  /** And the answer to the next segment: the segments numbered below the total, in order, as soon as there are as many
      segments as the total says; the total counts modulo 256 here. */
  lemma NextAnswer(arrivals: seq<Arrival>, a: Arrival)
    ensures var s := AfterArrivals(arrivals + [a]);
      Add(AfterArrivals(arrivals), a.number, a.moreFollows, a.data).1 ==
        if s.totalExpected.Some? && |s.segments| == s.totalExpected.value
        then Some(Join(s.segments, s.totalExpected.value % 0x100)) else None
  {
    hide Join;
    assert (arrivals + [a])[..|arrivals|] == arrivals;
  }

  lemma LatestUnderAppend(arrivals: seq<Arrival>, k: U8, i: nat)
    requires arrivals != []
    ensures var n := |arrivals| - 1;
      LatestUnder(arrivals, k, i) <==> if k == arrivals[n].number then i == n else LatestUnder(arrivals[..n], k, i)
  {
    var n := |arrivals| - 1;
    if k != arrivals[n].number && LatestUnder(arrivals[..n], k, i) {
      forall j | i < j < |arrivals| ensures arrivals[j].number != k {
        assert j < n ==> arrivals[..n][j] == arrivals[j];
      }
    }
    if LatestUnder(arrivals, k, i) && i < n {
      forall j | i < j < n ensures arrivals[..n][j].number != k {
        assert arrivals[..n][j] == arrivals[j];
      }
    }
  }

  lemma LatestEndAppend(arrivals: seq<Arrival>, i: nat)
    requires arrivals != []
    ensures var n := |arrivals| - 1;
      LatestEnd(arrivals, i) <==> if !arrivals[n].moreFollows then i == n else LatestEnd(arrivals[..n], i)
  {
    var n := |arrivals| - 1;
    if arrivals[n].moreFollows && LatestEnd(arrivals[..n], i) {
      forall j | i < j < |arrivals| ensures arrivals[j].moreFollows {
        assert j < n ==> arrivals[..n][j] == arrivals[j];
      }
    }
    if LatestEnd(arrivals, i) && i < n {
      forall j | i < j < n ensures arrivals[..n][j].moreFollows {
        assert arrivals[..n][j] == arrivals[j];
      }
    }
  }

  // ---- At most 256 parts --------------------------------------------------------------------

  lemma TruncateSmall(n: nat)
    requires n < 256
    ensures Truncate8(n) == n
  {
  }

  lemma TruncateWhole()
    ensures Truncate8(256) == 0
  {
  }

  /** The state holds exactly the parts that arrived. */
  lemma {:induction false} HoldsArrived(parts: seq<Bytes>, arrivals: seq<nat>)
    requires Delivery(parts, arrivals) && |parts| <= 256
    ensures var s := After(parts, arrivals);
      (forall i: U8 :: i in s.segments <==> i in arrivals)
      && (forall i: U8 :: i in s.segments ==> i < |parts| && s.segments[i] == parts[i])
      && s.totalExpected == (if |parts| - 1 in arrivals then Some(|parts|) else None)
    decreases arrivals
  {
    hide Truncate8, Join;
    if arrivals != [] {
      var n := |arrivals| - 1;
      HoldsArrived(parts, arrivals[..n]);
      assert arrivals == arrivals[..n] + [arrivals[n]];
      TruncateSmall(arrivals[n]);
    }
  }

  function Below(n: nat): (s: set<U8>)
    requires n <= 256
    ensures forall i: U8 :: i in s <==> i < n
    ensures |s| == n
  {
    if n == 0 then {} else Below(n - 1) + {n - 1}
  }

  /** A subset as large as the whole is the whole. */
  lemma {:induction false} SameSize(a: set<U8>, b: set<U8>)
    requires a <= b
    ensures |a| <= |b|
    ensures |a| == |b| <==> a == b
    decreases b
  {
    if a != {} {
      var x :| x in a;
      SameSize(a - {x}, b - {x});
      assert a == a - {x} + {x} && b == b - {x} + {x};
    }
  }

  /** Comparing the number of segments with the total decides whether all arrived. */
  lemma CompleteBySize(parts: seq<Bytes>, arrivals: seq<nat>)
    requires Delivery(parts, arrivals) && 1 <= |parts| <= 256
    ensures var s := After(parts, arrivals);
      (s.totalExpected.Some? && |s.segments| == s.totalExpected.value) <==> AllArrived(parts, arrivals)
  {
    HoldsArrived(parts, arrivals);
    var s := After(parts, arrivals);
    hide After;
    var all := Below(|parts|);
    SameSize(s.segments.Keys, all);
    assert |s.segments| == |s.segments.Keys|;
    if AllArrived(parts, arrivals) {
      forall i: U8 | i in all ensures i in s.segments {
        assert i in arrivals;
      }
      assert s.segments.Keys == all;
    }
    if s.segments.Keys == all {
      forall i | 0 <= i < |parts| ensures i in arrivals {
        var k: U8 := i;
        assert k in all;
      }
    }
  }

  lemma {:induction false} JoinIsConcat(parts: seq<Bytes>, segments: map<U8, Bytes>, n: U8)
    requires n <= |parts|
    requires forall i: U8 :: i < n ==> i in segments && segments[i] == parts[i]
    ensures Join(segments, n) == Concat(parts[..n])
    decreases n
  {
    if n > 0 {
      JoinIsConcat(parts, segments, n - 1);
      assert parts[..n][..n - 1] == parts[..n - 1];
    }
  }

  lemma AnswerFromState(parts: seq<Bytes>, arrivals: seq<nat>)
    requires Delivery(parts, arrivals) && arrivals != []
    ensures var s := After(parts, arrivals);
      Answer(parts, arrivals) ==
        if s.totalExpected.Some? && |s.segments| == s.totalExpected.value
        then Some(Join(s.segments, Truncate8(s.totalExpected.value))) else None
  {
  }

  lemma AnswerUpTo256(parts: seq<Bytes>, arrivals: seq<nat>)
    requires Delivery(parts, arrivals) && arrivals != [] && 1 <= |parts| <= 256
    ensures Answer(parts, arrivals) ==
      if AllArrived(parts, arrivals) then Some(if |parts| == 256 then [] else Concat(parts)) else None
  {
    AnswerFromState(parts, arrivals);
    CompleteBySize(parts, arrivals);
    HoldsArrived(parts, arrivals);
    hide After, Answer, Truncate8;
    assert Truncate8(256) == 0 by { TruncateWhole(); }
    if AllArrived(parts, arrivals) && |parts| < 256 {
      TruncateSmall(|parts|);
      JoinIsConcat(parts, After(parts, arrivals).segments, |parts|);
      assert parts[..|parts|] == parts;
    }
  }

  // ---- More than 256 parts --------------------------------------------------------------------

  /** Parts `first`, `first + 1`, and so on, below `end`. */
  function InOrder(first: nat, end: nat): (r: seq<nat>)
    requires first <= end
    ensures |r| == end - first
    ensures forall k :: 0 <= k < |r| ==> r[k] == first + k
  {
    seq(end - first, k requires 0 <= k < end - first => first + k)
  }

  lemma {:induction false} HoldsInOrder(parts: seq<Bytes>, first: nat, end: nat)
    requires first <= end <= |parts|
    ensures Delivery(parts, InOrder(first, end))
    ensures var s := After(parts, InOrder(first, end));
      (forall i: nat :: first <= i < end ==> Truncate8(i) in s.segments)
      && s.totalExpected == (if first < end == |parts| then Some(Truncate8(|parts| - 1) + 1) else None)
    decreases end
  {
    hide Truncate8, Join;
    if first < end {
      HoldsInOrder(parts, first, end - 1);
      var n := end - first - 1;
      assert InOrder(first, end)[..n] == InOrder(first, end - 1);
    }
  }

  lemma ResidueOf(n: nat, k: U8)
    requires 256 <= n
    ensures exists i: nat :: n - 256 <= i < n && Truncate8(i) == k
  {
    var r: int := (n - 256) % 256;
    var i: nat := if k >= r then n - 256 - r + k else n - r + k;
    assert n - 256 - r == (n - 256) / 256 * 256;
    Residue((n - 256) / 256 + (if k >= r then 0 else 1), k);
    assert Truncate8(i) == k;
  }

  lemma Residue(q: nat, k: U8)
    ensures (q * 256 + k) % 256 == k
  {
  }

  /** After 256 or more parts in order every number is taken; the answer no longer depends on the parts. */
  lemma AnswerInOrder(parts: seq<Bytes>, first: nat)
    requires first + 256 <= |parts|
    ensures Delivery(parts, InOrder(first, |parts|)) && InOrder(first, |parts|) != []
    ensures Answer(parts, InOrder(first, |parts|)) == if Truncate8(|parts|) == 0 then Some([]) else None
  {
    HoldsInOrder(parts, first, |parts|);
    var arrivals := InOrder(first, |parts|);
    AnswerFromState(parts, arrivals);
    hide After, Answer, Truncate8, Join;
    TruncateWhole();
    LastResidue(|parts|);
    EveryNumberTaken(|parts|, After(parts, arrivals).segments);
    assert Join(After(parts, arrivals).segments, 0) == [] by { NothingJoined(After(parts, arrivals).segments); }
  }

  lemma NothingJoined(segments: map<U8, Bytes>)
    ensures Join(segments, 0) == []
  {
  }

  lemma EveryNumberTaken(n: nat, segments: map<U8, Bytes>)
    requires 256 <= n && forall i: nat :: n - 256 <= i < n ==> Truncate8(i) in segments
    ensures |segments| == 256
  {
    hide Truncate8;
    forall k: U8 ensures k in segments {
      ResidueOf(n, k);
    }
    assert segments.Keys == Below(256);
    assert |segments| == |segments.Keys|;
  }

  lemma LastResidue(n: nat)
    requires n > 0
    ensures Truncate8(n - 1) + 1 == 256 <==> Truncate8(n) == 0
  {
  }

  /** The main result: in every order and with every repetition the caller is told exactly the message,
      exactly when it is complete, if and only if the message has at most 255 parts
      (or 256 parts without a single byte). */
  lemma ReassemblyExactly(parts: seq<Bytes>)
    requires parts != []
    ensures (forall arrivals: seq<nat> :: Delivery(parts, arrivals) && arrivals != [] ==>
        Answer(parts, arrivals) == Wanted(parts, arrivals))
      <==> (|parts| <= 255 || (|parts| == 256 && Concat(parts) == []))
  {
    hide Answer, Concat, Truncate8;
    var n := |parts|;
    if n <= 256 {
      forall arrivals: seq<nat> | Delivery(parts, arrivals) && arrivals != []
        ensures Answer(parts, arrivals) ==
          if AllArrived(parts, arrivals) then Some(if n == 256 then [] else Concat(parts)) else None
      {
        AnswerUpTo256(parts, arrivals);
      }
      EveryPart(n);
      assert Delivery(parts, InOrder(0, n)) && AllArrived(parts, InOrder(0, n));
    } else {
      var first := if Truncate8(n) == 0 then n - 256 else 0;
      AnswerInOrder(parts, first);
      EveryPart(n);
      if first > 0 {
        assert 0 !in InOrder(first, n);
        assert !AllArrived(parts, InOrder(first, n));
      } else {
        assert AllArrived(parts, InOrder(0, n));
      }
    }
  }

  lemma EveryPart(n: nat)
    ensures forall i :: 0 <= i < n ==> i in InOrder(0, n)
  {
    forall i | 0 <= i < n ensures i in InOrder(0, n) {
      assert InOrder(0, n)[i] == i;
    }
  }
}
