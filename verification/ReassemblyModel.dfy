/**
 The reassembly queue of `baytcp/tcp-full-bay.cc` on values: what `add` does to the list of
 segments and to the next expected sequence number, and what that means for the bytes
 received.
 */
module ReassemblyModel {

  /** The flags of a segment are the bits that are set. */
  datatype Flag = Fin | Syn | Push | Ack

  /** The bytes from `start` up to, but not including, `end`. */
  datatype Segment = Segment(start: int, end: int, flags: set<Flag>)

  /** `flags` is what a call returns: the flags of the segments it consumed. */
  datatype Result = Result(queue: seq<Segment>, next: int, flags: set<Flag>)

  // ---------- What `add` computes ----------

  /** The position of the first segment that begins no earlier than `end`. */
  function Position(queue: seq<Segment>, end: int): (i: nat)
    ensures i <= |queue|
    ensures forall k :: 0 <= k < i ==> queue[k].start < end
    ensures i < |queue| ==> end <= queue[i].start
  {
    if queue == [] || end <= queue[0].start then 0 else 1 + Position(queue[1..], end)
  }

  /** A segment that begins no earlier than the tail ends goes to the end at once. */
  function InsertAt(queue: seq<Segment>, s: Segment): (i: nat)
    ensures i <= |queue|
  {
    if queue != [] && queue[|queue| - 1].end <= s.start then |queue| else Position(queue, s.end)
  }

  function Insert(queue: seq<Segment>, s: Segment): seq<Segment> {
    var i := InsertAt(queue, s);
    queue[..i] + [s] + queue[i..]
  }

  /** Segments are consumed from the head up to the first gap between two of them. */
  function Consume(queue: seq<Segment>): Result
    requires queue != []
  {
    if |queue| > 1 && queue[0].end >= queue[1].start then
      var r := Consume(queue[1..]);
      r.(flags := queue[0].flags + r.flags)
    else
      Result(queue[1..], queue[0].end, queue[0].flags)
  }

  function Deliver(queue: seq<Segment>, next: int): Result
    requires queue != []
  {
    if queue[0].start > next then Result(queue, next, {}) else Consume(queue)
  }

  function Add(queue: seq<Segment>, next: int, s: Segment): Result {
    Deliver(Insert(queue, s), next)
  }

  /** What `recv` does with a segment that carries data and no FIN. Data seen before is
      dropped; in-order data advances at once when nothing waits; else the segment is queued.
      `add` works out the end of a trimmed segment from its untrimmed size. */
  function Receive(queue: seq<Segment>, next: int, s: Segment): (seq<Segment>, int) {
    if s.end <= next || s.end <= s.start then (queue, next)
    else if s.start <= next && queue == [] then (queue, s.end)
    else
      var r := Add(queue, next, Trimmed(next, s));
      (r.queue, r.next)
  }

  /** The segment as `add` sees it: moved up to the next byte, but as long as before. */
  function Trimmed(next: int, s: Segment): Segment {
    var start := if s.start < next then next else s.start;
    Segment(start, start + (s.end - s.start), s.flags)
  }

  /** The state after the segments have arrived one after the other. */
  function ReceiveAll(initial: int, arrived: seq<Segment>): (seq<Segment>, int) {
    if arrived == [] then ([], initial)
    else
      var (queue, next) := ReceiveAll(initial, arrived[..|arrived| - 1]);
      Receive(queue, next, arrived[|arrived| - 1])
  }

  // ---------- What it means ----------

  predicate Before(a: Segment, b: Segment) {
    a.end <= b.start
  }

  predicate SameBytes(a: Segment, b: Segment) {
    a.start == b.start && a.end == b.end
  }

  predicate Compatible(a: Segment, b: Segment) {
    SameBytes(a, b) || Before(a, b) || Before(b, a)
  }

  predicate NonEmpty(s: Segment) {
    s.start < s.end
  }

  ghost predicate Ordered(queue: seq<Segment>) {
    && (forall i :: 0 <= i < |queue| ==> NonEmpty(queue[i]))
    && (forall i, j :: 0 <= i < j < |queue| ==> SameBytes(queue[i], queue[j]) || Before(queue[i], queue[j]))
  }

  predicate Holds(s: Segment, b: int) {
    s.start <= b < s.end
  }

  ghost predicate Covered(segments: seq<Segment>, b: int) {
    exists k :: 0 <= k < |segments| && Holds(segments[k], b)
  }

  /** `next` is the first byte from `initial` on that is missing from the segments. */
  ghost predicate FirstGap(initial: int, segments: seq<Segment>, next: int) {
    && initial <= next
    && (forall b :: initial <= b < next ==> Covered(segments, b))
    && !Covered(segments, next)
  }

  ghost predicate Beyond(queue: seq<Segment>, next: int) {
    forall i :: 0 <= i < |queue| ==> next < queue[i].start
  }

  lemma CoveredMore(a: seq<Segment>, s: Segment, b: int)
    ensures Covered(a + [s], b) <==> Covered(a, b) || Holds(s, b)
  {
    if Covered(a, b) {
      var k :| 0 <= k < |a| && Holds(a[k], b);
      assert (a + [s])[k] == a[k];
    }
    if Holds(s, b) {
      assert (a + [s])[|a|] == s;
    }
  }

  // ---------- Insertion ----------

  ghost predicate FitsInto(queue: seq<Segment>, s: Segment) {
    forall i :: 0 <= i < |queue| ==> Compatible(queue[i], s)
  }

  lemma Joined(a: seq<Segment>, b: seq<Segment>)
    requires Ordered(a) && Ordered(b)
    requires forall i, j :: 0 <= i < |a| && 0 <= j < |b| ==> SameBytes(a[i], b[j]) || Before(a[i], b[j])
    ensures Ordered(a + b)
  {
  }

  lemma InsertKeepsOrder(queue: seq<Segment>, s: Segment)
    requires Ordered(queue) && NonEmpty(s) && FitsInto(queue, s)
    ensures Ordered(Insert(queue, s))
  {
    var i := InsertAt(queue, s);
    var front := queue[..i] + [s];
    Joined(queue[..i], [s]);
    forall j, k | 0 <= j < |front| && 0 <= k < |queue| - i
      ensures SameBytes(front[j], queue[i..][k]) || Before(front[j], queue[i..][k])
    {
      assert front[j] == if j < i then queue[j] else s;
      assert queue[i..][k] == queue[i + k];
    }
    Joined(front, queue[i..]);
  }

  lemma InsertAdds(queue: seq<Segment>, s: Segment)
    ensures forall t :: t in Insert(queue, s) <==> t in queue || t == s
    ensures multiset(Insert(queue, s)) == multiset(queue + [s])
  {
    var i := InsertAt(queue, s);
    assert queue == queue[..i] + queue[i..];
  }

  // ---------- Consumption ----------

  function AllFlags(segments: seq<Segment>): set<Flag> {
    if segments == [] then {} else segments[0].flags + AllFlags(segments[1..])
  }

  /** How far the run of segments without a gap between them reaches. */
  function RunLength(queue: seq<Segment>): (k: nat)
    requires queue != []
    ensures 1 <= k <= |queue|
  {
    if |queue| > 1 && queue[0].end >= queue[1].start then 1 + RunLength(queue[1..]) else 1
  }

  /** The consumed segments are that run: their flags are collected, and what is left lies
      beyond the new next byte. */
  lemma {:induction false} ConsumeTakesRun(queue: seq<Segment>)
    requires queue != [] && Ordered(queue)
    ensures var k, r := RunLength(queue), Consume(queue);
            && r.queue == queue[k..] && r.flags == AllFlags(queue[..k])
            && queue[0].start < r.next
            && (forall i :: 0 <= i < k ==> queue[i].end <= r.next)
            && Beyond(r.queue, r.next)
    decreases |queue|
  {
    var k := RunLength(queue);
    if |queue| > 1 && queue[0].end >= queue[1].start {
      ConsumeTakesRun(queue[1..]);
      assert queue[..k][1..] == queue[1..][..k - 1];
    } else {
      assert queue[..1][1..] == [];
    }
  }

  /** The run covers everything up to the new next byte. */
  lemma {:induction false} RunCovers(queue: seq<Segment>, b: int)
    requires queue != [] && Ordered(queue) && queue[0].start <= b < Consume(queue).next
    ensures Covered(queue[..RunLength(queue)], b)
    decreases |queue|
  {
    var k := RunLength(queue);
    if Holds(queue[0], b) {
      assert Holds(queue[..k][0], b);
    } else {
      RunCovers(queue[1..], b);
      var j :| 0 <= j < k - 1 && Holds(queue[1..][..k - 1][j], b);
      assert Holds(queue[..k][j + 1], b);
    }
  }

  // ---------- One call ----------

  /** A list whose head is next in sequence is consumed up to its first gap. */
  lemma DeliverTakesRun(all: seq<Segment>, next: int)
    requires all != [] && Ordered(all) && all[0].start == next
    ensures var k, r := RunLength(all), Deliver(all, next);
            && r.queue == all[k..] && r.flags == AllFlags(all[..k])
            && Ordered(r.queue) && Beyond(r.queue, r.next)
            && (forall i :: 0 <= i < k ==> all[i].end <= r.next)
            && next <= r.next
            && (forall b :: next <= b < r.next ==> Covered(all[..k], b))
  {
    ConsumeTakesRun(all);
    forall b | next <= b < Deliver(all, next).next ensures Covered(all[..RunLength(all)], b) {
      RunCovers(all, b);
    }
  }

  /** `add` with a segment that repeats a queued one or overlaps none: the segments consumed
      are exactly those up to the new next byte, their flags are returned, the others stay in
      order beyond it, and nothing before it is missing. */
  lemma AddTakesRun(queue: seq<Segment>, next: int, s: Segment) returns (k: nat)
    requires Ordered(queue) && Beyond(queue, next) && NonEmpty(s) && next <= s.start && FitsInto(queue, s)
    ensures k <= |queue| + 1
    ensures var all, r := Insert(queue, s), Add(queue, next, s);
            && r.queue == all[k..] && r.flags == AllFlags(all[..k])
            && Ordered(r.queue) && Beyond(r.queue, r.next)
            && (forall i :: 0 <= i < k ==> all[i].end <= r.next)
            && next <= r.next
            && (forall b :: next <= b < r.next ==> Covered(all[..k], b))
  {
    var all := Insert(queue, s);
    InsertKeepsOrder(queue, s);
    InsertAdds(queue, s);
    assert all[0] in all;
    if all[0].start > next {
      k := 0;
      assert forall i :: 0 < i < |all| ==> all[0].start <= all[i].start;
    } else {
      k := RunLength(all);
      DeliverTakesRun(all, next);
    }
  }

  lemma CoveredByMember(segments: seq<Segment>, s: Segment, b: int)
    requires s in segments && Holds(s, b)
    ensures Covered(segments, b)
  {
  }

  ghost predicate SameMembers(all: seq<Segment>, segments: seq<Segment>) {
    forall t :: t in all <==> t in segments
  }

  /** Where a list without empty segments splits into a covering prefix and a rest beyond. */
  ghost predicate SplitsAt(all: seq<Segment>, k: nat, next: int) {
    && k <= |all|
    && (forall i :: 0 <= i < |all| ==> NonEmpty(all[i]))
    && (forall i :: 0 <= i < k ==> all[i].end <= next)
    && (forall i :: k <= i < |all| ==> next < all[i].start)
  }

  lemma SplitKeeps(all: seq<Segment>, k: nat, next: int, segments: seq<Segment>, t: Segment)
    requires SplitsAt(all, k, next) && SameMembers(all, segments)
    ensures t in all[k..] <==> t in segments && next < t.start
  {
    if t in segments && next < t.start {
      assert t in all;
      var i :| 0 <= i < |all| && all[i] == t;
      assert all[k..][i - k] == t;
    }
  }

  lemma SplitIsGap(all: seq<Segment>, k: nat, initial: int, next: int, segments: seq<Segment>)
    requires SplitsAt(all, k, next) && SameMembers(all, segments) && initial <= next
    requires forall b :: initial <= b < next ==> Covered(all[..k], b)
    ensures FirstGap(initial, segments, next)
  {
    forall b | initial <= b < next ensures Covered(segments, b) {
      assert Covered(all[..k], b);
      var j :| 0 <= j < k && Holds(all[..k][j], b);
      assert all[j] in all;
      CoveredByMember(segments, all[j], b);
    }
    forall j | 0 <= j < |segments| ensures !Holds(segments[j], next) {
      assert segments[j] in all;
    }
  }

  /** `add` moves the next byte exactly to the first one missing, and keeps exactly the
      segments beyond it. */
  lemma AddFindsGap(queue: seq<Segment>, next: int, s: Segment)
    requires Ordered(queue) && Beyond(queue, next) && NonEmpty(s) && next <= s.start && FitsInto(queue, s)
    ensures var r := Add(queue, next, s);
            && Ordered(r.queue) && Beyond(r.queue, r.next)
            && FirstGap(next, queue + [s], r.next)
            && forall t :: t in r.queue <==> t in queue + [s] && r.next < t.start
  {
    var k := AddTakesRun(queue, next, s);
    var all, r := Insert(queue, s), Add(queue, next, s);
    InsertAdds(queue, s);
    InsertKeepsOrder(queue, s);
    assert forall i :: k <= i < |all| ==> all[i] == r.queue[i - k];
    SplitIsGap(all, k, next, r.next, queue + [s]);
    forall t ensures t in r.queue <==> t in queue + [s] && r.next < t.start {
      SplitKeeps(all, k, r.next, queue + [s], t);
    }
  }

  /** The calls of `add` that keep the queue in order, and those that find the first missing
      byte, are exactly these. */
  lemma AddIsRightExactlyWhenFitting(queue: seq<Segment>, next: int, s: Segment)
    requires Ordered(queue) && Beyond(queue, next) && NonEmpty(s) && next <= s.start
    ensures Ordered(Add(queue, next, s).queue) <==> FitsInto(queue, s)
    ensures FirstGap(next, queue + [s], Add(queue, next, s).next) <==> FitsInto(queue, s) || s.start != next
  {
    if FitsInto(queue, s) {
      AddFindsGap(queue, next, s);
    } else {
      var i := InsertAt(queue, s);
      var all := Insert(queue, s);
      var k :| 0 <= k < |queue| && !Compatible(queue[k], s);
      assert all[i] == s && all[if k < i then k else k + 1] == queue[k];
      assert Holds(s, next) <==> s.start == next;
      assert (queue + [s])[|queue|] == s;
    }
  }

  /** With nested segments the next byte can stop at one that has arrived: when 5 to 10 fills
      the gap, the loop passes through 30, the end of the outer segment, and then takes the
      end of the inner one. */
  lemma NestedSegmentsStopEarly()
    ensures var outer, inner, filler := Segment(10, 30, {}), Segment(15, 20, {}), Segment(5, 10, {});
            var r := Add(Add([outer], 5, inner).queue, 5, filler);
            && Consume([filler, outer]).next == 30
            && r.next == 20 && r.queue == [] && Covered([outer, inner, filler], 20)
  {
    var outer, inner, filler := Segment(10, 30, {}), Segment(15, 20, {}), Segment(5, 10, {});
    assert InsertAt([outer], inner) == 1;
    assert Insert([outer], inner) == [outer, inner];
    assert InsertAt([outer, inner], filler) == 0;
    var all := [filler, outer, inner];
    assert Insert([outer, inner], filler) == all;
    assert all[1..] == [outer, inner] && all[1..][1..] == [inner];
    assert [filler, outer][1..] == [outer];
    assert Holds([outer, inner, filler][0], 20);
  }

  /** A fitting segment that begins at the next byte is consumed. */
  lemma InOrderIsConsumed(queue: seq<Segment>, next: int, s: Segment)
    requires Ordered(queue) && Beyond(queue, next) && NonEmpty(s) && next == s.start && FitsInto(queue, s)
    ensures Add(queue, next, s).next >= s.end
  {
    AddFindsGap(queue, next, s);
    assert (queue + [s])[|queue|] == s;
  }

  /** A partly old segment that fits the queue once it is trimmed takes the next byte past its
      own end, where nothing has arrived. */
  lemma TrimmedSegmentOvershoots(queue: seq<Segment>, next: int, s: Segment)
    requires Ordered(queue) && Beyond(queue, next) && queue != [] && s.start < next < s.end
    requires FitsInto(queue, Trimmed(next, s))
    ensures Receive(queue, next, s).1 > s.end && !Covered(queue + [s], s.end)
  {
    var t := Trimmed(next, s);
    forall i | 0 <= i < |queue| ensures !Holds(queue[i], s.end) {
      assert Compatible(queue[i], t) && next < queue[i].start;
    }
    InOrderIsConsumed(queue, next, t);
    CoveredMore(queue, s, s.end);
  }

  /** One that does not fit is only queued: the next byte stays where it is, although it has
      arrived. */
  lemma TrimmedSegmentStalls(queue: seq<Segment>, next: int, s: Segment)
    requires Ordered(queue) && Beyond(queue, next) && s.start < next < s.end
    requires !FitsInto(queue, Trimmed(next, s))
    ensures Receive(queue, next, s).1 == next && Covered(queue + [s], next)
    ensures !Ordered(Receive(queue, next, s).0)
  {
    AddIsRightExactlyWhenFitting(queue, next, Trimmed(next, s));
    CoveredMore(queue, s, next);
  }

  /** Both happen: with bytes 10 to 20 waiting and 5 expected, 3 to 8 takes the next byte to
      20 although 8 is missing, and 3 to 9 leaves it at 5 although 5 has arrived. */
  lemma TrimmedSegmentsGoWrong()
    ensures var waiting := [Segment(10, 20, {})];
            && Receive(waiting, 5, Segment(3, 8, {})).1 == 20 && !Covered(waiting + [Segment(3, 8, {})], 8)
            && Receive(waiting, 5, Segment(3, 9, {})).1 == 5 && Covered(waiting + [Segment(3, 9, {})], 5)
  {
    var waiting, short, long := [Segment(10, 20, {})], Segment(3, 8, {}), Segment(3, 9, {});
    assert Insert(waiting, Segment(5, 10, {})) == [Segment(5, 10, {}), Segment(10, 20, {})];
    TrimmedSegmentOvershoots(waiting, 5, short);
    TrimmedSegmentStalls(waiting, 5, long) by {
      assert !Compatible(waiting[0], Trimmed(5, long));
    }
  }

  /** `recv` finds the first missing byte exactly for segments that are wholly old, that arrive
      while nothing waits, or that are wholly new and fit the queue or leave the gap open. So
      every partly old segment goes wrong while something waits. */
  lemma ReceiveFindsGapExactly(queue: seq<Segment>, next: int, s: Segment)
    requires Ordered(queue) && Beyond(queue, next) && NonEmpty(s)
    ensures FirstGap(next, queue + [s], Receive(queue, next, s).1) <==>
            || s.end <= next || queue == []
            || (next <= s.start && (FitsInto(queue, s) || s.start != next))
  {
    if s.end <= next {
      CoveredMore(queue, s, next);
    } else if next <= s.start {
      FastPathAgrees(queue, next, s);
      AddIsRightExactlyWhenFitting(queue, next, s);
    } else if queue == [] {
      assert queue + [s] == [s];
      forall b ensures Covered([s], b) <==> Holds(s, b) { CoveredMore([], s, b); }
    } else if FitsInto(queue, Trimmed(next, s)) {
      TrimmedSegmentOvershoots(queue, next, s);
    } else {
      TrimmedSegmentStalls(queue, next, s);
    }
  }

  /** Taking an in-order segment at once is what queueing it would do. */
  lemma FastPathAgrees(queue: seq<Segment>, next: int, s: Segment)
    requires NonEmpty(s) && s.start >= next
    ensures Receive(queue, next, s) == (Add(queue, next, s).queue, Add(queue, next, s).next)
  {
    assert Trimmed(next, s) == s;
    if s.start == next && queue == [] { AddToNothing(next, s); }
  }

  lemma AddToNothing(next: int, s: Segment)
    requires s.start <= next
    ensures Add([], next, s) == Result([], s.end, s.flags)
  {
    var all := Insert([], s);
    assert |all| == 1 && all[0] == s;
    assert all[1..] == [];
  }

  // ---------- All arrivals ----------

  /** Segments that start no earlier than `initial`, none empty, any two of which carry the
      same bytes or none in common. */
  ghost predicate Tidy(initial: int, arrived: seq<Segment>) {
    && (forall i :: 0 <= i < |arrived| ==> NonEmpty(arrived[i]) && initial <= arrived[i].start)
    && (forall i, j :: 0 <= i < j < |arrived| ==> Compatible(arrived[i], arrived[j]))
  }

  /** The receiver is where it should be: the next byte is the first one missing, and the
      queue holds, in order, exactly the segments that lie beyond it. */
  ghost predicate UpToDate(initial: int, arrived: seq<Segment>, queue: seq<Segment>, next: int) {
    && Ordered(queue)
    && FirstGap(initial, arrived, next)
    && forall t :: t in queue <==> t in arrived && next < t.start
  }

  /** A segment of a tidy sequence is not cut by the next byte. */
  lemma NextCutsNothing(initial: int, arrived: seq<Segment>, s: Segment, next: int)
    requires Tidy(initial, arrived + [s]) && FirstGap(initial, arrived, next)
    ensures s.end <= next || next <= s.start
  {
    assert (arrived + [s])[|arrived|] == s;
    forall k | 0 <= k < |arrived| ensures Compatible(arrived[k], s) {
      assert (arrived + [s])[k] == arrived[k];
    }
    assert initial < next ==> Covered(arrived, next - 1);
  }

  /** The first gap after `next` is also the first gap of everything that arrived. */
  lemma GapsChain(initial: int, arrived: seq<Segment>, queue: seq<Segment>, next: int, s: Segment, next': int)
    requires UpToDate(initial, arrived, queue, next) && FirstGap(next, queue + [s], next')
    ensures FirstGap(initial, arrived + [s], next')
  {
    forall b | initial <= b < next' ensures Covered(arrived + [s], b) {
      CoveredMore(arrived, s, b);
      CoveredMore(queue, s, b);
      if b >= next && Covered(queue, b) {
        var k :| 0 <= k < |queue| && Holds(queue[k], b);
        CoveredByMember(arrived, queue[k], b);
      }
    }
    CoveredMore(arrived, s, next');
    CoveredMore(queue, s, next');
    if Covered(arrived, next') {
      var k :| 0 <= k < |arrived| && Holds(arrived[k], next');
      if arrived[k].start <= next {
        assert Holds(arrived[k], next);
      } else {
        CoveredByMember(queue, arrived[k], next');
      }
    }
  }

  lemma OldSegmentChangesNothing(initial: int, arrived: seq<Segment>, queue: seq<Segment>, next: int, s: Segment)
    requires UpToDate(initial, arrived, queue, next) && NonEmpty(s) && s.end <= next
    ensures UpToDate(initial, arrived + [s], queue, next)
  {
    forall b ensures Covered(arrived + [s], b) <==> Covered(arrived, b) || Holds(s, b) {
      CoveredMore(arrived, s, b);
    }
  }

  lemma NewSegmentIsTaken(initial: int, arrived: seq<Segment>, queue: seq<Segment>, next: int, s: Segment)
    requires Tidy(initial, arrived + [s]) && UpToDate(initial, arrived, queue, next) && next <= s.start
    ensures UpToDate(initial, arrived + [s], Add(queue, next, s).queue, Add(queue, next, s).next)
  {
    var r := Add(queue, next, s);
    assert (arrived + [s])[|arrived|] == s;
    forall i | 0 <= i < |queue| ensures Compatible(queue[i], s) && next < queue[i].start {
      assert queue[i] in queue;
      var k :| 0 <= k < |arrived| && arrived[k] == queue[i];
      assert (arrived + [s])[k] == arrived[k];
    }
    AddFindsGap(queue, next, s);
    GapsChain(initial, arrived, queue, next, s, r.next);
  }

  lemma ReceiveStaysUpToDate(initial: int, arrived: seq<Segment>, queue: seq<Segment>, next: int, s: Segment)
    requires Tidy(initial, arrived + [s]) && UpToDate(initial, arrived, queue, next)
    ensures UpToDate(initial, arrived + [s], Receive(queue, next, s).0, Receive(queue, next, s).1)
  {
    assert NonEmpty((arrived + [s])[|arrived|]);
    NextCutsNothing(initial, arrived, s, next);
    if s.end <= next {
      OldSegmentChangesNothing(initial, arrived, queue, next, s);
    } else {
      FastPathAgrees(queue, next, s);
      NewSegmentIsTaken(initial, arrived, queue, next, s);
    }
  }

  /** Whatever the order of arrival, and with any repetitions: the next expected byte is the
      first one missing, and the queue holds, in order, exactly what lies beyond it. */
  lemma {:induction false} Reassembly(initial: int, arrived: seq<Segment>)
    requires Tidy(initial, arrived)
    ensures UpToDate(initial, arrived, ReceiveAll(initial, arrived).0, ReceiveAll(initial, arrived).1)
    decreases |arrived|
  {
    if arrived != [] {
      var before, s := arrived[..|arrived| - 1], arrived[|arrived| - 1];
      assert arrived == before + [s];
      Reassembly(initial, before);
      var (queue, next) := ReceiveAll(initial, before);
      ReceiveStaysUpToDate(initial, before, queue, next, s);
    }
  }

  // ---------- Exactly which sequences ----------

  /** What a receiver could ask before it takes the segment. */
  ghost predicate Takeable(queue: seq<Segment>, next: int, s: Segment) {
    s.end <= next || queue == [] || (next <= s.start && FitsInto(queue, s))
  }

  ghost predicate UpToDateAfter(initial: int, arrived: seq<Segment>) {
    UpToDate(initial, arrived, ReceiveAll(initial, arrived).0, ReceiveAll(initial, arrived).1)
  }

  /** A takeable segment keeps the receiver up to date. */
  lemma TakeableIsTaken(initial: int, arrived: seq<Segment>, queue: seq<Segment>, next: int, s: Segment)
    requires UpToDate(initial, arrived, queue, next) && NonEmpty(s) && Takeable(queue, next, s)
    ensures UpToDate(initial, arrived + [s], Receive(queue, next, s).0, Receive(queue, next, s).1)
  {
    if s.end <= next {
      OldSegmentChangesNothing(initial, arrived, queue, next, s);
    } else if next <= s.start {
      FastPathAgrees(queue, next, s);
      AddFindsGap(queue, next, s);
      GapsChain(initial, arrived, queue, next, s, Add(queue, next, s).next);
    } else {
      ReceiveFindsGapExactly(queue, next, s);
      GapsChain(initial, arrived, queue, next, s, s.end);
    }
  }

  /** Any other segment does not. */
  lemma OthersAreNot(initial: int, arrived: seq<Segment>, queue: seq<Segment>, next: int, s: Segment)
    requires UpToDate(initial, arrived, queue, next) && NonEmpty(s) && !Takeable(queue, next, s)
    ensures !UpToDate(initial, arrived + [s], Receive(queue, next, s).0, Receive(queue, next, s).1)
  {
    if next <= s.start {
      FastPathAgrees(queue, next, s);
      AddIsRightExactlyWhenFitting(queue, next, s);
    } else if FitsInto(queue, Trimmed(next, s)) {
      TrimmedSegmentOvershoots(queue, next, s);
      OvershotIsMissing(initial, arrived, queue, next, s);
    } else {
      TrimmedSegmentStalls(queue, next, s);
    }
  }

  /** What is missing from the queue beyond the next byte has not arrived. */
  lemma OvershotIsMissing(initial: int, arrived: seq<Segment>, queue: seq<Segment>, next: int, s: Segment)
    requires UpToDate(initial, arrived, queue, next) && s.start < next < s.end && !Covered(queue + [s], s.end)
    ensures !Covered(arrived + [s], s.end)
  {
    CoveredMore(arrived, s, s.end);
    CoveredMore(queue, s, s.end);
    if Covered(arrived, s.end) {
      var k :| 0 <= k < |arrived| && Holds(arrived[k], s.end);
      assert !Holds(arrived[k], next);
      CoveredByMember(queue, arrived[k], s.end);
    }
  }

  /** The receiver was up to date at every moment. */
  ghost predicate AlwaysUpToDate(initial: int, arrived: seq<Segment>)
    decreases |arrived|
  {
    && UpToDateAfter(initial, arrived)
    && (arrived != [] ==> AlwaysUpToDate(initial, arrived[..|arrived| - 1]))
  }

  /** Each segment was takeable when it came. */
  ghost predicate EachTakeable(initial: int, arrived: seq<Segment>)
    decreases |arrived|
  {
    arrived != [] ==>
      var before := arrived[..|arrived| - 1];
      && EachTakeable(initial, before)
      && Takeable(ReceiveAll(initial, before).0, ReceiveAll(initial, before).1, arrived[|arrived| - 1])
  }

  /** For all sequences of segments that are not empty: the receiver is up to date at every
      moment if and only if each segment was takeable when it came. */
  lemma {:induction false} ReassemblyExactly(initial: int, arrived: seq<Segment>)
    requires forall k :: 0 <= k < |arrived| ==> NonEmpty(arrived[k])
    ensures AlwaysUpToDate(initial, arrived) <==> EachTakeable(initial, arrived)
    decreases |arrived|
  {
    if arrived == [] {
      NothingArrived(initial);
    } else {
      var before, s := arrived[..|arrived| - 1], arrived[|arrived| - 1];
      assert arrived == before + [s];
      ReassemblyExactly(initial, before);
      if UpToDateAfter(initial, before) { LastOneExactly(initial, before, s); }
    }
  }

  lemma NothingArrived(initial: int)
    ensures UpToDateAfter(initial, [])
  {
  }

  lemma LastOneExactly(initial: int, before: seq<Segment>, s: Segment)
    requires NonEmpty(s) && UpToDateAfter(initial, before)
    ensures UpToDateAfter(initial, before + [s]) <==>
            Takeable(ReceiveAll(initial, before).0, ReceiveAll(initial, before).1, s)
  {
    var (queue, next) := ReceiveAll(initial, before);
    assert (before + [s])[..|before|] == before;
    if Takeable(queue, next, s) {
      TakeableIsTaken(initial, before, queue, next, s);
    } else {
      OthersAreNot(initial, before, queue, next, s);
    }
  }
}
