/**
 The loss meter of `common/ivs.cc` on values: a list of holes in the sequence numbers
 received, each with the time at which it was noticed, and the packets lost in a window of
 recent time.
 */
module IvsModel {
  import opened Basics

  /** The sequence numbers from `start` to `end`, both missing. */
  datatype Hole = Hole(start: nat, end: nat, time: real)

  /** `nextSeq` is 0 before the first packet; `mean` and `dev` average the delay. */
  datatype Meter = Meter(nextSeq: nat, holes: seq<Hole>, mean: real, dev: real)

  const INITIAL: Meter := Meter(0, [], 0.0, 0.0)

  datatype Load = Unloaded | Loaded | Congested

  // ---------- One packet ----------

  /** Sequence numbers that go backwards abort the program. */
  function Arrive(m: Meter, sq: nat, now: real): Option<Meter> {
    if m.nextSeq == 0 || sq == m.nextSeq then Some(m.(nextSeq := sq + 1))
    else if sq > m.nextSeq then Some(m.(nextSeq := sq + 1, holes := m.holes + [Hole(m.nextSeq, sq - 1, now)]))
    else None
  }

  function Mean(m: Meter, delay: real): real {
    if m.mean == 0.0 then delay else (7.0 * m.mean + delay) / 8.0
  }

  function Abs(x: real): real {
    if x < 0.0 then -x else x
  }

  function Average(m: Meter, delay: real): Meter {
    var mean := Mean(m, delay);
    m.(mean := mean, dev := (7.0 * m.dev + Abs(delay - mean)) / 8.0)
  }

  function Size(h: Hole): int {
    h.end - h.start + 1
  }

  /** The holes noticed no earlier than `from`. */
  function Recent(holes: seq<Hole>, from: real): seq<Hole> {
    if holes == [] then []
    else (if holes[0].time < from then [] else [holes[0]]) + Recent(holes[1..], from)
  }

  /** The sizes of the holes noticed between `from` and `to`. */
  function Lost(holes: seq<Hole>, from: real, to: real): int {
    if holes == [] then 0
    else (if from <= holes[0].time < to then Size(holes[0]) else 0) + Lost(holes[1..], from, to)
  }

  function WindowEnd(m: Meter, now: real): real {
    now - 2.0 * m.dev
  }

  /** The meter without the holes that are too old, and the packets lost in the window. */
  function Weighed(m: Meter, maxRtt: real, now: real): (Meter, int) {
    var to := WindowEnd(m, now);
    (m.(holes := Recent(m.holes, to - maxRtt)), Lost(m.holes, to - maxRtt, to))
  }

  /** The meter after a packet and the packets lost in the window; none where the program
      aborts. */
  function LossMeter(m: Meter, delay: real, sq: nat, maxRtt: real, now: real): Option<(Meter, int)> {
    match Arrive(m, sq, now)
    case None => None
    case Some(m1) => Some(Weighed(Average(m1, delay), maxRtt, now))
  }

  // ---------- What the list looks like ----------

  /** Holes are noticed one after the other, and lie one after the other. */
  ghost predicate Ordered(holes: seq<Hole>) {
    && (forall i :: 0 <= i < |holes| ==> holes[i].start <= holes[i].end)
    && (forall i, j :: 0 <= i < j < |holes| ==> holes[i].time <= holes[j].time && holes[i].end < holes[j].start)
  }

  ghost predicate Inv(m: Meter, now: real) {
    && Ordered(m.holes)
    && (forall i :: 0 <= i < |m.holes| ==> m.holes[i].time <= now && m.holes[i].end < m.nextSeq)
    && (m.nextSeq == 0 ==> m.holes == [])
  }

  /** How many holes at the head of the list are too old. */
  function Old(holes: seq<Hole>, from: real): (k: nat)
    ensures k <= |holes|
    ensures forall i :: 0 <= i < k ==> holes[i].time < from
    ensures k < |holes| ==> holes[k].time >= from
  {
    if holes == [] || holes[0].time >= from then 0 else 1 + Old(holes[1..], from)
  }

  lemma RestIsOrdered(holes: seq<Hole>)
    requires Ordered(holes) && holes != []
    ensures Ordered(holes[1..])
    ensures forall i :: 0 <= i < |holes| ==> holes[0].time <= holes[i].time
  {
  }

  /** Removal always takes a prefix: so the last hole of the list is never removed alone, and
      the tail pointer stays right without being set. */
  lemma {:induction false} RecentIsSuffix(holes: seq<Hole>, from: real)
    requires Ordered(holes)
    ensures Recent(holes, from) == holes[Old(holes, from)..]
    decreases |holes|
  {
    if holes != [] {
      RestIsOrdered(holes);
      if holes[0].time < from {
        RecentIsSuffix(holes[1..], from);
        assert holes[1..][Old(holes[1..], from)..] == holes[Old(holes, from)..];
      } else {
        AllRecent(holes, from);
      }
    }
  }

  lemma {:induction false} AllRecent(holes: seq<Hole>, from: real)
    requires forall i :: 0 <= i < |holes| ==> holes[i].time >= from
    ensures Recent(holes, from) == holes
    decreases |holes|
  {
    if holes != [] { AllRecent(holes[1..], from); }
  }

  lemma ArriveKeepsInv(m: Meter, last: real, sq: nat, now: real)
    requires Inv(m, last) && last <= now && Arrive(m, sq, now).Some?
    ensures Inv(Arrive(m, sq, now).value, now)
  {
  }

  lemma SuffixKeepsInv(m: Meter, now: real, from: real)
    requires Inv(m, now)
    ensures Inv(m.(holes := Recent(m.holes, from)), now)
  {
    RecentIsSuffix(m.holes, from);
  }

  lemma MeterKeepsInv(m: Meter, last: real, delay: real, sq: nat, maxRtt: real, now: real)
    requires Inv(m, last) && last <= now && LossMeter(m, delay, sq, maxRtt, now).Some?
    ensures Inv(LossMeter(m, delay, sq, maxRtt, now).value.0, now)
  {
    ArriveKeepsInv(m, last, sq, now);
    var m2 := Average(Arrive(m, sq, now).value, delay);
    SuffixKeepsInv(m2, now, WindowEnd(m2, now) - maxRtt);
  }

  // ---------- What is counted ----------

  ghost function Numbers(start: nat, end: int): (s: set<nat>)
    requires start <= end + 1
    ensures |s| == end - start + 1
    ensures forall n: nat :: n in s <==> start <= n <= end
    decreases end - start + 1
  {
    if end < start then {} else Numbers(start, end - 1) + {end}
  }

  /** The sequence numbers missing in holes noticed between `from` and `to`. */
  ghost function Missing(holes: seq<Hole>, from: real, to: real): set<nat>
    requires Ordered(holes)
  {
    if holes == [] then {}
    else
      (if from <= holes[0].time < to then Numbers(holes[0].start, holes[0].end) else {})
      + Missing(holes[1..], from, to)
  }

  /** The hole was noticed in the window and covers the number. */
  predicate Misses(h: Hole, from: real, to: real, n: nat) {
    from <= h.time < to && h.start <= n <= h.end
  }

  /** Some hole of the list misses the number. */
  ghost predicate SomeMisses(holes: seq<Hole>, from: real, to: real, n: nat) {
    exists i :: 0 <= i < |holes| && Misses(holes[i], from, to, n)
  }

  lemma OneHoleMore(holes: seq<Hole>, from: real, to: real, n: nat)
    requires holes != []
    ensures SomeMisses(holes, from, to, n) <==> Misses(holes[0], from, to, n) || SomeMisses(holes[1..], from, to, n)
  {
    if i :| 0 <= i < |holes[1..]| && Misses(holes[1..][i], from, to, n) {
      assert Misses(holes[i + 1], from, to, n);
    }
    if i :| 0 <= i < |holes| && Misses(holes[i], from, to, n) && i > 0 {
      assert Misses(holes[1..][i - 1], from, to, n);
    }
  }

  lemma {:induction false} MissingMembers(holes: seq<Hole>, from: real, to: real, n: nat)
    requires Ordered(holes)
    ensures n in Missing(holes, from, to) <==> SomeMisses(holes, from, to, n)
    decreases |holes|
  {
    if holes != [] {
      MissingMembers(holes[1..], from, to, n);
      OneHoleMore(holes, from, to, n);
    }
  }

  /** The number of packets counted as lost is the number of different sequence numbers
      missing in the window. */
  lemma {:induction false} LostIsMissing(holes: seq<Hole>, from: real, to: real)
    requires Ordered(holes)
    ensures Lost(holes, from, to) == |Missing(holes, from, to)|
    decreases |holes|
  {
    if holes != [] {
      var rest := holes[1..];
      LostIsMissing(rest, from, to);
      if from <= holes[0].time < to {
        assert Numbers(holes[0].start, holes[0].end) !! Missing(rest, from, to) by {
          forall n | n in Numbers(holes[0].start, holes[0].end) ensures n !in Missing(rest, from, to) {
            MissingMembers(rest, from, to, n);
          }
        }
      }
    }
  }

  // ---------- Runs ----------

  datatype Event = Event(sq: nat, delay: real, maxRtt: real, at: real)

  /** The meter, the packets accepted and the sizes of all holes ever noticed. */
  datatype World = World(m: Meter, first: nat, accepted: nat, missed: int)

  /** An event that would abort the program ends the run there. */
  function Step(w: World, ev: Event): World {
    match LossMeter(w.m, ev.delay, ev.sq, ev.maxRtt, ev.at)
    case None => w
    case Some(r) =>
      World(r.0, if w.m.nextSeq == 0 then ev.sq else w.first, w.accepted + 1,
            w.missed + if w.m.nextSeq != 0 && ev.sq > w.m.nextSeq then ev.sq - w.m.nextSeq else 0)
  }

  function Run(evs: seq<Event>): World {
    if evs == [] then World(INITIAL, 0, 0, 0) else Step(Run(evs[..|evs| - 1]), evs[|evs| - 1])
  }

  ghost predicate ClockRuns(evs: seq<Event>) {
    forall i, j :: 0 <= i < j < |evs| ==> evs[i].at <= evs[j].at
  }

  /** With a clock that does not run backwards, in every run: the holes are ordered, and the
      packets accepted and the sizes of all holes ever noticed add up to the advance of the
      sequence number. */
  lemma {:induction false} EveryNumberIsAccountedFor(evs: seq<Event>)
    requires ClockRuns(evs)
    ensures var w := Run(evs);
            && (evs != [] ==> Inv(w.m, evs[|evs| - 1].at))
            && (evs == [] ==> w.m == INITIAL)
            && w.accepted + w.missed == if w.m.nextSeq == 0 then 0 else w.m.nextSeq - w.first
    decreases |evs|
  {
    if evs != [] {
      var before, ev := evs[..|evs| - 1], evs[|evs| - 1];
      EveryNumberIsAccountedFor(before);
      var w := Run(before);
      var last := if before == [] then ev.at else before[|before| - 1].at;
      assert Inv(w.m, last);
      if LossMeter(w.m, ev.delay, ev.sq, ev.maxRtt, ev.at).Some? {
        MeterKeepsInv(w.m, last, ev.delay, ev.sq, ev.maxRtt, ev.at);
      }
    }
  }

  /** The verdict: at most 5 percent of the packets of a round trip lost is no load, at most
      15 percent is load, more is congestion; with few packets, fixed limits hold. */
  function Verdict(lost: int, maxRtt: real, ipg: real): Load {
    var pps := if ipg != 0.0 then maxRtt / ipg else 0.0;
    var p := if pps * 15.0 / 100.0 < 2.0 then 13.0 else pps;
    if lost as real <= 5.0 * p / 100.0 then Unloaded
    else if lost as real <= 15.0 * p / 100.0 then Loaded
    else Congested
  }

  /** How bad the verdict is. */
  function Severity(l: Load): nat {
    match l
    case Unloaded => 0
    case Loaded => 1
    case Congested => 2
  }

  /** More losses never give a milder verdict. */
  lemma VerdictGrows(lost: int, lost': int, maxRtt: real, ipg: real)
    requires lost <= lost'
    ensures Severity(Verdict(lost, maxRtt, ipg)) <= Severity(Verdict(lost', maxRtt, ipg))
  {
  }

  /** The limits: 5 and 15 percent of the packets of a round trip, if 15 percent are at least 2
      packets; otherwise, and without a known gap between packets, a single loss is load and
      two are congestion. */
  lemma VerdictLimits(lost: int, maxRtt: real, ipg: real)
    ensures var verdict := Verdict(lost, maxRtt, ipg);
            if ipg != 0.0 && 15.0 * (maxRtt / ipg) >= 200.0
            then
              && (verdict == Unloaded <==> 100.0 * lost as real <= 5.0 * (maxRtt / ipg))
              && (verdict == Congested <==> 100.0 * lost as real > 15.0 * (maxRtt / ipg))
            else
              && (verdict == Unloaded <==> lost <= 0)
              && (verdict == Congested <==> lost >= 2)
  {
  }

  /** Of the holes exactly those noticed since a time are left. */
  ghost predicate KeptSince(left: seq<Hole>, holes: seq<Hole>, from: real) {
    forall h :: h in left <==> h in holes && h.time >= from
  }

  /** The number is that of the different sequence numbers missing in the window. */
  ghost predicate AreMissing(lost: int, holes: seq<Hole>, from: real, to: real)
    requires Ordered(holes)
  {
    lost == |Missing(holes, from, to)|
  }

  /** One packet: a number beyond the expected one leaves a hole from the expected one on,
      noticed now; the holes left and the losses are those of a window of one round trip that
      ends two deviations ago. */
  lemma PacketMeasured(m: Meter, last: real, delay: real, sq: nat, maxRtt: real, now: real)
    requires Inv(m, last) && last <= now && (m.nextSeq == 0 || sq >= m.nextSeq)
    ensures LossMeter(m, delay, sq, maxRtt, now).Some?
    ensures var (m', lost) := LossMeter(m, delay, sq, maxRtt, now).value;
            var holes := if m.nextSeq != 0 && sq > m.nextSeq then m.holes + [Hole(m.nextSeq, sq - 1, now)] else m.holes;
            var to := now - 2.0 * m'.dev;
            && m'.nextSeq == sq + 1 && Ordered(holes)
            && KeptSince(m'.holes, holes, to - maxRtt)
            && AreMissing(lost, holes, to - maxRtt, to)
  {
    var holes := if m.nextSeq != 0 && sq > m.nextSeq then m.holes + [Hole(m.nextSeq, sq - 1, now)] else m.holes;
    Arrived(m, last, sq, now, holes);
    WeighedIs(Average(Arrive(m, sq, now).value, delay), holes, maxRtt, now);
  }

  lemma Arrived(m: Meter, last: real, sq: nat, now: real, holes: seq<Hole>)
    requires Inv(m, last) && last <= now && (m.nextSeq == 0 || sq >= m.nextSeq)
    requires holes == if m.nextSeq != 0 && sq > m.nextSeq then m.holes + [Hole(m.nextSeq, sq - 1, now)] else m.holes
    ensures var m1 := Arrive(m, sq, now);
            m1.Some? && m1.value.nextSeq == sq + 1 && m1.value.holes == holes && Ordered(holes)
  {
    ArriveKeepsInv(m, last, sq, now);
  }

  lemma WeighedIs(m: Meter, holes: seq<Hole>, maxRtt: real, now: real)
    requires m.holes == holes && Ordered(holes)
    ensures var (m', lost) := Weighed(m, maxRtt, now); var to := now - 2.0 * m'.dev;
            && m'.nextSeq == m.nextSeq
            && KeptSince(m'.holes, holes, to - maxRtt)
            && AreMissing(lost, holes, to - maxRtt, to)
  {
    var to := WindowEnd(m, now);
    RecentAre(holes, to - maxRtt);
    LostAre(holes, to - maxRtt, to);
  }

  lemma LostAre(holes: seq<Hole>, from: real, to: real)
    requires Ordered(holes)
    ensures AreMissing(Lost(holes, from, to), holes, from, to)
  {
    LostIsMissing(holes, from, to);
  }

  lemma {:induction false} RecentAre(holes: seq<Hole>, from: real)
    ensures KeptSince(Recent(holes, from), holes, from)
  {
    if holes != [] { RecentAre(holes[1..], from); }
  }

  /** The averages go an eighth of the way to what was measured, and the first delay is taken as
      it is. */
  lemma DelayAveraged(m: Meter, delay: real, sq: nat, maxRtt: real, now: real)
    requires LossMeter(m, delay, sq, maxRtt, now).Some?
    ensures var m' := LossMeter(m, delay, sq, maxRtt, now).value.0;
            && (if m.mean == 0.0 then m'.mean == delay else 8.0 * (m'.mean - m.mean) == delay - m.mean)
            && 8.0 * (m'.dev - m.dev) == (if delay < m'.mean then m'.mean - delay else delay - m'.mean) - m.dev
  {
  }

  /** A number that goes backwards aborts the program. */
  lemma BackwardsAborts(m: Meter, delay: real, sq: nat, maxRtt: real, now: real)
    ensures LossMeter(m, delay, sq, maxRtt, now) == None <==> m.nextSeq != 0 && sq < m.nextSeq
  {
  }
}
