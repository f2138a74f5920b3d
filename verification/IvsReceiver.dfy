/**
 `IvsReceiver`: the hole list linked through `next` fields and edited in place, proved against
 `IvsModel`. The tail pointer is set when a hole is added, never when holes are removed.
 */
module IvsReceiver {
  import opened Basics
  import opened IvsModel

  class McHole {
    const hole: Hole
    var next: McHole?

    constructor (h: Hole)
      ensures hole == h && next == null
    {
      hole := h;
      next := null;
    }
  }

  function NodeAt(nodes: seq<McHole>, i: int): McHole? {
    if 0 <= i < |nodes| then nodes[i] else null
  }

  ghost predicate InPlace(nodes: seq<McHole>, i: int)
    requires 0 <= i < |nodes|
    reads nodes
  {
    nodes[i].next == NodeAt(nodes, i + 1)
  }

  ghost predicate Linked(nodes: seq<McHole>)
    reads nodes
  {
    Distinct(nodes) && forall i {:trigger InPlace(nodes, i)} :: 0 <= i < |nodes| ==> InPlace(nodes, i)
  }

  function Holes(nodes: seq<McHole>): (h: seq<Hole>)
    ensures |h| == |nodes|
    ensures forall i :: 0 <= i < |nodes| ==> h[i] == nodes[i].hole
  {
    if nodes == [] then [] else [nodes[0].hole] + Holes(nodes[1..])
  }

  lemma HolesWith(nodes: seq<McHole>, n: McHole)
    ensures Holes(nodes + [n]) == Holes(nodes) + [n.hole]
  {
  }

  lemma HolesDrop(nodes: seq<McHole>, i: nat)
    requires i <= |nodes|
    ensures Holes(nodes)[i..] == Holes(nodes[i..])
  {
  }

  lemma RestAt(nodes: seq<McHole>, i: nat)
    requires i < |nodes|
    ensures Holes(nodes)[i..] == [nodes[i].hole] + Holes(nodes)[i + 1..]
    ensures Holes(RemovedAt(nodes, i))[i..] == Holes(nodes)[i + 1..]
  {
    HolesDrop(nodes, i);
    HolesDrop(nodes, i + 1);
    HolesDrop(RemovedAt(nodes, i), i);
    assert nodes[i..][1..] == nodes[i + 1..] && RemovedAt(nodes, i)[i..] == nodes[i + 1..];
  }

  /** What is still to be counted, after the node at `i` was counted or removed. */
  lemma LostAt(nodes: seq<McHole>, i: nat, from: real, to: real)
    requires i < |nodes|
    ensures var h := nodes[i].hole;
            Lost(Holes(nodes)[i..], from, to)
            == (if from <= h.time < to then Size(h) else 0) + Lost(Holes(nodes)[i + 1..], from, to)
    ensures Lost(Holes(RemovedAt(nodes, i))[i..], from, to) == Lost(Holes(nodes)[i + 1..], from, to)
  {
    RestAt(nodes, i);
    assert ([nodes[i].hole] + Holes(nodes)[i + 1..])[1..] == Holes(nodes)[i + 1..];
  }

  /** The nodes that a sweep keeps. */
  function Kept(nodes: seq<McHole>, from: real): seq<McHole> {
    if nodes == [] then []
    else (if nodes[0].hole.time < from then [] else [nodes[0]]) + Kept(nodes[1..], from)
  }

  lemma {:induction false} KeptSkips(nodes: seq<McHole>, k: nat, from: real)
    requires k < |nodes| && nodes[k].hole.time < from
    ensures Kept(RemovedAt(nodes, k), from) == Kept(nodes, from)
    decreases k
  {
    if k == 0 {
      assert RemovedAt(nodes, 0) == nodes[1..];
    } else {
      KeptSkips(nodes[1..], k - 1, from);
      assert RemovedAt(nodes, k)[1..] == RemovedAt(nodes[1..], k - 1);
    }
  }

  lemma {:induction false} AllKept(nodes: seq<McHole>, from: real)
    requires forall k :: 0 <= k < |nodes| ==> nodes[k].hole.time >= from
    ensures Kept(nodes, from) == nodes
    decreases |nodes|
  {
    if nodes != [] { AllKept(nodes[1..], from); }
  }

  lemma {:induction false} HolesKept(nodes: seq<McHole>, from: real)
    ensures Holes(Kept(nodes, from)) == Recent(Holes(nodes), from)
    decreases |nodes|
  {
    if nodes != [] {
      HolesKept(nodes[1..], from);
      assert Holes(nodes)[1..] == Holes(nodes[1..]);
      assert Kept(nodes, from) == (if nodes[0].hole.time < from then [] else [nodes[0]]) + Kept(nodes[1..], from);
      if nodes[0].hole.time >= from { assert Kept(nodes, from)[1..] == Kept(nodes[1..], from); }
    }
  }

  ghost predicate InTime(nodes: seq<McHole>) {
    forall i, j :: 0 <= i < j < |nodes| ==> nodes[i].hole.time <= nodes[j].hole.time
  }

  lemma OrderedInTime(nodes: seq<McHole>)
    requires Ordered(Holes(nodes))
    ensures InTime(nodes)
  {
    forall i, j | 0 <= i < j < |nodes| ensures nodes[i].hole.time <= nodes[j].hole.time {
      assert Holes(nodes)[i].time <= Holes(nodes)[j].time;
    }
  }

  /** Of a list in order of time a sweep keeps a suffix, and with it the last node. */
  lemma {:induction false} LastIsKept(nodes: seq<McHole>, from: real)
    requires InTime(nodes) && Kept(nodes, from) != []
    ensures Kept(nodes, from)[|Kept(nodes, from)| - 1] == nodes[|nodes| - 1]
    decreases |nodes|
  {
    if nodes[0].hole.time < from {
      LastIsKept(nodes[1..], from);
    } else {
      AllKept(nodes, from);
    }
  }

  lemma HolesStayOrdered(m: Meter, sq: nat, now: real)
    requires Inv(m, now) && Arrive(m, sq, now).Some?
    ensures Ordered(Arrive(m, sq, now).value.holes)
  {
    ArriveKeepsInv(m, now, sq, now);
  }

  class Receiver {
    var nextSeq: nat
    var timeMean: real
    var timeVar: real
    var head: McHole?
    var tail: McHole?
    ghost var nodes: seq<McHole>
    ghost var Repr: set<McHole>

    ghost predicate Listed()
      reads this, Repr
    {
      Owned(nodes, Repr) && Linked(nodes) && head == NodeAt(nodes, 0)
    }

    /** The tail pointer means something only while the list is not empty. */
    ghost predicate Valid()
      reads this, Repr
    {
      Listed() && (head != null ==> tail == NodeAt(nodes, |nodes| - 1))
    }

    ghost function Value(): Meter
      reads this
    {
      Meter(nextSeq, Holes(nodes), timeMean, timeVar)
    }

    constructor ()
      ensures Valid() && fresh(Repr) && Value() == INITIAL
    {
      nextSeq, timeMean, timeVar, head, tail := 0, 0.0, 0.0, null, null;
      nodes, Repr := [], {};
    }

    method AddHole(h: Hole)
      requires Valid()
      modifies `head, `tail, `nodes, `Repr, Repr
      ensures Valid() && fresh(Repr - old(Repr))
      ensures Value() == old(Value()).(holes := old(Value()).holes + [h])
    {
      var n := new McHole(h);
      if head == null {
        head := n;
        tail := n;
      } else {
        tail.next := n;
        tail := n;
      }
      ghost var was := nodes;
      nodes, Repr := nodes + [n], Repr + {n};
      forall i | 0 <= i < |nodes| ensures InPlace(nodes, i) {
        if i < |was| { assert old(InPlace(nodes, i)); }
      }
      HolesWith(was, n);
    }

    /** One hole leaves the list. */
    method Unlink(cur: McHole, prev: McHole?, ghost i: nat)
      requires Listed() && i < |nodes| && cur == nodes[i] && prev == NodeAt(nodes, i - 1)
      modifies `head, `nodes, Repr
      ensures Listed() && nodes == RemovedAt(old(nodes), i)
    {
      assert InPlace(nodes, i);
      if prev == null {
        head := cur.next;
      } else {
        assert InPlace(nodes, i - 1);
        prev.next := cur.next;
      }
      ghost var was := nodes;
      nodes := RemovedAt(nodes, i);
      forall k | 0 <= k < |nodes| ensures InPlace(nodes, k) {
        assert old(InPlace(nodes, if k < i then k else k + 1));
      }
    }

    /** Drops the holes older than `from`, and counts what those before `to` hold. */
    method Sweep(from: real, to: real) returns (lost: int)
      requires Listed()
      modifies `head, `nodes, Repr
      ensures Listed() && nodes == Kept(old(nodes), from)
      ensures lost == Lost(Holes(old(nodes)), from, to)
    {
      lost := 0;
      var cur, prev := head, null;
      ghost var i := 0;
      assert Holes(nodes)[0..] == Holes(nodes);
      while cur != null
        invariant Listed() && 0 <= i <= |nodes| && cur == NodeAt(nodes, i) && prev == NodeAt(nodes, i - 1)
        invariant Kept(nodes, from) == Kept(old(nodes), from)
        invariant forall k :: 0 <= k < i ==> nodes[k].hole.time >= from
        invariant lost + Lost(Holes(nodes)[i..], from, to) == Lost(Holes(old(nodes)), from, to)
        decreases |nodes| - i
      {
        assert InPlace(nodes, i);
        LostAt(nodes, i, from, to);
        if cur.hole.time < from {
          KeptSkips(nodes, i, from);
          Unlink(cur, prev, i);
          if prev == null {
            cur := head;
          } else {
            assert InPlace(nodes, i - 1);
            cur := prev.next;
          }
        } else {
          if cur.hole.time < to {
            lost := lost + Size(cur.hole);
          }
          prev := cur;
          cur := cur.next;
          i := i + 1;
        }
      }
      AllKept(nodes, from);
    }

    /** Sequence numbers: a gap is a hole. */
    method Notice(sq: nat, now: real) returns (ok: bool)
      requires Valid()
      modifies `nextSeq, `head, `tail, `nodes, `Repr, Repr
      ensures Valid() && fresh(Repr - old(Repr))
      ensures Arrive(old(Value()), sq, now) == if ok then Some(Value()) else None
      ensures !ok ==> Value() == old(Value())
    {
      if nextSeq == 0 {
        nextSeq := sq + 1;
      } else if sq == nextSeq {
        nextSeq := nextSeq + 1;
      } else if sq > nextSeq {
        AddHole(Hole(nextSeq, sq - 1, now));
        nextSeq := sq + 1;
      } else {
        return false;
      }
      return true;
    }

    method UpdateVariance(delay: real)
      modifies `timeMean, `timeVar
      ensures Value() == Average(old(Value()), delay)
    {
      if timeMean == 0.0 {
        timeMean := delay;
      } else {
        timeMean := (7.0 * timeMean + delay) / 8.0;
      }
      var diff := delay - timeMean;
      if diff < 0.0 {
        diff := -diff;
      }
      timeVar := (7.0 * timeVar + diff) / 8.0;
    }

    /** The meter proper; none where the program aborts. The holes must be ordered, as they
        are in every run with a clock that does not run backwards. */
    method Measure(delay: real, sq: nat, maxRtt: real, ipg: real, now: real) returns (load: Option<Load>)
      requires Valid() && Inv(Value(), now)
      modifies this, Repr
      ensures Valid() && fresh(Repr - old(Repr))
      ensures load.None? <==> LossMeter(old(Value()), delay, sq, maxRtt, now).None?
      ensures load.Some? ==>
                var (m, lost) := LossMeter(old(Value()), delay, sq, maxRtt, now).value;
                Value() == m && load.value == Verdict(lost, maxRtt, ipg)
    {
      var ok := Notice(sq, now);
      if !ok {
        return None;
      }
      HolesStayOrdered(old(Value()), sq, now);
      var verdict := Update(delay, maxRtt, ipg, now);
      return Some(verdict);
    }

    /** The averages, and then the verdict. */
    method Update(delay: real, maxRtt: real, ipg: real, now: real) returns (load: Load)
      requires Valid() && Ordered(Value().holes)
      modifies `timeMean, `timeVar, `head, `nodes, Repr
      ensures Valid()
      ensures Value() == Weighed(Average(old(Value()), delay), maxRtt, now).0
      ensures load == Verdict(Weighed(Average(old(Value()), delay), maxRtt, now).1, maxRtt, ipg)
    {
      UpdateVariance(delay);
      load := Weigh(maxRtt, ipg, now);
    }

    /** The verdict on the holes in the window. */
    method Weigh(maxRtt: real, ipg: real, now: real) returns (load: Load)
      requires Valid() && Ordered(Holes(nodes))
      modifies `head, `nodes, Repr
      ensures Valid()
      ensures Value() == Weighed(old(Value()), maxRtt, now).0
      ensures load == Verdict(Weighed(old(Value()), maxRtt, now).1, maxRtt, ipg)
    {
      if head == null {
        NothingToWeigh(Value(), maxRtt, now);
        NothingLost(maxRtt, ipg);
        return Unloaded;
      }
      var lost := SweepWindow(maxRtt, now);
      load := Judge(lost, maxRtt, ipg);
    }

    method SweepWindow(maxRtt: real, now: real) returns (lost: int)
      requires Valid() && head != null && Ordered(Holes(nodes))
      modifies `head, `nodes, Repr
      ensures Valid() && (Value(), lost) == Weighed(old(Value()), maxRtt, now)
    {
      var to := now - 2.0 * timeVar;
      lost := SweepAll(to - maxRtt, to);
    }

    /** Of a list in order the sweep keeps the tail pointer right. */
    method SweepAll(from: real, to: real) returns (lost: int)
      requires Valid() && head != null && Ordered(Holes(nodes))
      modifies `head, `nodes, Repr
      ensures Valid() && Holes(nodes) == Recent(old(Holes(nodes)), from)
      ensures lost == Lost(old(Holes(nodes)), from, to)
    {
      SweepKeepsTail(from);
      lost := Sweep(from, to);
    }

    lemma SweepKeepsTail(from: real)
      requires Valid() && head != null && Ordered(Holes(nodes))
      ensures Kept(nodes, from) != [] ==> tail == Kept(nodes, from)[|Kept(nodes, from)| - 1]
      ensures Holes(Kept(nodes, from)) == Recent(Holes(nodes), from)
    {
      OrderedInTime(nodes);
      HolesKept(nodes, from);
      if Kept(nodes, from) != [] { LastIsKept(nodes, from); }
    }

    method Judge(lost: int, maxRtt: real, ipg: real) returns (load: Load)
      ensures load == Verdict(lost, maxRtt, ipg)
    {
      var pps := if ipg != 0.0 then maxRtt / ipg else 0.0;
      if pps * 15.0 / 100.0 < 2.0 {
        pps := 13.0;
      }
      if lost as real <= 5.0 * pps / 100.0 {
        return Unloaded;
      } else if lost as real <= 15.0 * pps / 100.0 {
        return Loaded;
      } else {
        return Congested;
      }
    }
  }

  lemma NothingToWeigh(m: Meter, maxRtt: real, now: real)
    requires m.holes == []
    ensures Weighed(m, maxRtt, now) == (m, 0)
  {
  }

  /** Without losses the verdict is no load. */
  lemma NothingLost(maxRtt: real, ipg: real)
    ensures Verdict(0, maxRtt, ipg) == Unloaded
  {
  }
}
