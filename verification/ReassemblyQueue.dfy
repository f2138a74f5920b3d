/**
 `BayReassemblyQueue`: the doubly linked list of segments, edited in place, and proved against
 the functions of `ReassemblyModel`.
 */
module ReassemblyQueue {
  import opened Basics
  import opened ReassemblyModel

  class SegInfo {
    var next: SegInfo?
    var prev: SegInfo?
    var startSeq: int
    var endSeq: int
    var flags: set<Flag>

    constructor (s: Segment)
      ensures next == null && prev == null && Value() == s
    {
      next, prev := null, null;
      startSeq, endSeq, flags := s.start, s.end, s.flags;
    }

    function Value(): Segment
      reads this
    {
      Segment(startSeq, endSeq, flags)
    }
  }

  /** The node at position `i`, or null outside the list. */
  function NodeAt(nodes: seq<SegInfo>, i: int): SegInfo? {
    if 0 <= i < |nodes| then nodes[i] else null
  }

  /** A node with its neighbours and its segment. */
  ghost predicate Stands(m: SegInfo, before: SegInfo?, after: SegInfo?, s: Segment)
    reads m
  {
    m.prev == before && m.next == after && m.Value() == s
  }

  /** The node at position `i` is linked to its neighbours and holds its segment. */
  ghost predicate InPlace(nodes: seq<SegInfo>, contents: seq<Segment>, i: int)
    requires 0 <= i < |nodes| == |contents|
    reads nodes
  {
    Stands(nodes[i], NodeAt(nodes, i - 1), NodeAt(nodes, i + 1), contents[i])
  }

  ghost predicate Linked(nodes: seq<SegInfo>, contents: seq<Segment>)
    reads nodes
  {
    && |nodes| == |contents|
    && Distinct(nodes)
    && forall i {:trigger InPlace(nodes, contents, i)} :: 0 <= i < |nodes| ==> InPlace(nodes, contents, i)
  }

  /** How `was[j]` must be linked once `n` stands at position `i`. */
  ghost predicate InPlaceWith(was: seq<SegInfo>, contents: seq<Segment>, n: SegInfo, i: nat, j: int)
    requires 0 <= j < |was| == |contents|
    reads was
  {
    Stands(was[j],
           if j == i then n else NodeAt(was, j - 1),
           if j == i - 1 then n else NodeAt(was, j + 1),
           contents[j])
  }

  lemma LinkedWith(was: seq<SegInfo>, contents: seq<Segment>, n: SegInfo, s: Segment, i: nat)
    requires |was| == |contents| && Distinct(was) && n !in was && i <= |was|
    requires Stands(n, NodeAt(was, i - 1), NodeAt(was, i), s)
    requires forall j {:trigger InPlaceWith(was, contents, n, i, j)} :: 0 <= j < |was| ==>
               InPlaceWith(was, contents, n, i, j)
    ensures Linked(InsertedAt(was, i, n), InsertedAt(contents, i, s))
  {
    var nodes, contents' := InsertedAt(was, i, n), InsertedAt(contents, i, s);
    forall k | 0 <= k < |nodes| ensures InPlace(nodes, contents', k) {
      if k != i { assert InPlaceWith(was, contents, n, i, if k < i then k else k - 1); }
    }
  }

  /** How `was[j]` must be linked once the node at position `i` is gone. */
  ghost predicate InPlaceWithout(was: seq<SegInfo>, contents: seq<Segment>, i: nat, j: int)
    requires 0 <= j < |was| == |contents|
    reads was
  {
    Stands(was[j],
           NodeAt(was, if j == i + 1 then i - 1 else j - 1),
           NodeAt(was, if j == i - 1 then i + 1 else j + 1),
           contents[j])
  }

  lemma LinkedWithout(was: seq<SegInfo>, contents: seq<Segment>, i: nat)
    requires |was| == |contents| && Distinct(was) && i < |was|
    requires forall j {:trigger InPlaceWithout(was, contents, i, j)} :: 0 <= j < |was| && j != i ==>
               InPlaceWithout(was, contents, i, j)
    ensures Linked(RemovedAt(was, i), RemovedAt(contents, i))
  {
    var nodes, contents' := RemovedAt(was, i), RemovedAt(contents, i);
    forall k | 0 <= k < |nodes| ensures InPlace(nodes, contents', k) {
      assert InPlaceWithout(was, contents, i, if k < i then k else k + 1);
    }
  }

  lemma OrAssociates(a: set<Flag>, b: set<Flag>, c: set<Flag>)
    ensures (a + b) + c == a + (b + c)
  {
  }

  function With(flags: set<Flag>, r: Result): Result {
    Result(r.queue, r.next, flags + r.flags)
  }

  lemma WithTwice(a: set<Flag>, b: set<Flag>, r: Result)
    ensures With(a, With(b, r)) == With(a + b, r)
  {
    OrAssociates(a, b, r.flags);
  }

  /** What is still to be consumed completes the result for `all`. */
  ghost predicate Completes(tiflags: set<Flag>, rest: seq<Segment>, all: seq<Segment>)
    requires all != []
  {
    rest != [] && With(tiflags, Consume(rest)) == Consume(all)
  }

  lemma ConsumeOne(tiflags: set<Flag>, rest: seq<Segment>, all: seq<Segment>)
    requires all != [] && Completes(tiflags, rest, all)
    ensures if |rest| > 1 && rest[0].end >= rest[1].start then Completes(tiflags + rest[0].flags, rest[1..], all)
            else Result(rest[1..], rest[0].end, tiflags + rest[0].flags) == Consume(all)
  {
    if |rest| > 1 && rest[0].end >= rest[1].start {
      assert Consume(rest) == With(rest[0].flags, Consume(rest[1..]));
      WithTwice(tiflags, rest[0].flags, Consume(rest[1..]));
    }
  }

  class Queue {
    var head: SegInfo?
    var tail: SegInfo?
    var rcvNxt: int
    /** The segments in the list, and the nodes that hold them, from head to tail. */
    ghost var contents: seq<Segment>
    ghost var nodes: seq<SegInfo>
    ghost var Repr: set<SegInfo>

    ghost predicate Valid()
      reads this, Repr
    {
      && Owned(nodes, Repr)
      && Linked(nodes, contents) && head == NodeAt(nodes, 0) && tail == NodeAt(nodes, |nodes| - 1)
    }

    constructor (next: int)
      ensures Valid() && fresh(Repr) && contents == [] && rcvNxt == next
    {
      head, tail, rcvNxt := null, null, next;
      contents, nodes, Repr := [], [], {};
    }

    /** Walks the list and lets go of every node. */
    method Clear()
      requires Valid()
      modifies this
      ensures Valid() && Repr == old(Repr) && contents == [] && rcvNxt == old(rcvNxt)
    {
      var p := head;
      ghost var i := 0;
      while p != null
        invariant 0 <= i <= |nodes| && p == NodeAt(nodes, i)
        invariant Valid() && Repr == old(Repr) && rcvNxt == old(rcvNxt)
        decreases |nodes| - i
      {
        assert InPlace(nodes, contents, i);
        var n := p.next;
        p := n;
        i := i + 1;
      }
      head, tail := null, null;
      contents, nodes := [], [];
    }

    /** The segment after the new one: the first that begins no earlier than `end`. */
    method SegmentAfter(end: int) returns (q: SegInfo?)
      requires Valid()
      ensures q == NodeAt(nodes, Position(contents, end))
    {
      q := head;
      ghost var i := 0;
      while q != null && end > q.startSeq
        invariant 0 <= i <= |nodes| && q == NodeAt(nodes, i)
        invariant forall k :: 0 <= k < i ==> contents[k].start < end
        decreases |nodes| - i
      {
        assert InPlace(nodes, contents, i);
        q := q.next;
        i := i + 1;
      }
      assert i < |nodes| ==> InPlace(nodes, contents, i);
    }

    /** Links `n` in after `p`, or at the head if there is no `p`. */
    method LinkAfter(p: SegInfo?, n: SegInfo, ghost i: nat)
      requires Valid() && head != null && n !in Repr
      requires i <= |nodes| && p == NodeAt(nodes, i - 1)
      modifies `head, `tail, `contents, `nodes, `Repr, n, Repr
      ensures Valid() && head != null && Repr == old(Repr) + {n}
      ensures contents == old(InsertedAt(contents, i, n.Value()))
    {
      SetLinks(p, n, i);
      LinkedWith(nodes, contents, n, n.Value(), i);
      nodes, contents := InsertedAt(nodes, i, n), InsertedAt(contents, i, n.Value());
      Repr := Repr + {n};
    }

    /** The pointers for that. */
    method SetLinks(p: SegInfo?, n: SegInfo, ghost i: nat)
      requires Valid() && head != null && n !in Repr
      requires i <= |nodes| && p == NodeAt(nodes, i - 1)
      modifies `head, `tail, n, Repr
      ensures Stands(n, NodeAt(nodes, i - 1), NodeAt(nodes, i), old(n.Value()))
      ensures forall j {:trigger InPlaceWith(nodes, contents, n, i, j)} :: 0 <= j < |nodes| ==>
                InPlaceWith(nodes, contents, n, i, j)
      ensures head == (if i == 0 then n else old(head))
      ensures tail == (if i == |nodes| then n else old(tail))
    {
      assert i > 0 ==> InPlace(nodes, contents, i - 1);
      assert i < |nodes| ==> InPlace(nodes, contents, i);
      if p == null {
        n.next := head;
        n.prev := null;
        head.prev := n;
        head := n;
      } else {
        n.next := p.next;
        if p.next != null {
          p.next.prev := n;
        }
        p.next := n;
        n.prev := p;
        if p == tail {
          tail := n;
        }
      }
      forall j | 0 <= j < |nodes| ensures InPlaceWith(nodes, contents, n, i, j) {
        assert old(InPlace(nodes, contents, j));
      }
    }

    /** Takes the node `q` out of the list. */
    method Unlink(q: SegInfo, ghost i: nat)
      requires Valid() && i < |nodes| && q == nodes[i]
      modifies `head, `tail, `contents, `nodes, Repr
      ensures Valid()
      ensures nodes == RemovedAt(old(nodes), i) && contents == RemovedAt(old(contents), i)
      ensures q.next == old(q.next) && q.Value() == old(q.Value())
    {
      PassOver(q, i);
      LinkedWithout(nodes, contents, i);
      nodes, contents := RemovedAt(nodes, i), RemovedAt(contents, i);
    }

    /** The pointers for that. */
    method PassOver(q: SegInfo, ghost i: nat)
      requires Valid() && i < |nodes| && q == nodes[i]
      modifies `head, `tail, Repr
      ensures forall j {:trigger InPlaceWithout(nodes, contents, i, j)} :: 0 <= j < |nodes| && j != i ==>
                InPlaceWithout(nodes, contents, i, j)
      ensures head == (if i == 0 then NodeAt(nodes, 1) else old(head))
      ensures tail == (if i == |nodes| - 1 then NodeAt(nodes, i - 1) else old(tail))
      ensures q.next == old(q.next) && q.Value() == old(q.Value())
    {
      assert InPlace(nodes, contents, i);
      if q.prev != null {
        q.prev.next := q.next;
      } else {
        head := q.next;
      }
      if q.next != null {
        q.next.prev := q.prev;
      } else {
        tail := q.prev;
      }
      forall j | 0 <= j < |nodes| && j != i ensures InPlaceWithout(nodes, contents, i, j) {
        assert old(InPlace(nodes, contents, j));
      }
    }

    /** Puts a new node for `s` in its place. */
    method InsertSegment(s: Segment)
      requires Valid()
      modifies `head, `tail, `contents, `nodes, `Repr, Repr
      ensures Valid() && head != null && fresh(Repr - old(Repr))
      ensures contents == Insert(old(contents), s)
    {
      var n := new SegInfo(s);
      if head == null {
        tail := n;
        head := tail;
        nodes, contents, Repr := [n], [s], Repr + {n};
      } else {
        var p: SegInfo?;
        assert InPlace(nodes, contents, |nodes| - 1);
        if tail.endSeq <= s.start {
          p := tail;
        } else {
          var q := SegmentAfter(s.end);
          if q == null {
            p := tail;
          } else {
            assert InPlace(nodes, contents, Position(contents, s.end));
            p := q.prev;
          }
        }
        LinkAfter(p, n, InsertAt(contents, s));
      }
    }

    /** Consumes segments from the head up to the first gap. */
    method ConsumeRun() returns (tiflags: set<Flag>)
      requires Valid() && head != null
      modifies `head, `tail, `contents, `nodes, `rcvNxt, Repr
      ensures Valid()
      ensures Result(contents, rcvNxt, tiflags) == Consume(old(contents))
    {
      tiflags := {};
      assert {} + Consume(contents).flags == Consume(contents).flags;
      var p := head;
      while p != null
        invariant Valid() && p == head
        invariant p != null ==> Completes(tiflags, contents, old(contents))
        invariant p == null ==> Result(contents, rcvNxt, tiflags) == Consume(old(contents))
        decreases |nodes|
      {
        assert InPlace(nodes, contents, 0);
        ConsumeOne(tiflags, contents, old(contents));
        assert RemovedAt(contents, 0) == contents[1..];
        rcvNxt := p.endSeq;
        tiflags := tiflags + p.flags;
        var q := p;
        Unlink(q, 0);
        assert |nodes| > 0 ==> InPlace(nodes, contents, 0);
        if q.next != null && q.endSeq < q.next.startSeq {
          break;
        }
        p := p.next;
      }
    }

    /** `add`: queues the segment, and if the head is next in sequence, consumes what it
        can. */
    method Add(s: Segment) returns (tiflags: set<Flag>)
      requires Valid()
      modifies this, Repr
      ensures Valid() && fresh(Repr - old(Repr))
      ensures Result(contents, rcvNxt, tiflags) == ReassemblyModel.Add(old(contents), old(rcvNxt), s)
    {
      InsertSegment(s);
      assert InPlace(nodes, contents, 0);
      if head.startSeq > rcvNxt {
        return {};
      }
      tiflags := ConsumeRun();
    }
  }

  /** The part of the receiver that takes in data without a FIN. */
  class Receiver {
    const rq: Queue

    constructor (next: int)
      ensures rq.Valid() && fresh(rq) && fresh(rq.Repr) && rq.contents == [] && rq.rcvNxt == next
    {
      rq := new Queue(next);
    }

    method TakeData(s: Segment)
      requires rq.Valid()
      modifies rq, rq.Repr
      ensures rq.Valid() && fresh(rq.Repr - old(rq.Repr))
      ensures (rq.contents, rq.rcvNxt) == Receive(old(rq.contents), old(rq.rcvNxt), s)
    {
      var start, dataLen := s.start, s.end - s.start;
      var toDrop := rq.rcvNxt - start;
      if toDrop > 0 {
        if toDrop >= dataLen {
          toDrop := dataLen;
        }
        start := start + toDrop;
        dataLen := dataLen - toDrop;
      }
      if dataLen > 0 {
        if start == rq.rcvNxt && rq.head == null {
          rq.rcvNxt := rq.rcvNxt + dataLen;
        } else {
          var _ := rq.Add(Segment(start, start + (s.end - s.start), s.flags));
        }
      }
    }
  }
}
