/**
 `aodv_rqueue`: packets linked through their `next` fields, with head, tail and length, edited
 in place and proved against the functions of `SendBufferModel`.
 */
module SendBuffer {
  import opened Basics
  import opened SendBufferModel

  class Node {
    var next: Node?
    const id: nat
    const dst: nat
    var ts: real

    constructor (p: Packet)
      ensures Value() == p
    {
      next, id, dst, ts := null, p.id, p.dst, p.ts;
    }

    function Value(): Packet
      reads this
    {
      Packet(id, dst, ts)
    }
  }

  function NodeAt(nodes: seq<Node>, i: int): Node? {
    if 0 <= i < |nodes| then nodes[i] else null
  }

  ghost predicate Stands(m: Node, after: Node?, p: Packet)
    reads m
  {
    m.next == after && m.Value() == p
  }

  /** The node at position `i` is linked to the next one and holds its packet. */
  ghost predicate InPlace(nodes: seq<Node>, contents: seq<Packet>, i: int)
    requires 0 <= i < |nodes| == |contents|
    reads nodes
  {
    Stands(nodes[i], NodeAt(nodes, i + 1), contents[i])
  }

  ghost predicate Linked(nodes: seq<Node>, contents: seq<Packet>)
    reads nodes
  {
    && |nodes| == |contents|
    && Distinct(nodes)
    && forall i {:trigger InPlace(nodes, contents, i)} :: 0 <= i < |nodes| ==> InPlace(nodes, contents, i)
  }

  /** How `was[j]` must be linked once the node at position `i` is gone. */
  ghost predicate InPlaceWithout(was: seq<Node>, contents: seq<Packet>, i: nat, j: int)
    requires 0 <= j < |was| == |contents|
    reads was
  {
    Stands(was[j], NodeAt(was, if j == i - 1 then i + 1 else j + 1), contents[j])
  }

  lemma LinkedWithout(was: seq<Node>, contents: seq<Packet>, i: nat)
    requires |was| == |contents| && Distinct(was) && i < |was|
    requires forall j {:trigger InPlaceWithout(was, contents, i, j)} :: 0 <= j < |was| && j != i ==>
               InPlaceWithout(was, contents, i, j)
    ensures Linked(RemovedAt(was, i), RemovedAt(contents, i))
  {
    var nodes, contents' := RemovedAt(was, i), RemovedAt(contents, i);
    forall k | 0 <= k < |nodes| ensures InPlace(nodes, contents', k) {
      assert InPlaceWithout(was, contents, i, if k < i then k else k + 1);
    }
  }

  class Queue {
    var head: Node?
    var tail: Node?
    var len: nat
    const limit: nat
    const timeout: real
    /** The packets in the buffer, and the nodes that hold them, from head to tail. */
    ghost var contents: seq<Packet>
    ghost var nodes: seq<Node>
    ghost var Repr: set<Node>

    ghost predicate Valid()
      reads this, Repr
    {
      && Owned(nodes, Repr)
      && Linked(nodes, contents)
      && head == NodeAt(nodes, 0) && tail == NodeAt(nodes, |nodes| - 1) && len == |nodes|
    }

    constructor (maxLen: nat, keep: real)
      requires maxLen > 0
      ensures Valid() && fresh(Repr) && contents == [] && limit == maxLen && timeout == keep
    {
      head, tail, len, limit, timeout := null, null, 0, maxLen, keep;
      contents, nodes, Repr := [], [], {};
    }

    /** The walk over the list ends at the tail after `len` packets. */
    method VerifyQueue() returns (ok: bool)
      requires Valid()
      ensures ok
    {
      var p, prev, cnt := head, null, 0;
      while p != null
        invariant 0 <= cnt <= |nodes| && p == NodeAt(nodes, cnt) && prev == NodeAt(nodes, cnt - 1)
        decreases |nodes| - cnt
      {
        assert InPlace(nodes, contents, cnt);
        cnt := cnt + 1;
        prev := p;
        p := p.next;
      }
      ok := cnt == len && prev == tail;
    }

    method RemoveHead() returns (p: Node?)
      requires Valid()
      modifies `head, `tail, `len, `contents, `nodes
      ensures Valid()
      ensures old(contents) == [] ==> p == null && contents == []
      ensures old(contents) != [] ==>
                p != null && p.Value() == old(contents)[0] && contents == old(contents)[1..]
    {
      p := head;
      if head == tail {
        if head != null {
          assert InPlace(nodes, contents, 0);
        }
        head, tail := null, null;
      } else {
        assert InPlace(nodes, contents, 0);
        head := head.next;
      }
      if p != null {
        len := len - 1;
        forall j | 0 <= j < |nodes| && j != 0 ensures InPlaceWithout(nodes, contents, 0, j) {
          assert old(InPlace(nodes, contents, j));
        }
        LinkedWithout(nodes, contents, 0);
        nodes, contents := RemovedAt(nodes, 0), RemovedAt(contents, 0);
        assert contents == old(contents)[1..];
      }
    }

    /** Takes out the node `p`, which follows `prev`. */
    method Remove(p: Node, prev: Node?, ghost i: nat)
      requires Valid() && i < |nodes| && p == nodes[i] && prev == NodeAt(nodes, i - 1)
      modifies `head, `tail, `len, `contents, `nodes, Repr
      ensures Valid() && contents == RemovedAt(old(contents), i)
      ensures p.Value() == old(p.Value())
    {
      assert InPlace(nodes, contents, i);
      if p == head {
        var _ := RemoveHead();
        assert contents == RemovedAt(old(contents), 0);
        return;
      }
      assert i > 0 && InPlace(nodes, contents, i - 1);
      if p == tail {
        prev.next := null;
        tail := prev;
      } else {
        prev.next := p.next;
      }
      len := len - 1;
      forall j | 0 <= j < |nodes| && j != i ensures InPlaceWithout(nodes, contents, i, j) {
        assert old(InPlace(nodes, contents, j));
      }
      LinkedWithout(nodes, contents, i);
      nodes, contents := RemovedAt(nodes, i), RemovedAt(contents, i);
    }

    /** The first stale packet, and the one before it. */
    method FindAgedPacket(now: real) returns (p: Node?, prev: Node?, ghost i: nat)
      requires Valid()
      ensures i <= |nodes| && p == NodeAt(nodes, i) && prev == NodeAt(nodes, i - 1)
      ensures forall k :: 0 <= k < i ==> !Aged(contents[k], now)
      ensures i < |nodes| ==> Aged(contents[i], now)
    {
      p, prev, i := head, null, 0;
      while p != null
        invariant 0 <= i <= |nodes| && p == NodeAt(nodes, i) && prev == NodeAt(nodes, i - 1)
        invariant forall k :: 0 <= k < i ==> !Aged(contents[k], now)
        decreases |nodes| - i
      {
        assert InPlace(nodes, contents, i);
        if p.ts < now {
          return;
        }
        prev := p;
        p := p.next;
        i := i + 1;
      }
    }

    /** Scans again from the head after each removal. */
    method PurgeStale(now: real)
      requires Valid()
      modifies `head, `tail, `len, `contents, `nodes, Repr
      ensures Valid() && contents == Purge(old(contents), now)
    {
      var p, prev, i := FindAgedPacket(now);
      while p != null
        invariant Valid() && Purge(contents, now) == Purge(old(contents), now)
        invariant 0 <= i <= |nodes| && p == NodeAt(nodes, i) && prev == NodeAt(nodes, i - 1)
        invariant forall k :: 0 <= k < i ==> !Aged(contents[k], now)
        invariant i < |nodes| ==> Aged(contents[i], now)
        decreases |nodes|
      {
        PurgeSkips(contents, i, now);
        Remove(p, prev, i);
        p, prev, i := FindAgedPacket(now);
      }
      NothingToPurge(contents, now);
    }

    method Append(p: Node)
      requires Valid() && p !in Repr
      modifies `head, `tail, `len, `contents, `nodes, `Repr, p, Repr
      ensures Valid() && Repr == old(Repr) + {p} && contents == old(contents) + [old(p.Value())]
    {
      p.next := null;
      assert |nodes| > 0 ==> old(InPlace(nodes, contents, |nodes| - 1));
      if head == null {
        head := p;
        tail := p;
      } else {
        tail.next := p;
        tail := p;
      }
      len := len + 1;
      ghost var was, before := nodes, contents;
      nodes, contents := nodes + [p], contents + [p.Value()];
      Repr := Repr + {p};
      forall j | 0 <= j < |nodes| ensures InPlace(nodes, contents, j) {
        if j < |was| { assert old(InPlace(nodes, contents, j)); }
      }
    }

    method Enqueue(p: Node, now: real)
      requires Valid() && p !in Repr
      modifies this, p, Repr
      ensures Valid() && Repr == old(Repr) + {p}
      ensures contents == Enque(old(contents), old(p.Value()), now, limit, timeout)
    {
      PurgeStale(now);
      p.ts := now + timeout;
      if len == limit {
        var _ := RemoveHead();
      }
      Append(p);
    }

    method Dequeue(now: real) returns (p: Node?)
      requires Valid()
      modifies this, Repr
      ensures Valid()
      ensures (contents, if p == null then None else Some(p.Value())) == Deque(old(contents), now)
    {
      PurgeStale(now);
      p := RemoveHead();
    }

    method FindPacketWithDst(dst: nat) returns (p: Node?, prev: Node?)
      requires Valid()
      ensures p == NodeAt(nodes, FirstFor(contents, dst)) && prev == NodeAt(nodes, FirstFor(contents, dst) - 1)
    {
      p, prev := head, null;
      ghost var i := 0;
      while p != null
        invariant 0 <= i <= |nodes| && p == NodeAt(nodes, i) && prev == NodeAt(nodes, i - 1)
        invariant forall k :: 0 <= k < i ==> contents[k].dst != dst
        decreases |nodes| - i
      {
        assert InPlace(nodes, contents, i);
        if p.dst == dst {
          return;
        }
        prev := p;
        p := p.next;
        i := i + 1;
      }
    }

    method DequeueFor(dst: nat, now: real) returns (p: Node?)
      requires Valid()
      modifies this, Repr
      ensures Valid()
      ensures (contents, if p == null then None else Some(p.Value())) == DequeFor(old(contents), dst, now)
    {
      PurgeStale(now);
      p := TakeFor(dst);
    }

    /** Takes out the first packet for `dst`, if there is one. */
    method TakeFor(dst: nat) returns (p: Node?)
      requires Valid()
      modifies this, Repr
      ensures Valid()
      ensures FirstFor(old(contents), dst) == |old(contents)| ==> p == null && contents == old(contents)
      ensures FirstFor(old(contents), dst) < |old(contents)| ==>
                && p != null && p.Value() == old(contents)[FirstFor(old(contents), dst)]
                && contents == RemovedAt(old(contents), FirstFor(old(contents), dst))
    {
      var prev;
      p, prev := FindPacketWithDst(dst);
      if p == null {
        return;
      }
      assert InPlace(nodes, contents, FirstFor(contents, dst));
      Remove(p, prev, FirstFor(contents, dst));
    }
  }
}
