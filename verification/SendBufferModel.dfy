/**
 The buffer of `aodv/aodv_rqueue.cc` for packets that wait for a route, as a bounded sequence:
 what its operations do, and why the scanning purge does what purging from the head would.
 */
module SendBufferModel {
  import opened Basics

  /** `ts` is the time after which the packet is stale. */
  datatype Packet = Packet(id: nat, dst: nat, ts: real)

  predicate Aged(p: Packet, now: real) {
    p.ts < now
  }

  // ---------- The operations ----------

  /** What is left when every stale packet, wherever it stands, has been removed. */
  function Purge(q: seq<Packet>, now: real): (r: seq<Packet>)
    ensures |r| <= |q|
    ensures forall p :: p in r <==> p in q && !Aged(p, now)
  {
    if q == [] then []
    else (if Aged(q[0], now) then [] else [q[0]]) + Purge(q[1..], now)
  }

  /** The simpler purge that the source keeps in a comment: only from the head. */
  function HeadPurge(q: seq<Packet>, now: real): seq<Packet> {
    if q == [] || !Aged(q[0], now) then q else HeadPurge(q[1..], now)
  }

  /** The first packet for `dst`, or the length of the queue. */
  function FirstFor(q: seq<Packet>, dst: nat): (i: nat)
    ensures i <= |q|
    ensures forall k :: 0 <= k < i ==> q[k].dst != dst
    ensures i < |q| ==> q[i].dst == dst
  {
    if q == [] || q[0].dst == dst then 0 else 1 + FirstFor(q[1..], dst)
  }

  /** A full buffer gives up its oldest packet. */
  function Enque(q: seq<Packet>, p: Packet, now: real, limit: nat, timeout: real): seq<Packet> {
    var q' := Purge(q, now);
    (if |q'| == limit && q' != [] then q'[1..] else q') + [p.(ts := now + timeout)]
  }

  function Deque(q: seq<Packet>, now: real): (seq<Packet>, Option<Packet>) {
    var q' := Purge(q, now);
    if q' == [] then ([], None) else (q'[1..], Some(q'[0]))
  }

  function DequeFor(q: seq<Packet>, dst: nat, now: real): (seq<Packet>, Option<Packet>) {
    var q' := Purge(q, now);
    var i := FirstFor(q', dst);
    if i == |q'| then (q', None) else (q'[..i] + q'[i + 1..], Some(q'[i]))
  }

  // ---------- Purging ----------

  ghost predicate Sorted(q: seq<Packet>) {
    forall i, j :: 0 <= i < j < |q| ==> q[i].ts <= q[j].ts
  }

  /** No stale packet stands behind one that is not. */
  ghost predicate StaleFirst(q: seq<Packet>, now: real) {
    forall i, j :: 0 <= i < j < |q| && Aged(q[j], now) ==> Aged(q[i], now)
  }

  /** The scanning purge leaves the same packets as the purge from the head exactly when no
      stale packet stands behind a fresh one. */
  lemma {:induction false} PurgeIsHeadPurge(q: seq<Packet>, now: real)
    ensures Purge(q, now) == HeadPurge(q, now) <==> StaleFirst(q, now)
    decreases |q|
  {
    if q != [] {
      PurgeIsHeadPurge(q[1..], now);
      if Aged(q[0], now) {
        assert StaleFirst(q, now) <==> StaleFirst(q[1..], now);
      } else {
        assert HeadPurge(q, now) == q;
        if StaleFirst(q, now) {
          NothingToPurge(q, now);
        } else {
          var i, j :| 0 <= i < j < |q| && Aged(q[j], now) && !Aged(q[i], now);
          assert q[j] in q && q[j] !in Purge(q, now);
        }
      }
    }
  }

  lemma {:induction false} NothingToPurge(q: seq<Packet>, now: real)
    requires forall k :: 0 <= k < |q| ==> !Aged(q[k], now)
    ensures Purge(q, now) == q
    decreases |q|
  {
    if q != [] { NothingToPurge(q[1..], now); }
  }

  /** Removing the stale packets one by one, in any order, ends with the same rest. */
  lemma {:induction false} PurgeSkips(q: seq<Packet>, k: nat, now: real)
    requires k < |q| && Aged(q[k], now)
    ensures Purge(q[..k] + q[k + 1..], now) == Purge(q, now)
    decreases k
  {
    if k == 0 {
      assert q[..0] + q[1..] == q[1..];
    } else {
      PurgeSkips(q[1..], k - 1, now);
      assert (q[..k] + q[k + 1..])[1..] == q[1..][..k - 1] + q[1..][k..];
    }
  }

  lemma {:induction false} PurgeKeepsSorted(q: seq<Packet>, now: real)
    requires Sorted(q)
    ensures Sorted(Purge(q, now))
    decreases |q|
  {
    if q != [] {
      PurgeKeepsSorted(q[1..], now);
      var rest := Purge(q[1..], now);
      forall k | 0 <= k < |rest| ensures q[0].ts <= rest[k].ts {
        assert rest[k] in q[1..];
      }
    }
  }

  // ---------- Runs ----------

  datatype Event = Enqueued(p: Packet, at: real) | Dequeued(at: real) | DequeuedFor(dst: nat, at: real)

  function Step(q: seq<Packet>, ev: Event, limit: nat, timeout: real): seq<Packet> {
    match ev
    case Enqueued(p, at) => Enque(q, p, at, limit, timeout)
    case Dequeued(at) => Deque(q, at).0
    case DequeuedFor(dst, at) => DequeFor(q, dst, at).0
  }

  function Run(evs: seq<Event>, limit: nat, timeout: real): seq<Packet> {
    if evs == [] then []
    else Step(Run(evs[..|evs| - 1], limit, timeout), evs[|evs| - 1], limit, timeout)
  }

  ghost predicate ClockRuns(evs: seq<Event>) {
    forall i, j :: 0 <= i < j < |evs| ==> evs[i].at <= evs[j].at
  }

  /** Time stamps are sorted, none is later than a packet queued now would get, and the limit
      is kept. */
  ghost predicate Inv(q: seq<Packet>, now: real, limit: nat, timeout: real) {
    && Sorted(q)
    && (forall k :: 0 <= k < |q| ==> q[k].ts <= now + timeout)
    && |q| <= limit
  }

  lemma PurgeKeepsInv(q: seq<Packet>, now: real, at: real, limit: nat, timeout: real)
    requires Inv(q, now, limit, timeout) && now <= at
    ensures Inv(Purge(q, at), at, limit, timeout)
  {
    PurgeKeepsSorted(q, at);
    var q' := Purge(q, at);
    forall k | 0 <= k < |q'| ensures q'[k].ts <= at + timeout {
      assert q'[k] in q;
    }
  }

  lemma RemovalKeepsInv(q: seq<Packet>, i: nat, now: real, limit: nat, timeout: real)
    requires Inv(q, now, limit, timeout) && i < |q|
    ensures Inv(q[..i] + q[i + 1..], now, limit, timeout)
  {
  }

  lemma HeadRemovalKeepsInv(q: seq<Packet>, now: real, limit: nat, timeout: real)
    requires Inv(q, now, limit, timeout) && q != []
    ensures Inv(q[1..], now, limit, timeout)
  {
    RemovalKeepsInv(q, 0, now, limit, timeout);
    assert q[..0] + q[1..] == q[1..];
  }

  lemma AppendKeepsInv(q: seq<Packet>, p: Packet, now: real, limit: nat, timeout: real)
    requires Inv(q, now, limit, timeout) && |q| < limit
    ensures Inv(q + [p.(ts := now + timeout)], now, limit, timeout)
  {
  }

  lemma EnqueKeepsInv(q: seq<Packet>, p: Packet, now: real, at: real, limit: nat, timeout: real)
    requires limit > 0 && Inv(q, now, limit, timeout) && now <= at
    ensures Inv(Enque(q, p, at, limit, timeout), at, limit, timeout)
  {
    var q' := Purge(q, at);
    PurgeKeepsInv(q, now, at, limit, timeout);
    if |q'| == limit {
      HeadRemovalKeepsInv(q', at, limit, timeout);
      AppendKeepsInv(q'[1..], p, at, limit, timeout);
    } else {
      AppendKeepsInv(q', p, at, limit, timeout);
    }
  }

  lemma StepKeepsInv(q: seq<Packet>, now: real, ev: Event, limit: nat, timeout: real)
    requires limit > 0 && Inv(q, now, limit, timeout) && now <= ev.at
    ensures Inv(Step(q, ev, limit, timeout), ev.at, limit, timeout)
  {
    var q' := Purge(q, ev.at);
    PurgeKeepsInv(q, now, ev.at, limit, timeout);
    match ev {
      case Enqueued(p, at) => EnqueKeepsInv(q, p, now, at, limit, timeout);
      case Dequeued(at) =>
        if q' != [] { HeadRemovalKeepsInv(q', at, limit, timeout); }
      case DequeuedFor(dst, at) =>
        var i := FirstFor(q', dst);
        if i < |q'| { RemovalKeepsInv(q', i, at, limit, timeout); }
    }
  }

  lemma {:induction false} RunKeepsInv(evs: seq<Event>, limit: nat, timeout: real)
    requires limit > 0 && ClockRuns(evs)
    ensures |evs| > 0 ==> Inv(Run(evs, limit, timeout), evs[|evs| - 1].at, limit, timeout)
    ensures evs == [] ==> Run(evs, limit, timeout) == []
    decreases |evs|
  {
    if evs != [] {
      var before, ev := evs[..|evs| - 1], evs[|evs| - 1];
      RunKeepsInv(before, limit, timeout);
      StepKeepsInv(Run(before, limit, timeout), if before == [] then ev.at else before[|before| - 1].at, ev, limit, timeout);
    }
  }

  /** With a clock that does not run backwards, in every run: the buffer keeps its limit, and
      whenever it is purged next, purging from the head alone would do. */
  lemma HeadPurgeWouldDo(evs: seq<Event>, limit: nat, timeout: real, now: real)
    requires limit > 0 && ClockRuns(evs)
    ensures |Run(evs, limit, timeout)| <= limit
    ensures Sorted(Run(evs, limit, timeout))
    ensures Purge(Run(evs, limit, timeout), now) == HeadPurge(Run(evs, limit, timeout), now)
  {
    RunKeepsInv(evs, limit, timeout);
    PurgeIsHeadPurge(Run(evs, limit, timeout), now);
  }

  /** `deque(dst)` takes the oldest fresh packet for `dst`, and none exactly if there is
      none; the others stay as they are, in order. */
  lemma DequeForTakesOldest(q: seq<Packet>, dst: nat, now: real)
    ensures var (rest, out) := DequeFor(q, dst, now);
            && (out == None <==> forall p :: p in q && p.dst == dst ==> Aged(p, now))
            && (out == None ==> rest == Purge(q, now))
            && (out.Some? ==>
                  && out.value.dst == dst && !Aged(out.value, now)
                  && exists i: nat :: i < |Purge(q, now)|
                       && Purge(q, now) == rest[..i] + [out.value] + rest[i..]
                       && forall k :: 0 <= k < i ==> rest[k].dst != dst)
  {
    var q' := Purge(q, now);
    var i := FirstFor(q', dst);
    if i < |q'| {
      var rest := q'[..i] + q'[i + 1..];
      assert q'[i] in q';
      assert rest[..i] == q'[..i] && rest[i..] == q'[i + 1..];
      assert q' == rest[..i] + [q'[i]] + rest[i..];
    } else {
      assert forall p :: p in q' ==> p.dst != dst;
    }
  }

  // ---------- Who is kept and who goes ----------

  predicate Subsequence(a: seq<Packet>, b: seq<Packet>) {
    a == [] || (b != [] && if a[0] == b[0] then Subsequence(a[1..], b[1..]) else Subsequence(a, b[1..]))
  }

  /** `r` has exactly the packets of `q` that are not stale, in order. */
  ghost predicate Fresh(q: seq<Packet>, r: seq<Packet>, now: real) {
    && Subsequence(r, q)
    && forall p :: multiset(r)[p] == if p.ts < now then 0 else multiset(q)[p]
  }

  lemma {:induction false} PurgedIsFresh(q: seq<Packet>, now: real)
    ensures Fresh(q, Purge(q, now), now)
  {
    if q != [] {
      var r, rest := Purge(q, now), Purge(q[1..], now);
      PurgedIsFresh(q[1..], now);
      assert q == [q[0]] + q[1..];
      if Aged(q[0], now) {
        assert r == rest;
        assert r != [] ==> r[0] in r;
      } else {
        assert r == [q[0]] + rest;
        assert r[1..] == rest;
      }
    }
  }

  /** A packet that is queued comes last, with the time at which it will be stale. Before it
      are the fresh packets, in order, of which a full buffer gives up the oldest. */
  lemma NewestIsKept(q: seq<Packet>, p: Packet, at: real, limit: nat, timeout: real)
    requires |q| <= limit && limit > 0
    ensures exists left ::
              && Fresh(q, left, at)
              && Step(q, Enqueued(p, at), limit, timeout)
                 == (if |left| < limit then left else left[1..]) + [Packet(p.id, p.dst, at + timeout)]
  {
    PurgedIsFresh(q, at);
  }

  /** What `deque` hands out is the oldest fresh packet, if there is any; the rest stays. */
  lemma OldestIsHandedOut(q: seq<Packet>, at: real)
    ensures exists left ::
              && Fresh(q, left, at)
              && (left == [] ==> Deque(q, at) == ([], None))
              && (left != [] ==> Deque(q, at) == (left[1..], Some(left[0])))
  {
    PurgedIsFresh(q, at);
  }

  /** The packet that the event hands out. */
  function Out(q: seq<Packet>, ev: Event): Option<Packet> {
    match ev
    case Enqueued(_, _) => None
    case Dequeued(at) => Deque(q, at).1
    case DequeuedFor(dst, at) => DequeFor(q, dst, at).1
  }

  /** `p` is in the queue with at most `behind` packets behind it. */
  ghost predicate Queued(q: seq<Packet>, p: Packet, behind: nat) {
    exists k :: 0 <= k < |q| && q[k] == p && |q| - 1 - k <= behind
  }

  lemma {:induction false} PurgeJoins(a: seq<Packet>, b: seq<Packet>, now: real)
    ensures Purge(a + b, now) == Purge(a, now) + Purge(b, now)
  {
    if a == [] {
      assert a + b == b;
    } else {
      assert (a + b)[1..] == a[1..] + b;
      PurgeJoins(a[1..], b, now);
    }
  }

  lemma QueuedStaysFresh(q: seq<Packet>, p: Packet, behind: nat, now: real)
    requires Queued(q, p, behind) && !Aged(p, now)
    ensures Queued(Purge(q, now), p, behind)
  {
    var k :| 0 <= k < |q| && q[k] == p && |q| - 1 - k <= behind;
    var front := q[..k] + [p];
    assert q == front + q[k + 1..];
    PurgeJoins(front, q[k + 1..], now);
    PurgeJoins(q[..k], [p], now);
    assert Purge([p], now) == [p];
    var j := |Purge(q[..k], now)|;
    assert Purge(q, now)[j] == p;
  }

  /** Without one other packet, `p` has no more packets behind it. */
  lemma QueuedStaysWithout(q: seq<Packet>, p: Packet, behind: nat, i: nat)
    requires Queued(q, p, behind) && i < |q| && q[i] != p
    ensures Queued(q[..i] + q[i + 1..], p, behind)
  {
    var k :| 0 <= k < |q| && q[k] == p && |q| - 1 - k <= behind;
    assert (q[..i] + q[i + 1..])[if i < k then k - 1 else k] == p;
  }

  lemma QueuedStaysBefore(q: seq<Packet>, p: Packet, behind: nat, r: Packet)
    requires Queued(q, p, behind)
    ensures Queued(q + [r], p, behind + 1)
  {
    var k :| 0 <= k < |q| && q[k] == p && |q| - 1 - k <= behind;
    assert (q + [r])[k] == p;
  }

  lemma QueuedStaysInFull(q: seq<Packet>, p: Packet, behind: nat)
    requires Queued(q, p, behind) && behind + 1 < |q|
    ensures Queued(q[1..], p, behind)
  {
    var k :| 0 <= k < |q| && q[k] == p && |q| - 1 - k <= behind;
    assert q[1..][k - 1] == p;
  }

  lemma QueuedStaysOnEnque(q: seq<Packet>, p: Packet, behind: nat, r: Packet, at: real, limit: nat, timeout: real)
    requires Queued(Purge(q, at), p, behind) && behind + 1 < limit
    ensures Queued(Enque(q, r, at, limit, timeout), p, behind + 1)
  {
    var q' := Purge(q, at);
    if |q'| == limit {
      QueuedStaysInFull(q', p, behind);
      QueuedStaysBefore(q'[1..], p, behind, r.(ts := at + timeout));
    } else {
      QueuedStaysBefore(q', p, behind, r.(ts := at + timeout));
    }
  }

  lemma QueuedStaysOnDeque(q: seq<Packet>, p: Packet, behind: nat, at: real)
    requires Queued(Purge(q, at), p, behind) && Deque(q, at).1 != Some(p)
    ensures Queued(Deque(q, at).0, p, behind)
  {
    var q' := Purge(q, at);
    assert q'[..0] + q'[1..] == q'[1..];
    QueuedStaysWithout(q', p, behind, 0);
  }

  lemma QueuedStaysOnDequeFor(q: seq<Packet>, p: Packet, behind: nat, dst: nat, at: real)
    requires Queued(Purge(q, at), p, behind) && DequeFor(q, dst, at).1 != Some(p)
    ensures Queued(DequeFor(q, dst, at).0, p, behind)
  {
    var q' := Purge(q, at);
    var i := FirstFor(q', dst);
    if i < |q'| { QueuedStaysWithout(q', p, behind, i); }
  }

  lemma QueuedStays(q: seq<Packet>, p: Packet, behind: nat, ev: Event, limit: nat, timeout: real)
    requires Queued(q, p, behind) && p.ts >= ev.at && Out(q, ev) != Some(p)
    requires ev.Enqueued? ==> behind + 1 < limit
    ensures Queued(Step(q, ev, limit, timeout), p, if ev.Enqueued? then behind + 1 else behind)
  {
    QueuedStaysFresh(q, p, behind, ev.at);
    match ev {
      case Enqueued(r, at) => QueuedStaysOnEnque(q, p, behind, r, at, limit, timeout);
      case Dequeued(at) => QueuedStaysOnDeque(q, p, behind, at);
      case DequeuedFor(dst, at) => QueuedStaysOnDequeFor(q, p, behind, dst, at);
    }
  }

  /** How many packets were queued by the events from `i` up to `j`. */
  function Later(evs: seq<Event>, i: nat, j: nat): nat
    requires i <= j <= |evs|
  {
    if i == j then 0 else Later(evs, i, j - 1) + if evs[j - 1].Enqueued? then 1 else 0
  }

  /** The packet as it is queued by event `i`. */
  function AsQueued(evs: seq<Event>, i: nat, timeout: real): Packet
    requires i < |evs| && evs[i].Enqueued?
  {
    Packet(evs[i].p.id, evs[i].p.dst, evs[i].at + timeout)
  }

  /** The event neither finds the packet stale nor hands it out. */
  ghost predicate Spares(evs: seq<Event>, k: nat, p: Packet, limit: nat, timeout: real)
    requires k < |evs|
  {
    evs[k].at <= p.ts && Out(Run(evs[..k], limit, timeout), evs[k]) != Some(p)
  }

  lemma RunOne(evs: seq<Event>, j: nat, limit: nat, timeout: real)
    requires 0 < j <= |evs|
    ensures Run(evs[..j], limit, timeout) == Step(Run(evs[..j - 1], limit, timeout), evs[j - 1], limit, timeout)
  {
    assert evs[..j][..j - 1] == evs[..j - 1];
  }

  lemma {:induction false} KeepsPlace(evs: seq<Event>, i: nat, j: nat, p: Packet, limit: nat, timeout: real)
    requires limit > 0 && i < j <= |evs| && evs[i].Enqueued? && p == AsQueued(evs, i, timeout)
    requires Later(evs, i + 1, j) < limit && forall k :: i < k < j ==> Spares(evs, k, p, limit, timeout)
    ensures Queued(Run(evs[..j], limit, timeout), p, Later(evs, i + 1, j))
    decreases j
  {
    RunOne(evs, j, limit, timeout);
    if j == i + 1 {
      var r := Run(evs[..j], limit, timeout);
      assert r[|r| - 1] == p;
    } else {
      KeepsPlace(evs, i, j - 1, p, limit, timeout);
      assert Spares(evs, j - 1, p, limit, timeout);
      QueuedStays(Run(evs[..j - 1], limit, timeout), p, Later(evs, i + 1, j - 1), evs[j - 1], limit, timeout);
    }
  }

  /** For all runs: a packet that is queued stays until it is stale, is handed out, or `limit`
      more packets have been queued. */
  lemma QueuedUntil(evs: seq<Event>, i: nat, j: nat, limit: nat, timeout: real)
    requires limit > 0 && i < j <= |evs| && evs[i].Enqueued? && Later(evs, i + 1, j) < limit
    requires forall k :: i < k < j ==> Spares(evs, k, AsQueued(evs, i, timeout), limit, timeout)
    ensures AsQueued(evs, i, timeout) in Run(evs[..j], limit, timeout)
  {
    KeepsPlace(evs, i, j, AsQueued(evs, i, timeout), limit, timeout);
  }
}
