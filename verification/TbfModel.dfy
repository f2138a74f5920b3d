/**
 The token bucket filter of `adc/tbf.cc` as step functions, its runs, and what holds along
 them: the exactness of the timer, first-in-first-out output, conservation of packets, and
 the rate bound.
 */
module TbfModel {
  import opened Basics

  /** `size` is in bytes; the filter counts bits. */
  datatype Packet = Packet(id: nat, size: nat)

  function Bits(p: Packet): real {
    (p.size * 8) as real
  }

  /** Token rate, bucket depth in bits, and queue limit. */
  datatype Config = Config(rate: real, bucket: nat, qlen: nat)

  /** `idle` until the first packet; `timer` is the time for which the timer is set. */
  datatype Filter = Filter(tokens: real, last: real, queue: seq<Packet>, timer: Option<real>, idle: bool)

  const INITIAL: Filter := Filter(0.0, 0.0, [], None, true)

  datatype Fate = Sent | Queued | Dropped

  /** What the bucket would hold at time `t`, were it not for its depth. */
  function Accrued(c: Config, tokens: real, last: real, t: real): real {
    tokens + (t - last) * c.rate
  }

  /** `getupdatedtokens`. */
  function Refill(c: Config, s: Filter, now: real): Filter {
    s.(tokens := MinReal(Accrued(c, s.tokens, s.last, now), c.bucket as real), last := now)
  }

  function Started(c: Config, s: Filter, now: real): Filter {
    if s.idle then s.(tokens := c.bucket as real, last := now, idle := false) else s
  }

  /** When the bucket will hold enough for `p`, counting from `now`. */
  function DueAt(c: Config, tokens: real, p: Packet, now: real): real
    requires c.rate != 0.0
  {
    now + (Bits(p) - tokens) / c.rate
  }

  function Recv(c: Config, s: Filter, p: Packet, now: real): (Filter, Fate)
    requires c.rate != 0.0
  {
    var s0 := Started(c, s, now);
    if s0.queue != [] then
      if |s0.queue| < c.qlen then (s0.(queue := s0.queue + [p]), Queued) else (s0, Dropped)
    else
      var s1 := Refill(c, s0, now);
      if s1.tokens >= Bits(p) then (s1.(tokens := s1.tokens - Bits(p)), Sent)
      else if c.qlen != 0 then (s1.(queue := [p], timer := Some(DueAt(c, s1.tokens, p, now))), Queued)
      else (s1, Dropped)
  }

  /** The head goes out unchecked; the timer is set again for the next packet. */
  function Timeout(c: Config, s: Filter, now: real): Filter
    requires c.rate != 0.0 && s.queue != []
  {
    var s1 := Refill(c, s.(queue := s.queue[1..]), now);
    var s2 := s1.(tokens := s1.tokens - Bits(s.queue[0]));
    s2.(timer := if s2.queue == [] then None else Some(DueAt(c, s2.tokens, s2.queue[0], now)))
  }

  // ---------- Runs ----------

  datatype Event = Arrive(p: Packet, at: real) | Fire(at: real)

  /** The filter, the time of the last event, and what became of the packets so far. */
  datatype World = World(f: Filter, now: real, arrived: seq<Packet>, sent: seq<Packet>, dropped: seq<Packet>)

  const START: World := World(INITIAL, 0.0, [], [], [])

  /** Time does not run backwards, the timer fires exactly when it is due, and nothing that
      happens later is handled before it. */
  predicate Possible(w: World, ev: Event) {
    && w.now <= ev.at
    && match ev
       case Arrive(_, at) => w.f.timer.Some? ==> at <= w.f.timer.value
       case Fire(at) => w.f.timer == Some(at)
  }

  /** The filter aborts when its timer fires on an empty queue. */
  predicate Aborts(w: World, ev: Event) {
    ev.Fire? && w.f.queue == []
  }

  function Step(c: Config, w: World, ev: Event): World
    requires c.rate != 0.0 && !Aborts(w, ev)
  {
    match ev
    case Arrive(p, at) =>
      var (f, fate) := Recv(c, w.f, p, at);
      World(f, at, w.arrived + [p],
            if fate == Sent then w.sent + [p] else w.sent,
            if fate == Dropped then w.dropped + [p] else w.dropped)
    case Fire(at) =>
      World(Timeout(c, w.f, at), at, w.arrived, w.sent + [w.f.queue[0]], w.dropped)
  }

  ghost predicate ValidConfig(c: Config) {
    c.rate > 0.0
  }

  /** `w'` is reached from `w` by the events, each possible in its turn. */
  ghost predicate Reaches(c: Config, w: World, evs: seq<Event>, w': World)
    requires ValidConfig(c)
    decreases |evs|
  {
    if evs == [] then w' == w
    else Possible(w, evs[0]) && !Aborts(w, evs[0]) && Reaches(c, Step(c, w, evs[0]), evs[1..], w')
  }

  /** No packet that arrives is larger than `limit` bytes. */
  ghost predicate AllWithin(limit: nat, evs: seq<Event>) {
    forall k :: 0 <= k < |evs| && evs[k].Arrive? ==> evs[k].p.size <= limit
  }

  /** Packets of up to `limit` bytes fit into the bucket, or else there is no queue and they
      are dropped. */
  predicate Fits(c: Config, limit: nat) {
    limit * 8 <= c.bucket || c.qlen == 0
  }

  function Total(ps: seq<Packet>): real {
    if ps == [] then 0.0 else Total(ps[..|ps| - 1]) + Bits(ps[|ps| - 1])
  }

  // ---------- The invariant ----------

  /** The timer runs exactly while packets wait, and is set for the moment when the bucket
      has filled up to the size of the head packet. */
  ghost predicate Timed(c: Config, f: Filter, now: real) {
    && (f.queue == [] <==> f.timer.None?)
    && f.last <= now
    && f.tokens <= c.bucket as real
    && |f.queue| <= c.qlen
    && (f.idle ==> f.queue == [])
    && (f.timer.Some? && f.queue != [] ==>
          now <= f.timer.value && Accrued(c, f.tokens, f.last, f.timer.value) == Bits(f.queue[0]))
  }

  /** `all` is an interleaving of `a` and `b`: both keep their order, and nothing is lost or
      invented. */
  ghost predicate Interleaves(all: seq<Packet>, a: seq<Packet>, b: seq<Packet>)
    decreases |all|
  {
    if all == [] then a == [] && b == []
    else
      var rest, p := all[..|all| - 1], all[|all| - 1];
      || (a != [] && a[|a| - 1] == p && Interleaves(rest, a[..|a| - 1], b))
      || (b != [] && b[|b| - 1] == p && Interleaves(rest, a, b[..|b| - 1]))
  }

  ghost predicate Ordered(w: World) {
    Interleaves(w.arrived, w.sent + w.f.queue, w.dropped)
  }

  ghost predicate Inv(c: Config, w: World) {
    Timed(c, w.f, w.now) && Ordered(w)
  }

  /** No token is missing, and every packet that waits fits into the bucket. */
  ghost predicate Sound(c: Config, f: Filter) {
    && f.tokens >= 0.0
    && forall k :: 0 <= k < |f.queue| ==> Bits(f.queue[k]) <= c.bucket as real
  }

  lemma AccruedGrows(c: Config, f: Filter, t: real, t': real)
    requires ValidConfig(c) && t <= t'
    ensures Accrued(c, f.tokens, f.last, t) <= Accrued(c, f.tokens, f.last, t')
    ensures Accrued(c, f.tokens, f.last, t') == Accrued(c, f.tokens, f.last, t) + (t' - t) * c.rate
  {
    Distribute(t - f.last, t' - t, c.rate);
    assert (t - f.last) + (t' - t) == t' - f.last;
    Product(t' - t, c.rate);
  }

  lemma AccruedAtUpdate(c: Config, f: Filter)
    ensures Accrued(c, f.tokens, f.last, f.last) == f.tokens
  {
    assert (f.last - f.last) * c.rate == 0.0;
  }

  /** A filter that has just set its timer for its head packet. */
  lemma ScheduledIsTimed(c: Config, f: Filter, now: real)
    requires ValidConfig(c) && f.queue != [] && |f.queue| <= c.qlen && !f.idle && f.last == now
    requires f.tokens <= Bits(f.queue[0]) && f.tokens <= c.bucket as real
    requires f.timer == Some(DueAt(c, f.tokens, f.queue[0], now))
    ensures Timed(c, f, now)
  {
  }

  lemma RecvKeepsTimed(c: Config, f: Filter, now: real, p: Packet, at: real)
    requires ValidConfig(c) && Timed(c, f, now) && now <= at && (f.timer.Some? ==> at <= f.timer.value)
    ensures Timed(c, Recv(c, f, p, at).0, at)
    ensures (Bits(p) <= c.bucket as real || c.qlen == 0) && Sound(c, f) ==> Sound(c, Recv(c, f, p, at).0)
  {
    if f.queue == [] {
      var s0 := Started(c, f, at);
      var s1 := Refill(c, s0, at);
      AccruedAtUpdate(c, s0);
      AccruedGrows(c, s0, s0.last, at);
      if s1.tokens < Bits(p) && c.qlen != 0 { ScheduledIsTimed(c, Recv(c, f, p, at).0, at); }
    }
  }

  /** When the timer fires, the bucket holds exactly what the head packet needs, as far as
      its depth allows. */
  lemma TimeoutKeepsTimed(c: Config, f: Filter, now: real, at: real)
    requires ValidConfig(c) && Timed(c, f, now) && f.timer == Some(at)
    ensures f.queue != []
    ensures Refill(c, f, at).tokens == MinReal(Bits(f.queue[0]), c.bucket as real)
    ensures Timed(c, Timeout(c, f, at), at)
    ensures Sound(c, f) ==> Sound(c, Timeout(c, f, at))
  {
    if |f.queue| > 1 { ScheduledIsTimed(c, Timeout(c, f, at), at); }
  }

  /** The unchecked send at the timer leaves no debt exactly when the packet fits. */
  lemma UncheckedSendIsCovered(c: Config, f: Filter, now: real, at: real)
    requires ValidConfig(c) && Timed(c, f, now) && f.timer == Some(at)
    ensures f.queue != []
    ensures Timeout(c, f, at).tokens >= 0.0 <==> Bits(f.queue[0]) <= c.bucket as real
  {
    TimeoutKeepsTimed(c, f, now, at);
  }

  lemma RecvQueues(c: Config, f: Filter, p: Packet, at: real)
    requires ValidConfig(c)
    ensures Recv(c, f, p, at).1 == Sent ==> f.queue == []
    ensures Recv(c, f, p, at).0.queue == if Recv(c, f, p, at).1 == Queued then f.queue + [p] else f.queue
  {
  }

  lemma StepKeepsOrder(c: Config, w: World, ev: Event)
    requires ValidConfig(c) && Ordered(w) && !Aborts(w, ev)
    ensures Ordered(Step(c, w, ev))
  {
    var w' := Step(c, w, ev);
    match ev {
      case Arrive(p, at) =>
        RecvQueues(c, w.f, p, at);
        OneMore(w, w', p);
      case Fire(at) =>
        assert w'.sent + w'.f.queue == w.sent + w.f.queue;
    }
  }

  lemma OneMore(w: World, w': World, p: Packet)
    requires Ordered(w) && w'.arrived == w.arrived + [p]
    requires || (w'.sent == w.sent + [p] && w'.f.queue == w.f.queue == [] && w'.dropped == w.dropped)
             || (w'.sent == w.sent && w'.f.queue == w.f.queue + [p] && w'.dropped == w.dropped)
             || (w'.sent == w.sent && w'.f.queue == w.f.queue && w'.dropped == w.dropped + [p])
    ensures Ordered(w')
  {
    var a, a' := w.sent + w.f.queue, w'.sent + w'.f.queue;
    assert a' == if w'.dropped == w.dropped then a + [p] else a;
  }

  lemma StepKeepsInv(c: Config, w: World, ev: Event)
    requires ValidConfig(c) && Inv(c, w) && Possible(w, ev)
    ensures !Aborts(w, ev)
    ensures Inv(c, Step(c, w, ev))
    ensures Sound(c, w.f) && (ev.Arrive? ==> Bits(ev.p) <= c.bucket as real || c.qlen == 0) ==> Sound(c, Step(c, w, ev).f)
  {
    match ev {
      case Arrive(p, at) => RecvKeepsTimed(c, w.f, w.now, p, at);
      case Fire(at) => TimeoutKeepsTimed(c, w.f, w.now, at);
    }
    StepKeepsOrder(c, w, ev);
  }

  lemma {:induction false} RunKeepsInv(c: Config, w: World, evs: seq<Event>, w': World, limit: nat)
    requires ValidConfig(c) && Inv(c, w) && Reaches(c, w, evs, w')
    ensures Inv(c, w')
    ensures Fits(c, limit) && AllWithin(limit, evs) && Sound(c, w.f) ==> Sound(c, w'.f)
    decreases |evs|
  {
    if evs != [] {
      StepKeepsInv(c, w, evs[0]);
      RunKeepsInv(c, Step(c, w, evs[0]), evs[1..], w', limit);
    }
  }

  // ---------- Timer, order and conservation ----------

  /** In every run, whatever the packets: the timer is pending exactly while packets wait, it
      never fires on an empty queue, and at each firing the bucket holds exactly the size of
      the head packet or is full. */
  lemma TimerNeverAborts(c: Config, evs: seq<Event>, w: World)
    requires ValidConfig(c) && Reaches(c, START, evs, w)
    ensures w.f.queue == [] <==> w.f.timer.None?
    ensures |w.f.queue| <= c.qlen
    ensures forall ev :: Possible(w, ev) ==> !Aborts(w, ev)
    ensures w.f.timer.Some? ==>
              && w.f.queue != []
              && Refill(c, w.f, w.f.timer.value).tokens == MinReal(Bits(w.f.queue[0]), c.bucket as real)
  {
    RunKeepsInv(c, START, evs, w, 0);
  }

  lemma MultisetOfSnoc(s: seq<Packet>)
    requires s != []
    ensures multiset(s) == multiset(s[..|s| - 1]) + multiset{s[|s| - 1]}
  {
    assert s == s[..|s| - 1] + [s[|s| - 1]];
  }

  lemma {:induction false} InterleavingConserves(all: seq<Packet>, a: seq<Packet>, b: seq<Packet>)
    requires Interleaves(all, a, b)
    ensures multiset(all) == multiset(a) + multiset(b)
    ensures |all| == |a| + |b|
    decreases |all|
  {
    if all != [] {
      var n := |all| - 1;
      MultisetOfSnoc(all);
      if a != [] && a[|a| - 1] == all[n] && Interleaves(all[..n], a[..|a| - 1], b) {
        InterleavingConserves(all[..n], a[..|a| - 1], b);
        MultisetOfSnoc(a);
      } else {
        InterleavingConserves(all[..n], a, b[..|b| - 1]);
        MultisetOfSnoc(b);
      }
    }
  }

  /** In every run the packets sent and those waiting are, in this order, the accepted
      arrivals in the order of arrival, and every arrival is sent, waiting or dropped. */
  lemma FirstInFirstOut(c: Config, evs: seq<Event>, w: World)
    requires ValidConfig(c) && Reaches(c, START, evs, w)
    ensures Interleaves(w.arrived, w.sent + w.f.queue, w.dropped)
    ensures multiset(w.arrived) == multiset(w.sent) + multiset(w.f.queue) + multiset(w.dropped)
    ensures |w.arrived| == |w.sent| + |w.f.queue| + |w.dropped|
  {
    RunKeepsInv(c, START, evs, w, 0);
    InterleavingConserves(w.arrived, w.sent + w.f.queue, w.dropped);
  }

  /** A packet is dropped only when the queue is full; with no room for a queue at all, only
      when the tokens are missing. */
  lemma DropsOnlyWhenFull(c: Config, evs: seq<Event>, w: World, p: Packet, at: real)
    requires ValidConfig(c) && Reaches(c, START, evs, w) && Possible(w, Arrive(p, at))
    ensures Recv(c, w.f, p, at).1 == Dropped <==>
            |w.f.queue| == c.qlen && (c.qlen == 0 ==> Available(c, w.f, at) < Bits(p))
  {
    RunKeepsInv(c, START, evs, w, 0);
    DropIff(c, w.f, w.now, p, at);
  }

  lemma DropIff(c: Config, f: Filter, now: real, p: Packet, at: real)
    requires ValidConfig(c) && Timed(c, f, now)
    ensures Recv(c, f, p, at).1 == Dropped <==>
            |f.queue| == c.qlen && (c.qlen == 0 ==> Available(c, f, at) < Bits(p))
  {
    if f.queue == [] { RefillIsAvailable(c, f, at); }
  }

  // ---------- The rate bound ----------

  /** The tokens that a packet arriving at time `t` would find. */
  function Available(c: Config, f: Filter, t: real): real {
    if f.idle then c.bucket as real else MinReal(Accrued(c, f.tokens, f.last, t), c.bucket as real)
  }

  lemma RefillIsAvailable(c: Config, f: Filter, at: real)
    ensures Refill(c, Started(c, f, at), at).tokens == Available(c, f, at)
  {
    if f.idle { AccruedAtUpdate(c, Started(c, f, at)); }
  }

  /** Waiting adds at most the rate. */
  lemma AvailableGrows(c: Config, f: Filter, t: real, t': real)
    requires ValidConfig(c) && t <= t'
    ensures Available(c, f, t') <= Available(c, f, t) + (t' - t) * c.rate
  {
    AccruedGrows(c, f, t, t');
    Product(t' - t, c.rate);
  }

  lemma AvailableIsBounded(c: Config, f: Filter, now: real)
    requires ValidConfig(c) && Sound(c, f) && f.last <= now
    ensures 0.0 <= Available(c, f, now) <= c.bucket as real
  {
    AccruedAtUpdate(c, f);
    AccruedGrows(c, f, f.last, now);
  }

  /** A payment of `cost` at time `at` that leaves the filter `f1` behind: it comes out of a
      bucket that held no more than its depth, nor more than was there at `now` and has been
      earned since. */
  ghost predicate Paid(c: Config, f: Filter, now: real, at: real, f1: Filter, cost: real) {
    && Available(c, f1, at) + cost <= c.bucket as real
    && Available(c, f1, at) + cost <= Available(c, f, now) + (at - now) * c.rate
  }

  lemma PaidFromAvailable(c: Config, f: Filter, now: real, at: real, f1: Filter, cost: real)
    requires ValidConfig(c) && now <= at
    requires Available(c, f1, at) + cost <= Available(c, f, at)
    ensures Paid(c, f, now, at, f1, cost)
  {
    AvailableGrows(c, f, now, at);
  }

  function Cost(fate: Fate, p: Packet): real {
    if fate == Sent then Bits(p) else 0.0
  }

  /** What `f` still grants at the moment of its last update is what it holds. */
  lemma AvailableAtUpdate(c: Config, f: Filter)
    requires !f.idle && f.tokens <= c.bucket as real
    ensures Available(c, f, f.last) == f.tokens
  {
    AccruedAtUpdate(c, f);
  }

  lemma RecvPays(c: Config, f: Filter, now: real, p: Packet, at: real)
    requires ValidConfig(c) && Timed(c, f, now) && now <= at
    ensures Paid(c, f, now, at, Recv(c, f, p, at).0, Cost(Recv(c, f, p, at).1, p))
  {
    var (f1, fate) := Recv(c, f, p, at);
    if f.queue == [] {
      RefillIsAvailable(c, f, at);
      AvailableAtUpdate(c, f1);
    }
    PaidFromAvailable(c, f, now, at, f1, Cost(fate, p));
  }

  lemma TimeoutPays(c: Config, f: Filter, now: real, at: real)
    requires ValidConfig(c) && Timed(c, f, now) && f.timer == Some(at) && f.queue != []
    ensures Paid(c, f, now, at, Timeout(c, f, at), Bits(f.queue[0]))
  {
    TimeoutKeepsTimed(c, f, now, at);
    AvailableAtUpdate(c, Timeout(c, f, at));
    PaidFromAvailable(c, f, now, at, Timeout(c, f, at), Bits(f.queue[0]));
  }

  lemma StepPays(c: Config, w: World, ev: Event)
    requires ValidConfig(c) && Inv(c, w) && Possible(w, ev) && !Aborts(w, ev)
    ensures Step(c, w, ev).now == ev.at
    ensures Paid(c, w.f, w.now, ev.at, Step(c, w, ev).f, Total(Step(c, w, ev).sent) - Total(w.sent))
  {
    var w' := Step(c, w, ev);
    if w'.sent != w.sent {
      assert w'.sent[..|w.sent|] == w.sent;
    }
    match ev {
      case Arrive(p, at) => RecvPays(c, w.f, w.now, p, at);
      case Fire(at) => TimeoutPays(c, w.f, w.now, at);
    }
  }

  lemma SpansJoin(t0: real, t1: real, t2: real, r: real)
    ensures (t1 - t0) * r + (t2 - t1) * r == (t2 - t0) * r
  {
    Distribute(t1 - t0, t2 - t1, r);
    assert (t1 - t0) + (t2 - t1) == t2 - t0;
  }

  /** What has been sent and could be sent at once, less what the rate has earned. */
  function Balance(c: Config, w: World): real {
    Available(c, w.f, w.now) + Total(w.sent) - w.now * c.rate
  }

  lemma PaymentKeepsBalance(c: Config, w: World, w1: World)
    requires Paid(c, w.f, w.now, w1.now, w1.f, Total(w1.sent) - Total(w.sent))
    ensures Balance(c, w1) <= Balance(c, w)
  {
    assert (w1.now - w.now) * c.rate == w1.now * c.rate - w.now * c.rate;
  }

  lemma {:induction false} BalanceNeverRises(c: Config, w: World, evs: seq<Event>, w': World)
    requires ValidConfig(c) && Inv(c, w) && Reaches(c, w, evs, w')
    ensures Balance(c, w') <= Balance(c, w)
    decreases |evs|
  {
    if evs != [] {
      var w1 := Step(c, w, evs[0]);
      StepKeepsInv(c, w, evs[0]);
      BalanceNeverRises(c, w1, evs[1..], w');
      assert Balance(c, w1) <= Balance(c, w) by {
        StepPays(c, w, evs[0]);
        PaymentKeepsBalance(c, w, w1);
      }
    }
  }

  /** `w` is reached by a run in which no packet is larger than `limit`. */
  ghost predicate ReachableWithin(c: Config, limit: nat, w: World)
    requires ValidConfig(c)
  {
    exists evs :: AllWithin(limit, evs) && Reaches(c, START, evs, w)
  }

  /** From a reachable `w`, the events `evs` between the instants `from` and `to` lead to
      `w'`. */
  ghost predicate Window(c: Config, limit: nat, w: World, evs: seq<Event>, w': World, from: real, to: real)
    requires ValidConfig(c)
  {
    && ReachableWithin(c, limit, w) && AllWithin(limit, evs) && Reaches(c, w, evs, w')
    && from <= to && w'.now <= to
    && (evs != [] ==> from <= evs[0].at)
  }

  ghost predicate WithinRate(c: Config, amount: real, span: real) {
    amount <= c.bucket as real + span * c.rate
  }

  /** Between any two instants, at most the bucket and what the rate adds is sent, if no
      packet is larger than `limit`. */
  ghost predicate RateBound(c: Config, limit: nat)
    requires ValidConfig(c)
  {
    forall w, evs, w', from, to :: Window(c, limit, w, evs, w', from, to) ==>
      WithinRate(c, Total(w'.sent) - Total(w.sent), to - from)
  }

  /** Without oversized packets the tokens stay between zero and the bucket depth. */
  lemma TokensStayInBucket(c: Config, limit: nat, w: World)
    requires ValidConfig(c) && Fits(c, limit) && ReachableWithin(c, limit, w)
    ensures Inv(c, w) && Sound(c, w.f)
    ensures 0.0 <= w.f.tokens <= c.bucket as real
  {
    var evs :| AllWithin(limit, evs) && Reaches(c, START, evs, w);
    RunKeepsInv(c, START, evs, w, limit);
  }

  /** A window that contains events: the bound from its first event on, widened. */
  lemma BurstIsBounded(c: Config, before: real, w1: World, w': World, from: real, to: real)
    requires ValidConfig(c) && from <= w1.now && w'.now <= to
    requires Available(c, w1.f, w1.now) + Total(w1.sent) <= c.bucket as real + before
    requires Balance(c, w') <= Balance(c, w1) && Available(c, w'.f, w'.now) >= 0.0
    ensures WithinRate(c, Total(w'.sent) - before, to - from)
  {
    BalanceBoundsBurst(c, before, w1, w');
    Widen(c, Total(w'.sent) - before, w1.now, w'.now, from, to);
  }

  lemma NothingIsWithinRate(c: Config, span: real)
    requires ValidConfig(c) && span >= 0.0
    ensures WithinRate(c, 0.0, span)
  {
    Product(span, c.rate);
  }

  lemma WindowIsBounded(c: Config, limit: nat, w: World, evs: seq<Event>, w': World, from: real, to: real)
    requires ValidConfig(c) && Fits(c, limit) && Window(c, limit, w, evs, w', from, to)
    ensures WithinRate(c, Total(w'.sent) - Total(w.sent), to - from)
  {
    TokensStayInBucket(c, limit, w);
    if evs == [] {
      NothingIsWithinRate(c, to - from);
    } else {
      RunKeepsInv(c, w, evs, w', limit);
      AvailableIsBounded(c, w'.f, w'.now);
      var w1 := FirstEvent(c, w, evs, w');
      BurstIsBounded(c, Total(w.sent), w1, w', from, to);
    }
  }

  /** The first event of a run leaves a world `w1` behind that owes nothing. */
  lemma FirstEvent(c: Config, w: World, evs: seq<Event>, w': World) returns (w1: World)
    requires ValidConfig(c) && Inv(c, w) && evs != [] && Reaches(c, w, evs, w')
    ensures w1.now == evs[0].at
    ensures Available(c, w1.f, w1.now) + Total(w1.sent) <= c.bucket as real + Total(w.sent)
    ensures Balance(c, w') <= Balance(c, w1)
  {
    w1 := Step(c, w, evs[0]);
    StepKeepsInv(c, w, evs[0]);
    BalanceNeverRises(c, w1, evs[1..], w');
    StepPays(c, w, evs[0]);
  }

  lemma BalanceBoundsBurst(c: Config, before: real, w1: World, w': World)
    requires Available(c, w1.f, w1.now) + Total(w1.sent) <= c.bucket as real + before
    requires Balance(c, w') <= Balance(c, w1) && Available(c, w'.f, w'.now) >= 0.0
    ensures WithinRate(c, Total(w'.sent) - before, w'.now - w1.now)
  {
    Settle(c, before, Available(c, w1.f, w1.now) + Total(w1.sent), w1.now,
           Available(c, w'.f, w'.now) + Total(w'.sent), w'.now);
  }

  lemma Settle(c: Config, before: real, b1: real, t1: real, b2: real, t2: real)
    requires b1 <= c.bucket as real + before
    requires b2 - t2 * c.rate <= b1 - t1 * c.rate
    ensures WithinRate(c, b2 - before, t2 - t1)
  {
    assert (t2 - t1) * c.rate == t2 * c.rate - t1 * c.rate;
  }

  lemma Widen(c: Config, amount: real, a: real, b: real, from: real, to: real)
    requires ValidConfig(c) && from <= a && b <= to && WithinRate(c, amount, b - a)
    ensures WithinRate(c, amount, to - from)
  {
    Product(to - b, c.rate);
    Product(a - from, c.rate);
    SpansJoin(a, b, to, c.rate);
    SpansJoin(from, a, to, c.rate);
  }

  /** The world after a packet of `limit` bytes has arrived first. */
  function AfterFirst(c: Config, limit: nat): World
    requires c.rate != 0.0
  {
    Step(c, START, Arrive(Packet(0, limit), 0.0))
  }

  /** A packet that is too large waits, though the bucket is full. */
  lemma FirstWaits(c: Config, limit: nat)
    requires ValidConfig(c) && c.qlen > 0 && limit * 8 > c.bucket
    ensures var w := AfterFirst(c, limit);
            && Inv(c, w) && w.f.timer.Some? && w.now <= w.f.timer.value
            && w.f.queue == [Packet(0, limit)] && w.sent == []
  {
    StepKeepsInv(c, START, Arrive(Packet(0, limit), 0.0));
    RefillIsAvailable(c, INITIAL, 0.0);
  }

  lemma OneStep(c: Config, w: World, ev: Event)
    requires ValidConfig(c) && Possible(w, ev) && !Aborts(w, ev)
    ensures Reaches(c, w, [ev], Step(c, w, ev))
  {
    assert [ev][1..] == [];
    assert Reaches(c, Step(c, w, ev), [], Step(c, w, ev));
  }

  lemma FirstIsReachable(c: Config, limit: nat)
    requires ValidConfig(c)
    ensures ReachableWithin(c, limit, AfterFirst(c, limit))
  {
    OneStep(c, START, Arrive(Packet(0, limit), 0.0));
    assert AllWithin(limit, [Arrive(Packet(0, limit), 0.0)]);
  }

  /** It goes out whole at the moment its timer fires. */
  lemma FirstGoesWhole(c: Config, w: World, p: Packet, at: real)
    requires ValidConfig(c) && w.f.queue == [p] && w.sent == [] && w.f.timer == Some(at)
    ensures Step(c, w, Fire(at)).now == at
    ensures Total(Step(c, w, Fire(at)).sent) - Total(w.sent) == Bits(p)
  {
    var sent := Step(c, w, Fire(at)).sent;
    assert sent == [p] && sent[..0] == [];
  }

  lemma NoTime(c: Config, at: real)
    ensures (at - at) * c.rate == 0.0
  {
  }

  /** One packet larger than the bucket breaks the bound. */
  lemma OversizeBreaksBound(c: Config, limit: nat)
    requires ValidConfig(c) && c.qlen > 0 && limit * 8 > c.bucket
    ensures !RateBound(c, limit)
  {
    FirstWaits(c, limit);
    FirstIsReachable(c, limit);
    BurstBreaksBound(c, limit, AfterFirst(c, limit), AfterFirst(c, limit).f.timer.value);
  }

  lemma BurstBreaksBound(c: Config, limit: nat, w: World, at: real)
    requires ValidConfig(c) && limit * 8 > c.bucket && ReachableWithin(c, limit, w)
    requires w.f.queue == [Packet(0, limit)] && w.sent == [] && w.f.timer == Some(at) && w.now <= at
    ensures !RateBound(c, limit)
  {
    var w' := Step(c, w, Fire(at));
    OneStep(c, w, Fire(at));
    FirstGoesWhole(c, w, Packet(0, limit), at);
    NoTime(c, at);
    assert Window(c, limit, w, [Fire(at)], w', at, at);
    assert !WithinRate(c, Total(w'.sent) - Total(w.sent), at - at);
  }

  /** The filter keeps its rate exactly when every packet fits into the bucket, or there is
      no queue for those that do not. */
  lemma RateBoundExactlyWhenPacketsFit(c: Config, limit: nat)
    requires ValidConfig(c)
    ensures RateBound(c, limit) <==> limit * 8 <= c.bucket || c.qlen == 0
  {
    if Fits(c, limit) {
      forall w, evs, w', from, to | Window(c, limit, w, evs, w', from, to)
        ensures WithinRate(c, Total(w'.sent) - Total(w.sent), to - from)
      {
        WindowIsBounded(c, limit, w, evs, w', from, to);
      }
    } else {
      OversizeBreaksBound(c, limit);
    }
  }

  // ---------- What becomes of a packet, and how fast ----------

  /** What the bucket holds at time `at`: it starts full, and then earns at the rate up to its
      depth. */
  function Funds(c: Config, f: Filter, at: real): real {
    var earned := f.tokens + (at - f.last) * c.rate;
    if f.idle || earned > c.bucket as real then c.bucket as real else earned
  }

  lemma FundsAreThere(c: Config, f: Filter, at: real)
    requires !f.idle
    ensures Refill(c, f, at).tokens == Funds(c, f, at)
  {
  }

  /** A packet that finds nobody waiting and enough tokens is sent at once and paid for. One
      that does not waits, behind those that do, as long as there is room, and the first of
      them sets the timer for the moment when its tokens will be there. */
  lemma ArrivalServed(c: Config, w: World, p: Packet, at: real)
    requires ValidConfig(c) && Inv(c, w) && Possible(w, Arrive(p, at))
    ensures var w', funds := Step(c, w, Arrive(p, at)), Funds(c, w.f, at);
            && w'.arrived == w.arrived + [p] && w'.now == at
            && if w.f.queue != []
               then w'.f == w.f.(queue := w'.f.queue) && w'.sent == w.sent
                    && if |w.f.queue| < c.qlen then w'.f.queue == w.f.queue + [p] && w'.dropped == w.dropped
                       else w'.f.queue == w.f.queue && w'.dropped == w.dropped + [p]
               else
                 && w'.f.last == at && !w'.f.idle
                 && if Bits(p) <= funds
                    then w'.sent == w.sent + [p] && w'.f.tokens == funds - Bits(p)
                         && w'.f.queue == [] && w'.f.timer == None && w'.dropped == w.dropped
                    else w'.sent == w.sent && w'.f.tokens == funds
                         && if c.qlen > 0 then w'.f.queue == [p] && w'.dropped == w.dropped
                                               && w'.f.timer == Some(at + (Bits(p) - funds) / c.rate)
                            else w'.f.queue == [] && w'.dropped == w.dropped + [p]
  {
    if w.f.idle { AccruedAtUpdate(c, Started(c, w.f, at)); }
  }

  /** When the timer fires, the first packet is sent and paid for, and the timer is set for the
      moment when the tokens for the next one will be there. */
  lemma FirstServed(c: Config, w: World, at: real)
    requires ValidConfig(c) && Inv(c, w) && Possible(w, Fire(at)) && w.f.queue != []
    ensures var w', funds := Step(c, w, Fire(at)), Funds(c, w.f, at);
            && w'.sent == w.sent + [w.f.queue[0]] && w'.f.queue == w.f.queue[1..]
            && w'.arrived == w.arrived && w'.dropped == w.dropped && w'.now == w'.f.last == at
            && w'.f.tokens == funds - Bits(w.f.queue[0])
            && w'.f.timer == if |w.f.queue| == 1 then None
                             else Some(at + (Bits(w.f.queue[1]) - w'.f.tokens) / c.rate)
  {
    FundsAreThere(c, w.f.(queue := w.f.queue[1..]), at);
  }

  /** Packets wait before each of the events, and those that arrive fit into the bucket. */
  ghost predicate Backlogged(c: Config, w: World, evs: seq<Event>)
    requires ValidConfig(c)
    decreases |evs|
  {
    evs != [] ==>
      && w.f.queue != [] && Possible(w, evs[0]) && (evs[0].Arrive? ==> Bits(evs[0].p) <= c.bucket as real)
      && Backlogged(c, Step(c, w, evs[0]), evs[1..])
  }

  /** The tokens are used up, and every packet that waits fits into the bucket. */
  ghost predicate UsedUp(c: Config, w: World)
    requires ValidConfig(c)
  {
    Inv(c, w) && Sound(c, w.f) && w.f.tokens == 0.0 && !w.f.idle
  }

  lemma BackloggedArrival(c: Config, w: World, p: Packet, at: real)
    requires ValidConfig(c) && UsedUp(c, w) && w.f.queue != []
    requires Possible(w, Arrive(p, at)) && Bits(p) <= c.bucket as real
    ensures var w' := Step(c, w, Arrive(p, at)); UsedUp(c, w') && w'.sent == w.sent && w'.f.last == w.f.last
  {
    StepKeepsInv(c, w, Arrive(p, at));
    ArrivalServed(c, w, p, at);
  }

  /** The timer finds just what the first packet needs. */
  lemma BackloggedSend(c: Config, w: World, at: real)
    requires ValidConfig(c) && UsedUp(c, w) && w.f.queue != [] && Possible(w, Fire(at))
    ensures var w' := Step(c, w, Fire(at));
            && UsedUp(c, w') && w'.sent == w.sent + [w.f.queue[0]] && w'.f.last == at
            && (at - w.f.last) * c.rate == Bits(w.f.queue[0])
  {
    StepKeepsInv(c, w, Fire(at));
    FirstServed(c, w, at);
    assert Funds(c, w.f, at) == Bits(w.f.queue[0]);
  }

  lemma TotalOfMore(ps: seq<Packet>, p: Packet)
    ensures Total(ps + [p]) == Total(ps) + Bits(p)
  {
    assert (ps + [p])[..|ps|] == ps;
  }

  /** What was sent from `w` to `w'` is what the rate earned between their last updates. */
  ghost predicate AtRate(c: Config, w: World, w': World) {
    Total(w'.sent) - Total(w.sent) == (w'.f.last - w.f.last) * c.rate
  }

  lemma AtRateJoins(c: Config, w: World, w1: World, w2: World)
    requires AtRate(c, w, w1) && AtRate(c, w1, w2)
    ensures AtRate(c, w, w2)
  {
    SpansJoin(w.f.last, w1.f.last, w2.f.last, c.rate);
  }

  lemma NothingSent(c: Config, w: World, w': World)
    requires w'.sent == w.sent && w'.f.last == w.f.last
    ensures AtRate(c, w, w')
  {
  }

  lemma OneSent(c: Config, w: World, w': World, p: Packet)
    requires w'.sent == w.sent + [p] && (w'.f.last - w.f.last) * c.rate == Bits(p)
    ensures AtRate(c, w, w')
  {
    assert (w.sent + [p])[..|w.sent|] == w.sent;
  }

  lemma BackloggedStep(c: Config, w: World, ev: Event)
    requires ValidConfig(c) && UsedUp(c, w) && w.f.queue != []
    requires Possible(w, ev) && (ev.Arrive? ==> Bits(ev.p) <= c.bucket as real)
    ensures UsedUp(c, Step(c, w, ev)) && AtRate(c, w, Step(c, w, ev))
  {
    if ev.Arrive? {
      BackloggedArrival(c, w, ev.p, ev.at);
      NothingSent(c, w, Step(c, w, ev));
    } else {
      BackloggedSend(c, w, ev.at);
      OneSent(c, w, Step(c, w, ev), w.f.queue[0]);
    }
  }

  /** While packets wait, the filter sends at exactly its rate: from the moment at which it had
      used up its tokens to its last send. */
  lemma {:induction false} FullRateWhileWaiting(c: Config, w: World, evs: seq<Event>, w': World)
    requires ValidConfig(c) && UsedUp(c, w) && Backlogged(c, w, evs) && Reaches(c, w, evs, w')
    ensures AtRate(c, w, w')
    decreases |evs|
  {
    if evs == [] {
      NothingSent(c, w, w');
    } else {
      var w1 := Step(c, w, evs[0]);
      BackloggedStep(c, w, evs[0]);
      FullRateWhileWaiting(c, w1, evs[1..], w');
      AtRateJoins(c, w, w1, w');
    }
  }
}
