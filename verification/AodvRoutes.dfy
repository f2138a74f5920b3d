/**
 What each event does to the routes of an AODV node and what it makes the node send, in
 terms of the fields of its entries, and the life of a flood over whole runs.
 */
module AodvRoutes {
  import opened Basics
  import opened AodvModel
  import opened AodvLoopFreedom

  // ---------- Routes that are lost ----------

  /** The entry is a route over `nbr`. */
  predicate Over(t: Table, d: Addr, nbr: Addr) {
    d in t && t[d].hops != INFINITY2 && t[d].nexthop == nbr
  }

  /** The entry is the one before, down under the given number. */
  predicate TakenDown(e: Entry, e': Entry, seqno: nat) {
    e'.flag == Down && e'.hops == INFINITY2 && e'.seqno == seqno && e'.lastHopCount == e.hops
  }

  predicate SameSearch(e: Entry, e': Entry) {
    e'.lastHopCount == e.lastHopCount && e'.lastTtl == e.lastTtl && e'.reqCnt == e.reqCnt
  }

  /** A lost neighbour costs exactly the routes over it, each under the next number, and is
      forgotten as a precursor. An error goes out if and only if some route was lost, and
      it names exactly those and their new numbers. */
  lemma LostNeighbour(n: Node, at: Addr, nbr: Addr)
    requires NodeOk(n)
    ensures var o := React(n, LinkBreak(at, nbr)); var t := o.node.table;
            && t.Keys == n.table.Keys
            && (forall d :: !Over(t, d, nbr))
            && (forall d :: d in t ==>
                  && t[d].precursors == n.table[d].precursors - {nbr}
                  && if Over(n.table, d, nbr) then TakenDown(n.table[d], t[d], n.table[d].seqno + 1)
                     else SameRoute(n.table[d], t[d]) && SameSearch(n.table[d], t[d]))
            && (forall m :: m in o.sent ==>
                  && m.Rerr? && m.sender == at
                  && (forall d :: d in m.unreachable <==> Over(n.table, d, nbr))
                  && (forall d :: d in m.unreachable ==> m.unreachable[d] == n.table[d].seqno + 1))
            && (o.sent == {} <==> forall d :: !Over(n.table, d, nbr))
            && o.node.neighbors == n.neighbors - {nbr} && o.node.seqno == n.seqno + 2
  {
    if d :| Over(n.table, d, nbr) {
      assert d in LostThrough(n.table, nbr);
    }
  }

  /** The error is about a route that the node uses over its sender. */
  predicate Named(t: Table, d: Addr, m: Msg)
    requires m.Rerr?
  {
    d in m.unreachable && Over(t, d, m.sender) && t[d].seqno <= m.unreachable[d]
  }

  /** An error takes down exactly the routes over its sender that it names under no lower
      number, under the number it gives. It is passed on for exactly those that somebody
      relied on. */
  lemma ErrorHeard(n: Node, at: Addr, m: Msg, waiting: bool)
    requires NodeOk(n) && m.Rerr?
    ensures var o := React(n, Deliver(at, m, waiting)); var t := o.node.table;
            && t.Keys == n.table.Keys
            && (forall d :: !Named(t, d, m))
            && (forall d :: d in t ==>
                  if Named(n.table, d, m) then TakenDown(n.table[d], t[d], m.unreachable[d]) && t[d].precursors == {}
                  else t[d] == n.table[d])
            && (forall r :: r in o.sent ==>
                  && r.Rerr? && r.sender == at
                  && (forall d :: d in r.unreachable <==> Named(n.table, d, m) && n.table[d].precursors != {})
                  && (forall d :: d in r.unreachable ==> r.unreachable[d] == m.unreachable[d]))
            && (o.sent == {} <==> forall d :: Named(n.table, d, m) ==> n.table[d].precursors == {})
            && o.node.(table := n.table) == n
  {
    if d :| Named(n.table, d, m) && n.table[d].precursors != {} {
      assert d in PassedOn(n.table, m);
    }
  }

  /** Expiry takes down exactly the usable routes that expired, each under the next number. */
  lemma RoutesExpire(n: Node, at: Addr, expired: set<Addr>)
    requires NodeOk(n)
    ensures var o := React(n, Purge(at, expired)); var t := o.node.table;
            && t.Keys == n.table.Keys && o.sent == {} && o.node.(table := n.table) == n
            && (forall d :: d in t ==>
                  if d in expired && n.table[d].flag == Up
                  then TakenDown(n.table[d], t[d], n.table[d].seqno + 1) && t[d].precursors == n.table[d].precursors
                  else t[d] == n.table[d])
  {
  }

  /** A repair that fails leaves its route down, and any other route alone. */
  lemma RepairFails(n: Node, at: Addr, dst: Addr)
    requires NodeOk(n) && dst in n.table
    ensures var o := React(n, RepairExpires(at, dst)); var t := o.node.table;
            && o.sent == {} && o.node == n.(table := n.table[dst := t[dst]])
            && if n.table[dst].flag == InRepair then TakenDown(n.table[dst], t[dst], n.table[dst].seqno)
               else t[dst] == n.table[dst]
  {
  }

  // ---------- Routes that are learned ----------

  /** The entry before has a lower number, or the same and more hops. */
  predicate Improves(seqno: nat, hops: nat, e: Entry) {
    e.seqno < seqno || (e.seqno == seqno && hops < e.hops)
  }

  /** The entry is a usable route with exactly these fields. */
  predicate RouteIs(e: Entry, seqno: nat, hops: nat, nexthop: Addr) {
    e.flag == Up && e.seqno == seqno && e.hops == hops && e.nexthop == nexthop
  }

  /** All routes but the one to `d` are as before. */
  ghost predicate OthersSame(t: Table, t': Table, d: Addr) {
    t'.Keys == t.Keys + {d} && forall a :: a in t && a != d ==> SameRoute(t[a], t'[a]) && SameSearch(t[a], t'[a])
  }

  /** What is said of a request that a node has not seen before. */
  predicate FirstCopy(n: Node, at: Addr, m: Msg) {
    m.Rreq? && m.src != at && (m.src, m.bcastId) !in n.seen
  }

  /** The first copy of a request is remembered, and gives the reverse route over its sender
      if and only if that improves the entry. */
  lemma RequestTeaches(n: Node, at: Addr, m: Msg, waiting: bool)
    requires FirstCopy(n, at, m)
    ensures var o := React(n, Deliver(at, m, waiting));
            && o.node.seen == n.seen + {(m.src, m.bcastId)} && o.node.bid == n.bid && o.node.neighbors == n.neighbors
            && OthersSame(n.table, o.node.table, m.src)
            && var e, e' := Lookup(n.table, m.src), o.node.table[m.src];
               if Improves(m.srcSeqno, m.hopCount, e)
               then RouteIs(e', m.srcSeqno, m.hopCount, m.sender) && (waiting ==> e'.reqCnt == 0)
               else SameRoute(e, e')
  {
    var e := ReverseRoute(Lookup(n.table, m.src), m, waiting);
    var n' := n.(seen := n.seen + {(m.src, m.bcastId)}, table := n.table[m.src := e]);
    AnswerKeepsRoutes(at, n', m);
  }

  /** The node can answer for the destination, from a route as fresh as was asked for. */
  predicate KnowsWay(t: Table, m: Msg)
    requires m.Rreq?
  {
    m.dst in t && t[m.dst].hops != INFINITY2 && m.dstSeqno <= t[m.dst].seqno
  }

  /** The destination answers a first copy under a new even number of its own; a node that
      knows the way answers with it, and the two neighbours on that way become precursors;
      any other passes the request on, one hop further and asking for no less. */
  lemma RequestAnswered(n: Node, at: Addr, m: Msg, waiting: bool)
    requires FirstCopy(n, at, m)
    ensures var o := React(n, Deliver(at, m, waiting)); var t := o.node.table;
            && m.src in t
            && var back := t[m.src].nexthop;
            && (m.dst == at ==>
                  && o.sent == {Rrep(at, NETWORK_DIAMETER, m.src, back, at, o.node.seqno, 1)}
                  && Even(o.node.seqno) && n.seqno < o.node.seqno && m.dstSeqno < o.node.seqno
                  && (o.node.seqno <= n.seqno + 2 || o.node.seqno <= m.dstSeqno + 2))
            && (m.dst != at ==> o.node.seqno == n.seqno)
            && (m.dst != at && KnowsWay(t, m) ==>
                  && o.sent == {Rrep(at, NETWORK_DIAMETER, m.src, back, m.dst, t[m.dst].seqno, t[m.dst].hops + 1)}
                  && back in t[m.dst].precursors && t[m.dst].nexthop in t[m.src].precursors)
            && (m.dst != at && !KnowsWay(t, m) ==>
                  o.sent == if m.ttl == 1 then {}
                            else {Rreq(at, m.ttl - 1, m.src, m.srcSeqno, m.hopCount + 1, m.dst,
                                       if m.dst in t && m.dstSeqno < t[m.dst].seqno then t[m.dst].seqno else m.dstSeqno,
                                       m.bcastId)})
  {
    var e := ReverseRoute(Lookup(n.table, m.src), m, waiting);
    var n' := n.(seen := n.seen + {(m.src, m.bcastId)}, table := n.table[m.src := e]);
    AnswerKeepsRoutes(at, n', m);
  }

  /** A reply gives the route over its sender if and only if that improves the entry. */
  lemma ReplyTeaches(n: Node, at: Addr, m: Msg, waiting: bool)
    requires m.Rrep?
    ensures var o := React(n, Deliver(at, m, waiting));
            && o.node.(table := n.table) == n
            && OthersSame(n.table, o.node.table, m.dst)
            && var e, e' := Lookup(n.table, m.dst), o.node.table[m.dst];
               if Improves(m.dstSeqno, m.hopCount, e)
               then RouteIs(e', m.dstSeqno, m.hopCount, m.sender) && e'.reqCnt == 0
               else e' == e
  {
  }

  /** A reply that taught something goes on to the next hop towards who asked, one hop
      longer, and that neighbour becomes a precursor; it ends at who asked, where there is
      no way back, and where its time to live does. */
  lemma ReplyRelayed(n: Node, at: Addr, m: Msg, waiting: bool)
    requires m.Rrep?
    ensures var o := React(n, Deliver(at, m, waiting)); var t := o.node.table;
            if Improves(m.dstSeqno, m.hopCount, Lookup(n.table, m.dst)) && m.ipDst != at
               && m.ipDst in t && t[m.ipDst].hops != INFINITY2
            then
              && t[m.ipDst].nexthop in t[m.dst].precursors
              && o.sent == if m.ttl == 1 then {}
                           else {Rrep(at, m.ttl - 1, m.ipDst, t[m.ipDst].nexthop, m.dst, m.dstSeqno, m.hopCount + 1)}
            else o.sent == {}
  {
  }

  // ---------- Searching ----------

  /** How far the node already looked, or how far the destination was. */
  function Radius(e: Entry): nat {
    if e.lastTtl < e.lastHopCount then e.lastHopCount else e.lastTtl
  }

  /** A search sends one request, under new numbers of the node: in a wider ring than before,
      and through the whole network once the rings are used up, which is what is counted. It
      stays silent while a route is up, while the last request may still be answered, and
      once after `RREQ_RETRIES + 1` requests through the whole network. */
  lemma SearchGoesOn(n: Node, at: Addr, dst: Addr, early: bool)
    requires dst in n.table
    ensures var o := React(n, Discover(at, dst, early)); var e, e' := n.table[dst], o.node.table[dst];
            && o.node.table == n.table[dst := e'] && SameRoute(e, e') && o.node.seen == n.seen
            && (e.flag == Up || early ==> o == Outcome(n, {}))
            && (e.flag != Up && !early && e.reqCnt > RREQ_RETRIES ==> o.sent == {} && e'.reqCnt == 0)
            && (e.flag != Up && !early && e.reqCnt <= RREQ_RETRIES ==>
                  && o.sent == {Rreq(at, e'.lastTtl, at, n.seqno + 2, 1, dst, e.seqno, n.bid)}
                  && o.node.bid == n.bid + 1 && o.node.seqno == n.seqno + 2
                  && if Radius(e) >= TTL_THRESHOLD then e'.lastTtl == NETWORK_DIAMETER && e'.reqCnt == e.reqCnt + 1
                     else e'.lastTtl == (if Radius(e) == 0 then TTL_START else Radius(e) + TTL_INCREMENT)
                          && e'.reqCnt == e.reqCnt)
  {
  }

  /** The node after `k` attempts to find `dst` that nobody answers. */
  function Attempts(n: Node, at: Addr, dst: Addr, k: nat): Node
    decreases k
  {
    if k == 0 then n else Attempts(React(n, Discover(at, dst, false)).node, at, dst, k - 1)
  }

  /** The requests left before the search pauses: rings, and then the whole network. */
  function Patience(e: Entry): nat {
    (if e.reqCnt > RREQ_RETRIES then 0 else RREQ_RETRIES + 1 - e.reqCnt)
    + (if Radius(e) >= TTL_THRESHOLD then 0 else TTL_THRESHOLD - Radius(e))
  }

  /** A search that nobody answers pauses, after no more requests than that. */
  lemma {:induction false} SearchPauses(n: Node, at: Addr, dst: Addr) returns (k: nat)
    requires dst in n.table && n.table[dst].flag != Up
    ensures k <= Patience(n.table[dst])
    ensures React(Attempts(n, at, dst, k), Discover(at, dst, false)).sent == {}
    decreases Patience(n.table[dst])
  {
    SearchGoesOn(n, at, dst, false);
    if n.table[dst].reqCnt > RREQ_RETRIES {
      k := 0;
    } else {
      var n' := React(n, Discover(at, dst, false)).node;
      k := SearchPauses(n', at, dst);
      k := k + 1;
    }
  }

  /** A data packet is left to a route that is up; without one its source starts a search,
      and any other node reports the destination under its number, unless it is repairing. */
  lemma DataResolved(n: Node, at: Addr, dst: Addr, mine: bool, early: bool)
    ensures var o := React(n, Resolve(at, dst, mine, early)); var e := Lookup(n.table, dst);
            && dst in o.node.table && SameRoute(e, o.node.table[dst])
            && (e.flag == Up ==> o == Outcome(n, {}))
            && (e.flag != Up && mine ==> o == React(n.(table := n.table[dst := e]), Discover(at, dst, early)))
            && (e.flag == Down && !mine ==> o.sent == {Rerr(at, map[dst := e.seqno])})
            && (e.flag == InRepair && !mine ==> o.sent == {})
  {
    if dst in n.table { assert n.table[dst := n.table[dst]] == n.table; }
  }

  /** When the link layer gives up on a data packet that came further than it has to go, the
      route to its destination is put under repair and searched for; otherwise the neighbour
      is lost. */
  lemma LinkLayerGivesUp(n: Node, at: Addr, dst: Addr, nbr: Addr, forwards: nat, early: bool)
    requires dst in n.table
    ensures var o, e := React(n, Repair(at, dst, nbr, forwards, early)), n.table[dst];
            if forwards > e.hops then o == React(n.(table := n.table[dst := e.(flag := InRepair)]), Discover(at, dst, early))
            else o == React(n, LinkBreak(at, nbr))
  {
  }

  /** A hello makes its sender a neighbour, under a new own number if it is a new one. */
  lemma HelloHeard(n: Node, at: Addr, m: Msg, waiting: bool)
    requires m.Hello?
    ensures var o := React(n, Deliver(at, m, waiting));
            && o.sent == {} && o.node.table == n.table && o.node.neighbors == n.neighbors + {m.sender}
            && o.node.seqno == if m.sender in n.neighbors then n.seqno else n.seqno + 2
  {
  }

  /** A hello tells the number of its sender and changes nothing. */
  lemma HelloSaid(n: Node, at: Addr)
    ensures React(n, SayHello(at)) == Outcome(n, {Hello(at, n.seqno)})
  {
  }

  // ---------- Floods ----------

  /** A flood is the originator of a request and its number among those of the originator. */
  type Flood = (Addr, nat)

  predicate InFlood(m: Msg, b: Flood) {
    m.Rreq? && (m.src, m.bcastId) == b
  }

  /** No node forgets that it saw the flood. */
  predicate Remembered(evs: seq<Event>, b: Flood) {
    forall k :: 0 <= k < |evs| && evs[k].IdPurge? ==> b !in evs[k].stale
  }

  /** Delivering a request to its originator, or to a node that has seen its flood, changes
      nothing at all. */
  lemma SecondCopyChangesNothing(s: System, at: Addr, m: Msg, waiting: bool)
    requires m.Rreq? && at in s.nodes && (m.src == at || (m.src, m.bcastId) in s.nodes[at].seen)
    ensures Step(s, Deliver(at, m, waiting)) == s
  {
    assert s.nodes[at := s.nodes[at]] == s.nodes;
  }

  /** A node forgets exactly the floods it is told to. */
  lemma FloodsForgotten(n: Node, at: Addr, stale: set<Flood>)
    ensures React(n, IdPurge(at, stale)) == Outcome(n.(seen := n.seen - stale), {})
  {
  }

  /** Who sent a request of the flood used up its number or remembers it, and nobody sent
      two. */
  ghost predicate OneEach(s: System, b: Flood) {
    && (forall m :: m in s.msgs && InFlood(m, b) ==>
          && m.sender in s.nodes
          && if m.sender == b.0 then b.1 < s.nodes[m.sender].bid else b in s.nodes[m.sender].seen)
    && (forall m, m' :: m in s.msgs && m' in s.msgs && InFlood(m, b) && InFlood(m', b) && m.sender == m'.sender ==>
          m == m')
  }

  /** What an event may do to the floods: only a new number of the node itself, or a first
      copy that it then remembers, puts a request on the air. */
  ghost predicate FloodsGoOn(n: Node, ev: Event, o: Outcome) {
    && n.bid <= o.node.bid
    && (forall b :: b in n.seen && !(ev.IdPurge? && b in ev.stale) ==> b in o.node.seen)
    && (forall m :: m in o.sent && m.Rreq? ==>
          && o.sent == {m} && m.sender == ev.at
          && if m.src == ev.at then m.bcastId == n.bid < o.node.bid
             else (m.src, m.bcastId) !in n.seen && (m.src, m.bcastId) in o.node.seen)
  }

  lemma ReactGoesOn(n: Node, ev: Event)
    ensures FloodsGoOn(n, ev, React(n, ev))
  {
    if ev.Deliver? && FirstCopy(n, ev.at, ev.m) {
      RequestTeaches(n, ev.at, ev.m, ev.waiting);
      RequestAnswered(n, ev.at, ev.m, ev.waiting);
    }
  }

  lemma StepKeepsOneEach(s: System, ev: Event, b: Flood)
    requires OneEach(s, b) && !(ev.IdPurge? && b in ev.stale)
    ensures OneEach(Step(s, ev), b)
  {
    if Enabled(s, ev) { ReactGoesOn(s.nodes[ev.at], ev); }
  }

  lemma {:induction false} RunKeepsOneEach(addrs: set<Addr>, evs: seq<Event>, b: Flood)
    requires Remembered(evs, b)
    ensures OneEach(Run(addrs, evs), b)
    decreases |evs|
  {
    if evs != [] {
      var before := evs[..|evs| - 1];
      assert forall k :: 0 <= k < |before| ==> before[k] == evs[k];
      RunKeepsOneEach(addrs, before, b);
      StepKeepsOneEach(Run(addrs, before), evs[|evs| - 1], b);
    }
  }

  /** In every run in which nobody forgets the flood, no node sends two requests of it. */
  lemma OneRequestPerNode(addrs: set<Addr>, evs: seq<Event>, b: Flood, m: Msg, m': Msg)
    requires Remembered(evs, b) && m in Run(addrs, evs).msgs && m' in Run(addrs, evs).msgs
    requires InFlood(m, b) && InFlood(m', b) && m.sender == m'.sender
    ensures m == m'
  {
    RunKeepsOneEach(addrs, evs, b);
  }
}
