/**
 The AODV agent as an object that its handlers update in place, statement by statement as
 in `aodv/aodv.cc`.  Every handler is proved to compute the step function of `AodvModel`,
 and the assertions of the source stand in the bodies at the places where it makes them.

 `Calm` is what the assertions on flags and sequence numbers need, and every run of a build
 without local repair provides it (`AgentsAreAlwaysCalm`). `Ready` is what those on hop counts
 need besides; a network small enough for the 8-bit hop counts provides that
 (`AgentsAreAlwaysReady`).
 */
module AodvAgent {
  import opened AodvModel
  import opened AodvLoopFreedom
  import opened AodvHopBound
  import Progress

  predicate Unrepaired(n: Node) {
    forall d :: d in n.table ==> n.table[d].flag != InRepair
  }

  /** A disciplined node that repairs nothing. */
  predicate Calm(n: Node) {
    NodeOk(n) && Unrepaired(n)
  }

  /** And that has no route as long as `INFINITY2`. */
  predicate Ready(n: Node) {
    Calm(n) && forall d :: d in n.table && n.table[d].flag == Up ==> n.table[d].hops != INFINITY2
  }

  predicate Plausible(m: Msg) {
    && MsgOk(m)
    && (m.Rreq? || m.Rrep? ==> m.hopCount < INFINITY2)
  }

  class Agent {
    const index: Addr
    var seqno: nat
    var bid: nat
    var table: Table
    var seen: set<(Addr, nat)>
    var neighbors: set<Addr>

    ghost function Model(): Node
      reads this
    {
      Node(seqno, bid, table, seen, neighbors)
    }

    constructor (id: Addr)
      ensures index == id && Model() == INITIAL_NODE
    {
      index := id;
      seqno, bid, table, seen, neighbors := 2, 1, map[], {}, {};
    }

    method SendRequest(dst: Addr, early: bool) returns (sent: set<Msg>)
      requires dst in table && Ready(Model())
      modifies this
      ensures Outcome(Model(), sent) == AodvModel.SendRequest(index, old(Model()), dst, early)
    {
      sent := {};
      var rt := table[dst];
      if rt.flag == Up {
        assert rt.hops != INFINITY2;
        return;
      }
      if early {
        return;
      }
      if rt.reqCnt > RREQ_RETRIES {
        table := table[dst := rt.(reqCnt := 0)];
        return;
      }
      rt := rt.(lastTtl := if rt.lastTtl < rt.lastHopCount then rt.lastHopCount else rt.lastTtl);
      var ttl;
      if rt.lastTtl == 0 {
        ttl := TTL_START;
      } else if rt.lastTtl < TTL_THRESHOLD {
        ttl := rt.lastTtl + TTL_INCREMENT;
      } else {
        ttl := NETWORK_DIAMETER;
        rt := rt.(reqCnt := rt.reqCnt + 1);
      }
      rt := rt.(lastTtl := ttl);
      table := table[dst := rt];
      var id := bid;
      bid := bid + 1;
      seqno := seqno + 2;
      assert seqno % 2 == 0;
      sent := {Rreq(index, ttl, index, seqno, 1, dst, rt.seqno, id)};
    }

    method SendReply(ipDst: Addr, hopCount: nat, dst: Addr, dstSeqno: nat) returns (m: Msg)
      requires ipDst in table
      ensures m == Rrep(index, NETWORK_DIAMETER, ipDst, table[ipDst].nexthop, dst, dstSeqno, hopCount)
    {
      m := Rrep(index, NETWORK_DIAMETER, ipDst, table[ipDst].nexthop, dst, dstSeqno, hopCount);
    }

    method RecvRequest(m: Msg, waiting: bool) returns (sent: set<Msg>)
      requires m.Rreq? && Ready(Model()) && Plausible(m)
      modifies this
      ensures Outcome(Model(), sent) == AodvModel.RecvRequest(index, old(Model()), m, waiting)
    {
      sent := {};
      if m.src == index {
        return;
      }
      if (m.src, m.bcastId) in seen {
        return;
      }
      seen := seen + {(m.src, m.bcastId)};
      LearnReverseRoute(m, waiting);
      sent := AnswerRequest(m);
    }

    method LearnReverseRoute(m: Msg, waiting: bool)
      requires m.Rreq? && Ready(Model()) && Plausible(m)
      modifies this`table
      ensures table == old(table)[m.src := ReverseRoute(Lookup(old(table), m.src), m, waiting)]
    {
      if m.src !in table {
        table := table[m.src := FRESH];
      }
      var rt0 := table[m.src];
      if m.srcSeqno > rt0.seqno || (m.srcSeqno == rt0.seqno && m.hopCount < rt0.hops) {
        rt0 := RtUpdate(rt0, m.srcSeqno, m.hopCount, m.sender);
        if waiting {
          rt0 := rt0.(reqCnt := 0, lastTtl := m.hopCount);
        }
        assert rt0.flag == Up;
        assert rt0.hops != INFINITY2;
        table := table[m.src := rt0];
      }
    }

    method AnswerRequest(m: Msg) returns (sent: set<Msg>)
      requires m.Rreq? && m.src in table
      modifies this
      ensures Outcome(Model(), sent) == AodvModel.AnswerRequest(index, old(Model()), m)
    {
      sent := {};
      if m.dst == index {
        seqno := (if seqno < m.dstSeqno then m.dstSeqno else seqno) + 1;
        if seqno % 2 == 1 {
          seqno := seqno + 1;
        }
        var reply := SendReply(m.src, 1, index, seqno);
        sent := {reply};
      } else if m.dst in table && table[m.dst].hops != INFINITY2 && table[m.dst].seqno >= m.dstSeqno {
        var reply := SendReply(m.src, table[m.dst].hops + 1, m.dst, table[m.dst].seqno);
        table := PcInsert(table, m.dst, table[m.src].nexthop);
        table := PcInsert(table, m.src, table[m.dst].nexthop);
        sent := {reply};
      } else {
        var asked := m.dstSeqno;
        if m.dst in table && asked < table[m.dst].seqno {
          asked := table[m.dst].seqno;
        }
        if m.ttl - 1 != 0 {
          sent := {Rreq(index, m.ttl - 1, m.src, m.srcSeqno, m.hopCount + 1, m.dst, asked, m.bcastId)};
        }
      }
    }

    method RecvReply(m: Msg) returns (sent: set<Msg>)
      requires m.Rrep? && Calm(Model()) && MsgOk(m)
      modifies this
      ensures Outcome(Model(), sent) == AodvModel.RecvReply(index, old(Model()), m)
    {
      var suppress := LearnForwardRoute(m);
      if m.ipDst == index || suppress {
        sent := {};
      } else {
        sent := RelayReply(m);
      }
    }

    method LearnForwardRoute(m: Msg) returns (suppress: bool)
      requires m.Rrep?
      modifies this`table
      ensures table == old(table)[m.dst := ForwardRoute(Lookup(old(table), m.dst), m)]
      ensures suppress == !Better(m.dstSeqno, m.hopCount, Lookup(old(table), m.dst))
    {
      if m.dst !in table {
        table := table[m.dst := FRESH];
      }
      var rt := table[m.dst];
      suppress := true;
      if rt.seqno < m.dstSeqno || (rt.seqno == m.dstSeqno && rt.hops > m.hopCount) {
        rt := RtUpdate(rt, m.dstSeqno, m.hopCount, m.sender);
        table := table[m.dst := rt.(reqCnt := 0, lastTtl := m.hopCount)];
        suppress := false;
      }
    }

    method RelayReply(m: Msg) returns (sent: set<Msg>)
      requires m.Rrep? && m.dst in table
      requires m.ipDst in table && table[m.ipDst].hops != INFINITY2 ==> table[m.ipDst].flag == Up
      modifies this`table
      ensures Outcome(Model(), sent) == AodvModel.RelayReply(index, old(Model()), m)
    {
      sent := {};
      if m.ipDst in table && table[m.ipDst].hops != INFINITY2 {
        assert table[m.ipDst].flag == Up;
        var back := table[m.ipDst].nexthop;
        if m.ttl - 1 != 0 {
          sent := {Rrep(index, m.ttl - 1, m.ipDst, back, m.dst, m.dstSeqno, m.hopCount + 1)};
        }
        table := PcInsert(table, m.dst, back);
      }
    }

    method RecvError(m: Msg) returns (sent: set<Msg>)
      requires m.Rerr? && Calm(Model())
      modifies this
      ensures Outcome(Model(), sent) == AodvModel.RecvError(index, old(Model()), m)
    {
      ghost var was, becomes, report := table, ErrorTable(table, m), PassedOn(table, m);
      var todo := m.unreachable.Keys;
      var lost: map<Addr, nat> := map[];
      Progress.Start(was, becomes, report, todo);
      while todo != {}
        invariant todo <= m.unreachable.Keys
        invariant unchanged(this`seqno, this`bid, this`seen, this`neighbors)
        invariant table == Progress.Mixed(was, becomes, todo)
        invariant lost == Progress.Done(report, todo)
      {
        var d :| d in todo;
        Progress.Advance(was, becomes, report, todo, d);
        todo := todo - {d};
        var passOn := LoseRoute(d, m.sender, m.unreachable[d]);
        if passOn {
          lost := lost[d := m.unreachable[d]];
        }
      }
      Progress.Finish(was, becomes, report);
      sent := SendError(lost);
    }

    /** One unreachable destination of a route error; reports whether to pass it on. */
    method LoseRoute(d: Addr, sender: Addr, unreachable: nat) returns (passOn: bool)
      requires d in table ==> Disciplined(table[d]) && table[d].flag != InRepair
      modifies this`table
      ensures table ==
        if d in old(table) && Concerned(old(table)[d], sender, unreachable)
        then old(table)[d := ErrorEntry(old(table)[d], unreachable)] else old(table)
      ensures passOn <==>
        d in table && Concerned(old(table)[d], sender, unreachable) && old(table)[d].precursors != {}
    {
      passOn := false;
      if d in table && table[d].hops != INFINITY2 && table[d].nexthop == sender && table[d].seqno <= unreachable {
        assert table[d].flag == Up;
        assert table[d].seqno % 2 == 0;
        var rt := RtDown(table[d].(seqno := unreachable));
        if rt.precursors != {} {
          passOn := true;
          rt := rt.(precursors := {});
        }
        table := table[d := rt];
      }
    }

    method SendError(lost: map<Addr, nat>) returns (sent: set<Msg>)
      ensures sent == ErrorFor(index, lost)
    {
      sent := if lost == map[] then {} else {Rerr(index, lost)};
    }

    method HandleLinkFailure(nbr: Addr) returns (sent: set<Msg>)
      requires Calm(Model())
      modifies this`table
      ensures table == BrokenTable(old(table), nbr)
      ensures sent == ErrorFor(index, LostThrough(old(table), nbr))
    {
      ghost var was, becomes, report := table, BrokenTable(table, nbr), LostThrough(table, nbr);
      var todo := table.Keys;
      var lost: map<Addr, nat> := map[];
      Progress.Start(was, becomes, report, todo);
      while todo != {}
        invariant todo <= was.Keys
        invariant table == Progress.Mixed(was, becomes, todo)
        invariant lost == Progress.Done(report, todo)
      {
        var d :| d in todo;
        Progress.Advance(was, becomes, report, todo, d);
        todo := todo - {d};
        var rt := table[d];
        if rt.hops != INFINITY2 && rt.nexthop == nbr {
          assert rt.flag == Up;
          assert rt.seqno % 2 == 0;
          rt := rt.(seqno := rt.seqno + 1);
          lost := lost[d := rt.seqno];
          rt := RtDown(rt);
        }
        rt := rt.(precursors := rt.precursors - {nbr});
        table := table[d := rt];
      }
      Progress.Finish(was, becomes, report);
      sent := SendError(lost);
    }

    method NbDelete(nbr: Addr) returns (sent: set<Msg>)
      requires Calm(Model())
      modifies this
      ensures Outcome(Model(), sent) == AodvModel.NbDelete(index, old(Model()), nbr)
    {
      seqno := seqno + 2;
      assert seqno % 2 == 0;
      neighbors := neighbors - {nbr};
      sent := HandleLinkFailure(nbr);
    }

    method RtPurge(expired: set<Addr>)
      requires Ready(Model())
      modifies this`table
      ensures Model() == AodvModel.RtPurge(old(Model()), expired).node
    {
      ghost var was, becomes := table, PurgedTable(table, expired);
      ghost var report: map<Addr, nat> := map[];
      var todo := table.Keys;
      Progress.Start(was, becomes, report, todo);
      while todo != {}
        invariant todo <= was.Keys
        invariant table == Progress.Mixed(was, becomes, todo)
      {
        var d :| d in todo;
        Progress.Advance(was, becomes, report, todo, d);
        todo := todo - {d};
        var rt := table[d];
        if rt.flag == Up && d in expired {
          assert rt.hops != INFINITY2;
          rt := rt.(seqno := rt.seqno + 1);
          assert rt.seqno % 2 == 1;
          table := table[d := RtDown(rt)];
        } else if rt.flag == Up {
          assert rt.hops != INFINITY2;
        }
      }
      Progress.Finish(was, becomes, report);
    }

    method RtResolve(dst: Addr, mine: bool, early: bool) returns (sent: set<Msg>)
      requires Ready(Model())
      modifies this
      ensures Outcome(Model(), sent) == AodvModel.RtResolve(index, old(Model()), dst, mine, early)
    {
      sent := {};
      if dst !in table {
        table := table[dst := FRESH];
      }
      assert table == old(table)[dst := Lookup(old(table), dst)];
      if table[dst].flag == Up {
        assert table[dst].hops != INFINITY2;
      } else if mine {
        sent := SendRequest(dst, early);
      } else if table[dst].flag == InRepair {
      } else {
        assert table[dst].flag == Down;
        sent := {Rerr(index, map[dst := table[dst].seqno])};
      }
    }

    method RecvHello(m: Msg)
      requires m.Hello? && Calm(Model())
      modifies this
      ensures Model() == AodvModel.RecvHello(old(Model()), m).node
    {
      if m.sender !in neighbors {
        neighbors := neighbors + {m.sender};
        seqno := seqno + 2;
        assert seqno % 2 == 0;
      }
    }
  }

  // ---------- The assertions hold in every run ----------

  lemma RequestKeepsUnrepaired(me: Addr, n: Node, m: Msg, waiting: bool)
    requires m.Rreq? && Unrepaired(n)
    ensures Unrepaired(RecvRequest(me, n, m, waiting).node)
  {
    var n' := n.(seen := n.seen + {(m.src, m.bcastId)},
                 table := n.table[m.src := ReverseRoute(Lookup(n.table, m.src), m, waiting)]);
    assert Unrepaired(n');
    assert forall d :: d in AnswerRequest(me, n', m).node.table ==>
        AnswerRequest(me, n', m).node.table[d].flag == n'.table[d].flag;
  }

  lemma ReactKeepsUnrepaired(n: Node, ev: Event)
    requires Unrepaired(n) && !ev.Repair? && !ev.RepairExpires?
    ensures Unrepaired(React(n, ev).node)
  {
    if ev.Deliver? && ev.m.Rreq? {
      RequestKeepsUnrepaired(ev.at, n, ev.m, ev.waiting);
    }
  }

  lemma {:induction false} NothingUnderRepair(addrs: set<Addr>, evs: seq<Event>)
    requires RepairOff(evs)
    ensures forall i :: i in Run(addrs, evs).nodes ==> Unrepaired(Run(addrs, evs).nodes[i])
  {
    if evs != [] {
      var s, ev := Run(addrs, evs[..|evs| - 1]), evs[|evs| - 1];
      NothingUnderRepair(addrs, evs[..|evs| - 1]);
      if Enabled(s, ev) {
        ReactKeepsUnrepaired(s.nodes[ev.at], ev);
      }
    }
  }

  /** In networks of any size: what the assertions on flags and numbers need. */
  lemma AgentsAreAlwaysCalm(addrs: set<Addr>, evs: seq<Event>)
    requires RepairOff(evs)
    ensures forall i :: i in Run(addrs, evs).nodes ==> Calm(Run(addrs, evs).nodes[i])
    ensures forall m :: m in Run(addrs, evs).msgs ==> MsgOk(m)
  {
    RepairOffNeverAbandons(addrs, evs);
    NothingUnderRepair(addrs, evs);
    RunKeepsInv(addrs, evs);
  }

  /** In networks of up to 223 nodes: what those on hop counts need. */
  lemma AgentsAreAlwaysReady(addrs: set<Addr>, evs: seq<Event>)
    requires RepairOff(evs)
    requires |addrs| + NETWORK_DIAMETER + 1 < INFINITY2
    ensures forall i :: i in Run(addrs, evs).nodes ==> Ready(Run(addrs, evs).nodes[i])
    ensures forall m :: m in Run(addrs, evs).msgs ==> Plausible(m)
  {
    RepairOffNeverAbandons(addrs, evs);
    AgentsAreAlwaysCalm(addrs, evs);
    SmallNetworksNeverOverflow(addrs, evs);
    PlausiblePackets(addrs, evs);
  }

  lemma PlausiblePackets(addrs: set<Addr>, evs: seq<Event>)
    requires NeverAbandons(addrs, evs)
    requires |addrs| + NETWORK_DIAMETER + 1 < INFINITY2
    ensures forall m :: m in Run(addrs, evs).msgs ==> Plausible(m)
  {
    SmallNetworksNeverOverflow(addrs, evs);
    RunKeepsInv(addrs, evs);
    forall m | m in Run(addrs, evs).msgs ensures Plausible(m) {
      assert forall a :: a in AdvertsOf(m) ==> a.hops < INFINITY2;
      if m.Rreq? { assert Advert(m.sender, m.src, m.srcSeqno, m.hopCount) in AdvertsOf(m); }
      if m.Rrep? { assert Advert(m.sender, m.dst, m.dstSeqno, m.hopCount) in AdvertsOf(m); }
    }
  }

  // ---------- Where replies go ----------

  /** A request that is not a repetition leaves an entry for its originator, and every reply
      goes to the next hop of that entry. The entry is usable if and only if the request was
      accepted for it or it was usable before; a fresher entry that is down is not replaced,
      and the reply then leaves for the address that stands in it. */
  lemma RepliesTakeReverseRoute(me: Addr, n: Node, m: Msg, waiting: bool, r: Msg)
    requires m.Rreq? && m.src != me && (m.src, m.bcastId) !in n.seen
    requires r.Rrep? && r in RecvRequest(me, n, m, waiting).sent
    ensures
      var t := RecvRequest(me, n, m, waiting).node.table;
      var e, e' := Lookup(n.table, m.src), t[m.src];
      && r.sender == me && r.ipDst == m.src && r.linkDst == e'.nexthop
      && (e'.flag == Up <==> Better(m.srcSeqno, m.hopCount, e) || e.flag == Up)
      && (Better(m.srcSeqno, m.hopCount, e) ==> r.linkDst == m.sender)
      && r.dst == m.dst && r.dstSeqno >= m.dstSeqno
      && (r.dst != me ==> r.dst in t && r.dstSeqno == t[r.dst].seqno && r.hopCount == t[r.dst].hops + 1)
  {
  }
}
