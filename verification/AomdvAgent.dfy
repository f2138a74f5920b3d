/**
 The AOMDV agent as an object over a route table of entry objects, updated in place as in
 `aomdv/aomdv.cc`.  Every handler computes the step function of `AomdvModel`.

 The assertions of the source about re-heard paths rest on what other nodes said before.
 They are the precondition `Consistent` here, and `AssertionsHold` shows that every run of
 a network provides it.
 */
module AomdvAgent {
  import opened Basics
  import opened AomdvModel
  import opened AomdvLoopFreedom
  import opened AomdvTable
  import Progress

  /** The route table: entry objects filed under their destination. */
  class RtTable {
    var table: map<Addr, RtEntry>
    ghost var entries: Table  // what the entry objects stand for
    ghost var Repr: set<RtEntry>

    /** The entry for `d` is well formed, filed under its own destination, and stands for
        what `entries` says. */
    ghost predicate Filed(d: Addr)
      reads this, Repr
    {
      && d in table && d in entries
      && table[d] in Repr && table[d].dst == d && table[d].Is(entries[d])
    }

    ghost predicate Valid()
      reads this, Repr
    {
      && entries.Keys == table.Keys
      && forall d {:trigger Filed(d)} :: d in table ==> Filed(d)
    }

    /** Only the entry for `d` was changed. */
    twostate lemma Refiled(d: Addr)
      requires old(Valid()) && unchanged(this`table, this`Repr) && d in table
      requires Filed(d) && entries == old(entries)[d := entries[d]]
      requires forall o :: o in Repr && o != table[d] ==> unchanged(o)
      ensures Valid()
    {
      assert old(Filed(d));
      forall a | a in table
        ensures Filed(a)
      {
        assert old(Filed(a));
      }
    }

    constructor ()
      ensures Valid() && entries == map[] && Repr == {}
    {
      table, entries, Repr := map[], map[], {};
    }

    /** `rt_lookup`, and `rt_add` when there is no entry. */
    method LookupOrAdd(d: Addr)
      requires Valid()
      modifies this
      ensures Valid() && d in table && fresh(Repr - old(Repr))
      ensures entries == old(entries)[d := Lookup(old(entries), d)]
    {
      if d !in table {
        var rt := new RtEntry(d);
        table := table[d := rt];
        entries := entries[d := FRESH];
        Repr := Repr + {rt};
        forall a | a in table ensures Filed(a) {
          assert a != d ==> old(Filed(a));
        }
      }
    }

    /** `rt_lookup` for reading. */
    method Get(d: Addr) returns (e: Entry)
      requires Valid() && d in table
      ensures e == entries[d]
    {
      assert Filed(d);
      e := table[d].Model();
    }

    method NextTtl(d: Addr) returns (ttl: nat)
      requires Valid() && d in table
      modifies this`entries, Repr
      ensures Valid()
      ensures (entries, ttl) == (var (e, t) := AomdvModel.NextTtl(old(entries)[d]); (old(entries)[d := e], t))
    {
      assert Filed(d);
      ttl := table[d].NextTtl();
      entries := entries[d := table[d].Model()];
      Refiled(d);
    }

    method ForgetRequests(d: Addr)
      requires Valid() && d in table
      modifies this`entries, Repr
      ensures Valid() && entries == old(entries)[d := old(entries)[d].(reqCnt := 0)]
    {
      assert Filed(d);
      table[d].reqCnt := 0;
      entries := entries[d := table[d].Model()];
      Refiled(d);
    }

    method SoftReset(d: Addr)
      requires Valid() && d in table
      modifies this`entries, Repr
      ensures Valid() && entries == old(entries)[d := AomdvModel.SoftReset(old(entries)[d])]
    {
      assert Filed(d);
      table[d].SoftReset();
      entries := entries[d := table[d].Model()];
      Refiled(d);
    }

    method HearRequest(d: Addr, cfg: Config, srcSeqno: nat, p: Path, forMe: bool) returns (verdict: Verdict)
      requires Valid() && d in table && p.hopcount >= 1 && Consistent(entries[d], srcSeqno, p)
      modifies this`entries, Repr
      ensures Valid()
      ensures
        var (e, v) := AomdvModel.HearRequest(cfg, old(entries)[d], srcSeqno, p, forMe);
        entries == old(entries)[d := e] && verdict == v
    {
      assert Filed(d);
      verdict := table[d].HearRequest(cfg, srcSeqno, p, forMe);
      entries := entries[d := table[d].Model()];
      Refiled(d);
    }

    method HearReply(d: Addr, cfg: Config, dstSeqno: nat, p: Path) returns (verdict: Verdict)
      requires Valid() && d in table && p.hopcount >= 1 && Consistent(entries[d], dstSeqno, p)
      modifies this`entries, Repr
      ensures Valid()
      ensures
        var (e, v) := AomdvModel.HearReply(cfg, old(entries)[d], dstSeqno, p);
        entries == old(entries)[d := e] && verdict == v
    {
      assert Filed(d);
      verdict := table[d].HearReply(cfg, dstSeqno, p);
      entries := entries[d := table[d].Model()];
      Refiled(d);
    }

    /** Advertise the route, and remember that an error must be reported when `mark`. */
    method Advertise(d: Addr, mark: bool) returns (e: Entry)
      requires Valid() && d in table
      modifies this`entries, Repr
      ensures Valid() && entries == old(entries)[d := e]
      ensures e == AomdvModel.Advertise(old(entries)[d]).(error := old(entries)[d].error || mark)
    {
      assert Filed(d);
      table[d].AdvertiseAndMark(mark);
      e := table[d].Model();
      entries := entries[d := e];
      Refiled(d);
    }

    method Use(d: Addr, now: real, mine: bool)
      requires Valid() && d in table && entries[d].paths != []
      modifies this`entries, Repr
      ensures Valid() && entries == old(entries)[d := UsedEntry(old(entries)[d], now, mine)]
    {
      assert Filed(d);
      table[d].Use(now, mine);
      entries := entries[d := table[d].Model()];
      Refiled(d);
    }

    method Error(d: Addr, nbr: Addr, unreachable: nat) returns (passOn: bool, seqno: nat)
      requires Valid() && d in table && (entries[d].flag == Up ==> Even(entries[d].seqno))
      modifies this`entries, Repr
      ensures Valid() && entries == old(entries)[d := ErrorEntry(old(entries)[d], nbr, unreachable)]
      ensures passOn == ErrorSpreads(old(entries)[d], nbr, unreachable) && seqno == entries[d].seqno
    {
      assert Filed(d);
      passOn := table[d].Error(nbr, unreachable);
      entries := entries[d := table[d].Model()];
      Refiled(d);
      seqno := table[d].seqno;
    }

    method Break(d: Addr, nbr: Addr) returns (passOn: bool, seqno: nat)
      requires Valid() && d in table && (entries[d].flag == Up ==> Even(entries[d].seqno))
      modifies this`entries, Repr
      ensures Valid() && entries == old(entries)[d := BrokenEntry(old(entries)[d], nbr)]
      ensures passOn == BreakSpreads(old(entries)[d], nbr)
      ensures passOn ==> seqno == RaisedSeqno(old(entries)[d])
    {
      assert Filed(d);
      passOn := table[d].Break(nbr);
      entries := entries[d := table[d].Model()];
      Refiled(d);
      seqno := table[d].seqno;
    }

    method Purge(d: Addr, now: real)
      requires Valid() && d in table
      modifies this`entries, Repr
      ensures Valid() && entries == old(entries)[d := PurgedEntry(old(entries)[d], now)]
    {
      assert Filed(d);
      table[d].Purge(now);
      entries := entries[d := table[d].Model()];
      Refiled(d);
    }
  }

  /** Routes in use have even numbers. */
  predicate EvenWhenUp(t: Table) {
    forall d :: d in t && t[d].flag == Up ==> Even(t[d].seqno)
  }

  class Agent {
    const index: Addr
    const cfg: Config
    const rtable: RtTable
    var seqno: nat
    var bid: nat
    var ids: map<(Addr, nat), bool>
    var neighbors: set<Addr>

    ghost predicate Valid()
      reads rtable, rtable.Repr
    {
      rtable.Valid()
    }

    ghost function Model(): Node
      reads this, rtable
    {
      Node(seqno, bid, rtable.entries, ids, neighbors)
    }

    constructor (id: Addr, c: Config)
      ensures index == id && cfg == c && fresh(rtable) && Valid() && Model() == INITIAL_NODE
    {
      index, cfg := id, c;
      rtable := new RtTable();
      seqno, bid, ids, neighbors := 2, 1, map[], {};
    }

    method SendRequest(dst: Addr, early: bool) returns (sent: set<Msg>)
      requires Valid() && dst in rtable.entries && Even(seqno)
      modifies this, rtable, rtable.Repr
      ensures Valid() && fresh(rtable.Repr - old(rtable.Repr))
      ensures Outcome(Model(), sent) == AomdvModel.SendRequest(index, old(Model()), dst, early)
    {
      sent := {};
      var rt := rtable.Get(dst);
      if rt.flag == Up || early {
        return;
      }
      if rt.reqCnt > RREQ_RETRIES {
        rtable.ForgetRequests(dst);
        return;
      }
      var ttl := rtable.NextTtl(dst);
      sent := {Rreq(index, ttl, index, seqno + 2, 0, 0, dst, rt.seqno, bid)};
      bid := bid + 1;
      seqno := seqno + 2;
      assert seqno % 2 == 0;
    }

    method RecvRequest(m: Msg, now: real) returns (sent: set<Msg>)
      requires m.Rreq? && Valid()
      requires m.src != index ==> Consistent(Lookup(rtable.entries, m.src), m.srcSeqno, RequestPath(index, m, now))
      modifies this, rtable, rtable.Repr
      ensures Valid() && fresh(rtable.Repr - old(rtable.Repr))
      ensures Outcome(Model(), sent) == AomdvModel.RecvRequest(cfg, index, old(Model()), m, now)
    {
      sent := {};
      if m.src == index {
        return;
      }
      ghost var n := Model();
      rtable.LookupOrAdd(m.src);
      var verdict := rtable.HearRequest(m.src, cfg, m.srcSeqno, RequestPath(index, m, now), m.dst == index);
      sent := AfterRequest(m, verdict, now, n, rtable.entries[m.src]);
    }

    /** The rest of `recvRequest`, once the reverse route `e` is on file. */
    method AfterRequest(m: Msg, verdict: Verdict, now: real, ghost n: Node, ghost e: Entry) returns (sent: set<Msg>)
      requires m.Rreq? && Valid()
      requires Model() == n.(table := n.table[m.src := e])
      modifies this, rtable, rtable.Repr
      ensures Valid() && fresh(rtable.Repr - old(rtable.Repr))
      ensures Outcome(Model(), sent) == AomdvModel.AfterRequest(index, n, m, e, verdict, now)
    {
      sent := {};
      var known := (m.src, m.bcastId) in ids;
      if !known {
        ids := ids[(m.src, m.bcastId) := false];
      }
      if verdict == Ignored {
        return;
      }
      rtable.SoftReset(m.src);
      ghost var n' := Model();
      assert n'.table == n.table[m.src := AomdvModel.SoftReset(e)];
      sent := AnswerRequest(m, verdict == Stored, known, now);
      assert Outcome(Model(), sent) == AomdvModel.AnswerRequest(index, n', m, verdict == Stored, known, now);
    }

    method AnswerRequest(m: Msg, stored: bool, known: bool, now: real) returns (sent: set<Msg>)
      requires m.Rreq? && Valid() && m.src in rtable.entries
      modifies this, rtable, rtable.Repr
      ensures Valid() && fresh(rtable.Repr - old(rtable.Repr))
      ensures Outcome(Model(), sent) == AomdvModel.AnswerRequest(index, old(Model()), m, stored, known, now)
    {
      if m.dst == index {
        sent := AnswerAsDestination(m);
        return;
      }
      if m.dst in rtable.table {
        var rt := rtable.Get(m.dst);
        if rt.flag == Up && rt.seqno >= m.dstSeqno {
          sent := AnswerFromRoute(m, stored, now);
          return;
        }
      }
      if known {
        sent := {};
      } else {
        sent := PassOnRequest(m);
      }
    }

    method AnswerAsDestination(m: Msg) returns (sent: set<Msg>)
      requires m.Rreq? && m.dst == index
      modifies this`seqno
      ensures seqno == AnswerSeqno(old(seqno), m.dstSeqno)
      ensures sent == {OwnReply(index, m, seqno)}
    {
      if seqno < m.dstSeqno {
        seqno := m.dstSeqno + 1;
      }
      if seqno % 2 == 1 {
        seqno := seqno + 1;
      }
      sent := {OwnReply(index, m, seqno)};
    }

    method AnswerFromRoute(m: Msg, stored: bool, now: real) returns (sent: set<Msg>)
      requires m.Rreq? && Valid() && m.dst in rtable.entries
      modifies this`ids, rtable, rtable.Repr
      ensures Valid() && fresh(rtable.Repr - old(rtable.Repr))
      ensures Outcome(Model(), sent) == ReplyFromRoute(index, old(Model()), m, stored, now)
    {
      sent := {};
      var b := (m.src, m.bcastId);
      if stored && b in ids && !ids[b] {
        ids := ids[b := true];
        var rt := rtable.Advertise(m.dst, true);
        sent := {Rrep(index, NETWORK_DIAMETER, m.src, m.sender, m.dst, rt.seqno, AdvertisedHops(rt),
                      FirstLasthop(rt), m.bcastId, FirstExpire(rt) - now)};
      }
    }

    method PassOnRequest(m: Msg) returns (sent: set<Msg>)
      requires m.Rreq? && Valid() && m.src in rtable.entries
      modifies rtable, rtable.Repr
      ensures Valid() && fresh(rtable.Repr - old(rtable.Repr))
      ensures Outcome(Model(), sent) == ForwardRequest(index, old(Model()), m)
    {
      var asked := m.dstSeqno;
      if m.dst in rtable.table {
        var rt := rtable.Get(m.dst);
        asked := Max(rt.seqno, asked);
      }
      var rt0 := rtable.Advertise(m.src, false);
      if m.ttl - 1 == 0 {
        sent := {};
      } else {
        sent := {Rreq(index, m.ttl - 1, m.src, m.srcSeqno, AdvertisedHops(rt0), FirstLasthop(rt0), m.dst, asked, m.bcastId)};
      }
    }

    method RecvReply(m: Msg, now: real) returns (sent: set<Msg>)
      requires m.Rrep? && Valid()
      requires m.dst != index ==> Consistent(Lookup(rtable.entries, m.dst), m.dstSeqno, ReplyPath(m, now))
      modifies this, rtable, rtable.Repr
      ensures Valid() && fresh(rtable.Repr - old(rtable.Repr))
      ensures Outcome(Model(), sent) == AomdvModel.RecvReply(cfg, index, old(Model()), m, now)
    {
      sent := {};
      if m.dst == index {
        return;
      }
      ghost var n := Model();
      rtable.LookupOrAdd(m.dst);
      var verdict := rtable.HearReply(m.dst, cfg, m.dstSeqno, ReplyPath(m, now));
      sent := AfterReply(m, verdict, now, n, rtable.entries[m.dst]);
    }

    /** The rest of `recvReply`, once the forward route `e` is on file. */
    method AfterReply(m: Msg, verdict: Verdict, now: real, ghost n: Node, ghost e: Entry) returns (sent: set<Msg>)
      requires m.Rrep? && Valid()
      requires Model() == n.(table := n.table[m.dst := e])
      modifies this, rtable, rtable.Repr
      ensures Valid() && fresh(rtable.Repr - old(rtable.Repr))
      ensures Outcome(Model(), sent) == AomdvModel.AfterReply(index, n, m, e, verdict, now)
    {
      sent := {};
      if verdict == Ignored {
        return;
      }
      rtable.SoftReset(m.dst);
      ghost var n' := n.(table := n.table[m.dst := AomdvModel.SoftReset(e)]);
      assert Model() == n' by {
        assert Model().table == n'.table;
      }
      if m.ipDst == index {
        return;
      }
      sent := RelayReply(m, now);
      assert Outcome(Model(), sent) == AomdvModel.RelayReply(index, n', m, now);
    }

    method RelayReply(m: Msg, now: real) returns (sent: set<Msg>)
      requires m.Rrep? && Valid() && m.dst in rtable.entries
      modifies this, rtable, rtable.Repr
      ensures Valid() && fresh(rtable.Repr - old(rtable.Repr))
      ensures Outcome(Model(), sent) == AomdvModel.RelayReply(index, old(Model()), m, now)
    {
      sent := {};
      var b := (m.ipDst, m.bcastId);
      if m.ipDst !in rtable.table {
        return;
      }
      var rt0 := rtable.Get(m.ipDst);
      if rt0.flag != Up || rt0.paths == [] || b !in ids || ids[b] {
        return;
      }
      ids := ids[b := true];
      var rt := rtable.Advertise(m.dst, true);
      rtable.Use(m.ipDst, now, true);
      if m.ttl - 1 != 0 {
        sent := {Rrep(index, m.ttl - 1, m.ipDst, rt0.paths[0].nexthop, m.dst, m.dstSeqno, AdvertisedHops(rt),
                      FirstLasthop(rt), m.bcastId, m.lifetime)};
      }
    }

    method RecvHello(m: Msg, now: real) returns (sent: set<Msg>)
      requires m.Hello? && Valid()
      requires m.sender != index ==>
        Consistent(Lookup(rtable.entries, m.sender), m.seqno, Path(m.sender, 1, now + HELLO_LIFETIME, index))
      modifies this, rtable, rtable.Repr
      ensures Valid() && fresh(rtable.Repr - old(rtable.Repr))
      ensures Outcome(Model(), sent) == AomdvModel.RecvHello(cfg, index, old(Model()), m, now)
    {
      neighbors := neighbors + {m.sender};
      sent := RecvReply(Rrep(m.sender, 0, index, index, m.sender, m.seqno, 0, index, 0, HELLO_LIFETIME), now);
    }

    method RecvError(m: Msg) returns (sent: set<Msg>)
      requires m.Rerr? && Valid() && EvenWhenUp(rtable.entries)
      modifies this, rtable, rtable.Repr
      ensures Valid() && fresh(rtable.Repr - old(rtable.Repr))
      ensures Outcome(Model(), sent) == AomdvModel.RecvError(index, old(Model()), m)
    {
      ghost var was, becomes, report := rtable.entries, ErrorTable(rtable.entries, m), PassedOn(rtable.entries, m);
      var todo := m.unreachable.Keys;
      var lost: map<Addr, nat> := map[];
      Progress.Start(was, becomes, report, todo);
      while todo != {}
        invariant Valid() && rtable.Repr == old(rtable.Repr) && unchanged(this)
        invariant todo <= m.unreachable.Keys
        invariant rtable.entries == Progress.Mixed(was, becomes, todo)
        invariant lost == Progress.Done(report, todo)
      {
        var d :| d in todo;
        lost := LoseRoute(d, m, lost, was, todo);
        todo := todo - {d};
      }
      Progress.Finish(was, becomes, report);
      sent := if lost == map[] then {} else {Rerr(index, lost)};
    }

    /** One unreachable destination of a route error. */
    method LoseRoute(d: Addr, m: Msg, lost: map<Addr, nat>, ghost was: Table, ghost todo: set<Addr>)
      returns (lost': map<Addr, nat>)
      requires m.Rerr? && d in m.unreachable && Valid() && EvenWhenUp(was) && d in todo
      requires rtable.entries == Progress.Mixed(was, ErrorTable(was, m), todo)
      requires lost == Progress.Done(PassedOn(was, m), todo)
      modifies rtable`entries, rtable.Repr
      ensures Valid()
      ensures rtable.entries == Progress.Mixed(was, ErrorTable(was, m), todo - {d})
      ensures lost' == Progress.Done(PassedOn(was, m), todo - {d})
    {
      Progress.Advance(was, ErrorTable(was, m), PassedOn(was, m), todo, d);
      lost' := lost;
      if d in rtable.table {
        var passOn, s := rtable.Error(d, m.sender, m.unreachable[d]);
        lost' := if passOn then lost[d := s] else lost;
      }
    }

    method HandleLinkFailure(nbr: Addr) returns (sent: set<Msg>)
      requires Valid() && EvenWhenUp(rtable.entries)
      modifies rtable, rtable.Repr
      ensures Valid() && fresh(rtable.Repr - old(rtable.Repr))
      ensures rtable.entries == BrokenTable(old(rtable.entries), nbr)
      ensures sent == ErrorFor(index, LostThrough(old(rtable.entries), nbr))
    {
      ghost var was, becomes, report := rtable.entries, BrokenTable(rtable.entries, nbr), LostThrough(rtable.entries, nbr);
      var todo := rtable.table.Keys;
      var lost: map<Addr, nat> := map[];
      Progress.Start(was, becomes, report, todo);
      while todo != {}
        invariant Valid() && rtable.Repr == old(rtable.Repr)
        invariant todo <= was.Keys
        invariant rtable.entries == Progress.Mixed(was, becomes, todo)
        invariant lost == Progress.Done(report, todo)
      {
        var d :| d in todo;
        lost := BreakRoute(d, nbr, lost, was, todo);
        todo := todo - {d};
      }
      Progress.Finish(was, becomes, report);
      sent := if lost == map[] then {} else {Rerr(index, lost)};
    }

    /** One entry of the table when the link to `nbr` broke. */
    method BreakRoute(d: Addr, nbr: Addr, lost: map<Addr, nat>, ghost was: Table, ghost todo: set<Addr>)
      returns (lost': map<Addr, nat>)
      requires Valid() && EvenWhenUp(was) && d in todo && d in was
      requires rtable.entries == Progress.Mixed(was, BrokenTable(was, nbr), todo)
      requires lost == Progress.Done(LostThrough(was, nbr), todo)
      modifies rtable`entries, rtable.Repr
      ensures Valid()
      ensures rtable.entries == Progress.Mixed(was, BrokenTable(was, nbr), todo - {d})
      ensures lost' == Progress.Done(LostThrough(was, nbr), todo - {d})
    {
      Progress.Advance(was, BrokenTable(was, nbr), LostThrough(was, nbr), todo, d);
      var passOn, s := rtable.Break(d, nbr);
      lost' := if passOn then lost[d := s] else lost;
    }

    method NbDelete(nbr: Addr) returns (sent: set<Msg>)
      requires Valid() && EvenWhenUp(rtable.entries) && Even(seqno)
      modifies this, rtable, rtable.Repr
      ensures Valid() && fresh(rtable.Repr - old(rtable.Repr))
      ensures Outcome(Model(), sent) == AomdvModel.NbDelete(index, old(Model()), nbr)
    {
      seqno := seqno + 2;
      assert seqno % 2 == 0;
      neighbors := neighbors - {nbr};
      sent := HandleLinkFailure(nbr);
    }

    method RtPurge(now: real)
      requires Valid()
      modifies rtable, rtable.Repr
      ensures Valid() && fresh(rtable.Repr - old(rtable.Repr))
      ensures rtable.entries == PurgedTable(old(rtable.entries), now)
    {
      ghost var was, becomes := rtable.entries, PurgedTable(rtable.entries, now);
      ghost var report: map<Addr, nat> := map[];
      var todo := rtable.table.Keys;
      Progress.Start(was, becomes, report, todo);
      while todo != {}
        invariant Valid() && rtable.Repr == old(rtable.Repr)
        invariant todo <= was.Keys
        invariant rtable.entries == Progress.Mixed(was, becomes, todo)
      {
        var d :| d in todo;
        Progress.Advance(was, becomes, report, todo, d);
        todo := todo - {d};
        rtable.Purge(d, now);
      }
      Progress.Finish(was, becomes, report);
    }

    method RtResolve(dst: Addr, mine: bool, early: bool, now: real) returns (sent: set<Msg>)
      requires Valid() && NodeOk(cfg, Model())
      modifies this, rtable, rtable.Repr
      ensures Valid() && fresh(rtable.Repr - old(rtable.Repr))
      ensures Outcome(Model(), sent) == AomdvModel.RtResolve(index, old(Model()), dst, mine, early, now)
    {
      sent := {};
      rtable.LookupOrAdd(dst);
      var rt := rtable.Get(dst);
      if rt.flag == Up {
        assert EntryOk(cfg, rt);
        rtable.Use(dst, now, mine);
      } else if mine {
        sent := SendRequest(dst, early);
      } else {
        assert rt.flag == Down;
        sent := {Rerr(index, map[dst := rt.seqno])};
      }
    }
  }

  // ---------- The assertions hold in every run ----------

  /** What a packet claims agrees with what every node has on file about its sender. */
  ghost predicate HeardConsistently(n: Node, me: Addr, a: Advert, p: Path) {
    me != a.dst && p.nexthop == a.sender && p.hopcount == a.hops + 1 ==>
      Consistent(Lookup(n.table, a.dst), a.seqno, p)
  }

  lemma AssertionsHold(cfg: Config, addrs: set<Addr>, evs: seq<Event>, i: Addr, m: Msg, a: Advert, p: Path)
    requires i in Run(cfg, addrs, evs).nodes && m in Run(cfg, addrs, evs).msgs && a in AdvertsOf(m)
    ensures NodeOk(cfg, Run(cfg, addrs, evs).nodes[i]) && MsgOk(m)
    ensures EvenWhenUp(Run(cfg, addrs, evs).nodes[i].table)
    ensures HeardConsistently(Run(cfg, addrs, evs).nodes[i], i, a, p)
  {
    RunKeepsInv(cfg, addrs, evs);
    var s := Run(cfg, addrs, evs);
    var e := Lookup(s.nodes[i].table, a.dst);
    assert a in AllAdverts(s.msgs);
    if i != a.dst && p.nexthop == a.sender && p.hopcount == a.hops + 1 && e.seqno == a.seqno {
      assert EntryOk(cfg, e);
      assert Even(a.seqno);
      forall q | q in e.paths && q.nexthop == p.nexthop
        ensures q.hopcount == p.hopcount
      {
        assert Advert(q.nexthop, a.dst, e.seqno, q.hopcount - 1) in AllAdverts(s.msgs);
      }
    }
  }
}
