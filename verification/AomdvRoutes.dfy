/**
 What each event does to the path lists of an AOMDV node and what it makes the node send,
 in terms of the fields of its entries, and an ordinary discovery over three nodes.
 */
module AomdvRoutes {
  import opened Basics
  import opened AomdvModel
  import opened AomdvLoopFreedom

  // ---------- Paths that are learned ----------

  /** Nothing but timers, counters and marks differs, and at most the hop count is fixed that
      the entry advertises. */
  ghost predicate SamePaths(e: Entry, e': Entry) {
    && e'.seqno == e.seqno && e'.flag == e.flag && SameRoutes(e.paths, e'.paths)
    && (e'.advertised == e.advertised || e.advertised == NotYet)
  }

  /** All entries but the one for `d` keep their paths. */
  ghost predicate OthersSame(t: Table, t': Table, d: Addr) {
    t'.Keys == t.Keys + {d} && forall a :: a in t && a != d ==> SamePaths(t[a], t'[a])
  }

  predicate IsPath(p: Path, nexthop: Addr, hops: nat, lasthop: Addr) {
    p.nexthop == nexthop && p.hopcount == hops && p.lasthop == lasthop
  }

  /** There is room for one more path, and the new one is not too much longer than any other;
      hop counts above `INFINITY2` count as that. */
  predicate HasRoom(cfg: Config, ps: seq<Path>, hops: nat) {
    |ps| < cfg.maxPaths && forall q :: q in ps ==> hops - Min(q.hopcount, INFINITY2) <= cfg.lengthDiff
  }

  predicate Shares(ps: seq<Path>, nexthop: Addr, lasthop: Addr) {
    exists q :: q in ps && (q.nexthop == nexthop || q.lasthop == lasthop)
  }

  /** What hearing under `seqno` of a path does to the entry: a higher number makes it the
      only one; under the same number, and if it is shorter than what is advertised, it joins
      the others when it shares no end with them and there is room; otherwise the paths
      stay. */
  ghost predicate Learns(cfg: Config, e: Entry, e': Entry, seqno: nat, nexthop: Addr, hops: nat, lasthop: Addr) {
    && (e.seqno < seqno ==>
          && e'.flag == Up && e'.seqno == seqno
          && |e'.paths| == 1 && IsPath(e'.paths[0], nexthop, hops, lasthop))
    && (e.seqno >= seqno ==>
          && e'.flag == e.flag && e'.seqno == e.seqno
          && var joins := e.seqno == seqno && (e.advertised == NotYet || hops <= e.advertised.h)
                          && !Shares(e.paths, nexthop, lasthop) && HasRoom(cfg, e.paths, hops);
             && |e'.paths| == |e.paths| + (if joins then 1 else 0)
             && SameRoutes(e.paths, e'.paths[..|e.paths|])
             && (joins ==> IsPath(e'.paths[|e.paths|], nexthop, hops, lasthop)))
  }

  lemma RoomIs(cfg: Config, ps: seq<Path>, hops: nat)
    requires ps != []
    ensures Room(cfg, ps, hops) <==> HasRoom(cfg, ps, hops)
  {
    ShortestIs(ps);
  }

  lemma {:induction false} ShortestIs(ps: seq<Path>)
    ensures forall q :: q in ps ==> MinHops(ps) <= Min(q.hopcount, INFINITY2)
    ensures ps != [] ==> exists q :: q in ps && Min(q.hopcount, INFINITY2) == MinHops(ps)
  {
    if |ps| > 1 {
      ShortestIs(ps[1..]);
      var q :| q in ps[1..] && Min(q.hopcount, INFINITY2) == MinHops(ps[1..]);
      assert q in ps && ps[0] in ps;
    }
    if |ps| == 1 { assert MinHops(ps[1..]) == INFINITY2 && ps[0] in ps; }
  }

  lemma DisjointIs(ps: seq<Path>, nexthop: Addr, lasthop: Addr)
    ensures NewDisjoint(ps, nexthop, lasthop) <==> !Shares(ps, nexthop, lasthop)
    ensures Between(ps, nexthop, lasthop) < |ps| ==> Shares(ps, nexthop, lasthop)
  {
    if !NewDisjoint(ps, nexthop, lasthop) {
      var j :| 0 <= j < |ps| && (ps[j].nexthop == nexthop || ps[j].lasthop == lasthop);
      assert ps[j] in ps;
    }
    var k := Between(ps, nexthop, lasthop);
    if k < |ps| { assert ps[k] in ps; }
  }

  lemma HearReplyLearns(cfg: Config, e: Entry, seqno: nat, p: Path)
    requires p.hopcount >= 1 && EntryOk(cfg, e) && Even(seqno)
    ensures Learns(cfg, e, HearReply(cfg, e, seqno, p).0, seqno, p.nexthop, p.hopcount, p.lasthop)
  {
    if e.paths != [] { RoomIs(cfg, e.paths, p.hopcount); }
    DisjointIs(e.paths, p.nexthop, p.lasthop);
  }

  /** A request and a reply about the same path do the same to the entry. */
  lemma HeardAlike(cfg: Config, e: Entry, seqno: nat, p: Path, forMe: bool)
    requires p.hopcount >= 1
    ensures HearRequest(cfg, e, seqno, p, forMe).0 == HearReply(cfg, e, seqno, p).0
  {
  }

  lemma LearnsThen(cfg: Config, e: Entry, e1: Entry, e': Entry, seqno: nat, nexthop: Addr, hops: nat, lasthop: Addr)
    requires Learns(cfg, e, e1, seqno, nexthop, hops, lasthop) && Touched(e1, e')
    ensures Learns(cfg, e, e', seqno, nexthop, hops, lasthop)
  {
  }

  lemma TouchedOthers(t: Table, d: Addr, e: Entry, t': Table)
    requires TouchedTable(t[d := e], t')
    ensures OthersSame(t, t', d)
  {
    assert t[d := e].Keys == t.Keys + {d};
    forall a | a in t && a != d ensures SamePaths(t[a], t'[a]) {
      assert Touched(t[d := e][a], t'[a]);
    }
  }

  /** A reply gives a path over its sender to every node but the destination. */
  lemma ReplyTeaches(cfg: Config, n: Node, at: Addr, m: Msg, now: real)
    requires NodeOk(cfg, n) && m.Rrep? && MsgOk(m) && m.dst != at
    ensures var o := React(cfg, n, Deliver(at, m, now));
            && OthersSame(n.table, o.node.table, m.dst)
            && m.dstSeqno <= o.node.table[m.dst].seqno
            && Learns(cfg, Lookup(n.table, m.dst), o.node.table[m.dst], m.dstSeqno, m.sender, m.hopCount + 1, m.firstHop)
  {
    var e, p := Lookup(n.table, m.dst), ReplyPath(m, now);
    var (e1, verdict) := HearReply(cfg, e, m.dstSeqno, p);
    var t' := AfterReply(at, n, m, e1, verdict, now).node.table;
    HearReplyLearns(cfg, e, m.dstSeqno, p);
    HearReplyIsLegal(cfg, m.dst, e, m.dstSeqno, p);
    AfterReplyTouches(cfg, at, n, m, e1, verdict, now);
    TouchedOthers(n.table, m.dst, e1, t');
    LearnsThen(cfg, e, e1, t'[m.dst], m.dstSeqno, m.sender, m.hopCount + 1, m.firstHop);
  }

  /** The reset of the request counters, and then something that only touches entries. */
  lemma ResetThen(t: Table, d: Addr, e: Entry, t'': Table)
    requires TouchedTable(t[d := SoftReset(e)], t'')
    ensures TouchedTable(t[d := e], t'')
  {
    var t' := t[d := SoftReset(e)];
    assert t'.Keys == t[d := e].Keys;
    forall a | a in t' ensures Touched(t[d := e][a], t''[a]) {
      assert Touched(t'[a], t''[a]);
    }
  }

  lemma TouchedSelf(t: Table)
    ensures TouchedTable(t, t)
  {
  }

  lemma AfterReplyTouches(cfg: Config, at: Addr, n: Node, m: Msg, e: Entry, verdict: Verdict, now: real)
    requires m.Rrep? && MsgOk(m) && NodeOk(cfg, n) && m.dst != at
    requires LegalEntry(cfg, m.dst, Lookup(n.table, m.dst), e, AdvertsOf(m))
    requires verdict != Ignored ==> e.seqno == m.dstSeqno && e.flag == Up
    ensures TouchedTable(n.table[m.dst := e], AfterReply(at, n, m, e, verdict, now).node.table)
  {
    TouchedSelf(n.table[m.dst := e]);
    if verdict != Ignored {
      var n' := n.(table := n.table[m.dst := SoftReset(e)]);
      LearnIsLegal(cfg, n.table, m.dst, e, AdvertsOf(m));
      if m.ipDst != at { RelayTouches(cfg, at, n', m, now); } else { TouchedSelf(n'.table); }
      ResetThen(n.table, m.dst, e, AfterReply(at, n, m, e, verdict, now).node.table);
    }
  }

  lemma AfterRequestTouches(cfg: Config, at: Addr, n: Node, m: Msg, e: Entry, verdict: Verdict, now: real)
    requires m.Rreq? && MsgOk(m) && NodeOk(cfg, n) && m.src != at
    requires LegalEntry(cfg, m.src, Lookup(n.table, m.src), e, AdvertsOf(m))
    requires verdict != Ignored ==> e.seqno == m.srcSeqno && e.flag == Up
    ensures TouchedTable(n.table[m.src := e], AfterRequest(at, n, m, e, verdict, now).node.table)
  {
    TouchedSelf(n.table[m.src := e]);
    if verdict != Ignored {
      var known := (m.src, m.bcastId) in n.ids;
      var ids := if known then n.ids else n.ids[(m.src, m.bcastId) := false];
      var n' := n.(ids := ids, table := n.table[m.src := SoftReset(e)]);
      LearnIsLegal(cfg, n.table, m.src, e, AdvertsOf(m));
      AnswerIsLegal(cfg, at, n', m, verdict == Stored, known, now);
      ResetThen(n.table, m.src, e, AfterRequest(at, n, m, e, verdict, now).node.table);
    }
  }

  /** The last hop of the path over which a request came. */
  function LastHop(at: Addr, m: Msg): Addr
    requires m.Rreq?
  {
    if m.hopCount == 0 then at else m.firstHop
  }

  lemma ReverseTaught(cfg: Config, n: Node, at: Addr, m: Msg, now: real)
    requires NodeOk(cfg, n) && m.Rreq? && MsgOk(m) && m.src != at
    ensures var t' := RecvRequest(cfg, at, n, m, now).node.table;
            && OthersSame(n.table, t', m.src)
            && Learns(cfg, Lookup(n.table, m.src), t'[m.src], m.srcSeqno, m.sender, m.hopCount + 1, LastHop(at, m))
  {
    var e, p := Lookup(n.table, m.src), RequestPath(at, m, now);
    var (e1, verdict) := HearRequest(cfg, e, m.srcSeqno, p, m.dst == at);
    var t' := AfterRequest(at, n, m, e1, verdict, now).node.table;
    HearRequestIsLegal(cfg, m.src, e, m.srcSeqno, p, m.dst == at);
    AfterRequestTouches(cfg, at, n, m, e1, verdict, now);
    TouchedOthers(n.table, m.src, e1, t');
    HeardAlike(cfg, e, m.srcSeqno, p, m.dst == at);
    HearReplyLearns(cfg, e, m.srcSeqno, p);
    LearnsThen(cfg, e, e1, t'[m.src], m.srcSeqno, m.sender, m.hopCount + 1, LastHop(at, m));
  }

  /** So does a request, to every node but its originator, which drops it. */
  lemma RequestTeaches(cfg: Config, n: Node, at: Addr, m: Msg, now: real)
    requires NodeOk(cfg, n) && m.Rreq? && MsgOk(m)
    ensures var o := React(cfg, n, Deliver(at, m, now));
            if m.src == at then o == Outcome(n, {})
            else
              && OthersSame(n.table, o.node.table, m.src)
              && m.srcSeqno <= o.node.table[m.src].seqno
              && Learns(cfg, Lookup(n.table, m.src), o.node.table[m.src], m.srcSeqno, m.sender, m.hopCount + 1, LastHop(at, m))
  {
    if m.src != at { ReverseTaught(cfg, n, at, m, now); }
  }

  // ---------- What is said about paths ----------

  /** The entry takes note of the number and hop count. */
  predicate Notes(e: Entry, seqno: nat, hops: nat) {
    e.seqno < seqno || (e.seqno == seqno && (e.advertised == NotYet || hops <= e.advertised.h))
  }

  predicate Stores(ps: seq<Path>, nexthop: Addr, lasthop: Addr) {
    exists q :: q in ps && q.nexthop == nexthop && q.lasthop == lasthop
  }

  lemma StoresIs(ps: seq<Path>, nexthop: Addr, lasthop: Addr)
    ensures Stores(ps, nexthop, lasthop) <==> Between(ps, nexthop, lasthop) < |ps|
  {
    var k := Between(ps, nexthop, lasthop);
    if k < |ps| { assert ps[k] in ps; }
  }

  /** The packet is dropped although its path joins the others: a negative difference of
      lengths allows no path, not even the shortest. */
  predicate JoinsInVain(cfg: Config, e: Entry, seqno: nat, nexthop: Addr, lasthop: Addr) {
    cfg.lengthDiff < 0 && e.seqno == seqno && !Stores(e.paths, nexthop, lasthop)
  }

  lemma ReplyStored(cfg: Config, e: Entry, seqno: nat, p: Path)
    requires p.hopcount >= 1
    ensures var (e1, verdict) := HearReply(cfg, e, seqno, p);
            verdict != Ignored <==> Notes(e, seqno, p.hopcount) && Stores(e1.paths, p.nexthop, p.lasthop)
  {
    var e1 := HearReply(cfg, e, seqno, p).0;
    StoresIs(e.paths, p.nexthop, p.lasthop);
    DisjointIs(e.paths, p.nexthop, p.lasthop);
    var k := Between(e.paths, p.nexthop, p.lasthop);
    if e.seqno < seqno {
      assert e1.paths[0] == p;
    } else if k < |e.paths| && e1 != e {
      assert e1.paths[k] in e1.paths;
    } else if e1 != e {
      assert e1.paths[|e.paths|] == p;
    }
  }

  lemma {:induction false} InsertedHops(ps: seq<Path>, p: Path)
    ensures MinHops(ps + [p]) == Min(MinHops(ps), p.hopcount)
  {
    if ps == [] {
      assert ps + [p] == [p] && [p][1..] == [];
    } else {
      assert (ps + [p])[1..] == ps[1..] + [p];
      InsertedHops(ps[1..], p);
    }
  }

  lemma VerdictsAlike(cfg: Config, e: Entry, seqno: nat, p: Path, forMe: bool)
    requires p.hopcount >= 1
    ensures var vain := cfg.lengthDiff < 0 && e.seqno == seqno && Between(e.paths, p.nexthop, p.lasthop) == |e.paths|;
            && (HearRequest(cfg, e, seqno, p, forMe).1 == Stored <==> HearReply(cfg, e, seqno, p).1 != Ignored && !vain)
            && (HearReply(cfg, e, seqno, p).1 != Ignored && e.seqno == seqno && vain ==>
                  HearRequest(cfg, e, seqno, p, forMe).1 == Ignored)
    ensures !Notes(e, seqno, p.hopcount) ==> HearRequest(cfg, e, seqno, p, forMe).1 == Ignored
  {
    InsertedHops(e.paths, p);
  }

  /** A path is stored exactly if it is noted and then on the list, and does not join in
      vain. */
  lemma RequestStored(cfg: Config, e: Entry, seqno: nat, p: Path, forMe: bool)
    requires p.hopcount >= 1
    ensures var (e1, verdict) := HearRequest(cfg, e, seqno, p, forMe);
            && (verdict == Stored <==>
                  && Notes(e, seqno, p.hopcount) && Stores(e1.paths, p.nexthop, p.lasthop)
                  && !JoinsInVain(cfg, e, seqno, p.nexthop, p.lasthop))
            && (!Notes(e, seqno, p.hopcount) ==> verdict == Ignored)
            && (Stores(e1.paths, p.nexthop, p.lasthop) && JoinsInVain(cfg, e, seqno, p.nexthop, p.lasthop) ==>
                  verdict == Ignored)
  {
    HeardAlike(cfg, e, seqno, p, forMe);
    VerdictsAlike(cfg, e, seqno, p, forMe);
    ReplyStored(cfg, e, seqno, p);
    StoresIs(e.paths, p.nexthop, p.lasthop);
  }

  lemma TouchedStores(e: Entry, e': Entry, nexthop: Addr, lasthop: Addr)
    requires Touched(e, e')
    ensures Stores(e.paths, nexthop, lasthop) <==> Stores(e'.paths, nexthop, lasthop)
  {
    StoresIs(e.paths, nexthop, lasthop);
    StoresIs(e'.paths, nexthop, lasthop);
  }

  predicate KnowsWay(t: Table, m: Msg)
    requires m.Rreq?
  {
    m.dst in t && t[m.dst].flag == Up && m.dstSeqno <= t[m.dst].seqno
  }

  predicate Answered(ids: map<(Addr, nat), bool>, b: (Addr, nat)) {
    b in ids && ids[b]
  }

  /** A request that is not noted is not answered. */
  lemma StaleRequestIsDropped(cfg: Config, n: Node, at: Addr, m: Msg, now: real)
    requires m.Rreq? && m.src != at && !Notes(Lookup(n.table, m.src), m.srcSeqno, m.hopCount + 1)
    ensures var o := React(cfg, n, Deliver(at, m, now));
            o.sent == {} && o.node.table == n.table[m.src := Lookup(n.table, m.src)] && o.node.seqno == n.seqno
  {
    RequestStored(cfg, Lookup(n.table, m.src), m.srcSeqno, RequestPath(at, m, now), m.dst == at);
  }

  /** What goes out over a reverse path, stored or not. */
  ghost predicate GoesOut(at: Addr, n: Node, o: Outcome, m: Msg, stored: bool, now: real)
    requires m.Rreq? && m.src in o.node.table
  {
    var t, b := o.node.table, (m.src, m.bcastId);
    var back := t[m.src];
    && b in o.node.ids
    && (m.dst == at ==>
          && o.sent == {Rrep(at, NETWORK_DIAMETER, m.src, m.sender, at, o.node.seqno, 0, m.sender, m.bcastId, MY_ROUTE_TIMEOUT)}
          && o.node.seqno % 2 == 0 && n.seqno <= o.node.seqno && m.dstSeqno <= o.node.seqno
          && (o.node.seqno <= n.seqno + 1 || o.node.seqno <= m.dstSeqno + 2))
    && (m.dst != at && KnowsWay(t, m) ==>
          if !stored || Answered(n.ids, b) then o.sent == {}
          else
            var way := t[m.dst];
            && way.advertised.Hops? && way.paths != [] && way.error && o.node.ids[b]
            && o.sent == {Rrep(at, NETWORK_DIAMETER, m.src, m.sender, m.dst, way.seqno, way.advertised.h,
                               way.paths[0].lasthop, m.bcastId, way.paths[0].expire - now)})
    && (m.dst != at && !KnowsWay(t, m) ==>
          if b in n.ids then o.sent == {}
          else
            && back.advertised.Hops? && back.paths != []
            && o.sent == if m.ttl == 1 then {}
                         else {Rreq(at, m.ttl - 1, m.src, m.srcSeqno, back.advertised.h, back.paths[0].lasthop, m.dst,
                                    if m.dst in t && m.dstSeqno < t[m.dst].seqno then t[m.dst].seqno else m.dstSeqno,
                                    m.bcastId)})
  }

  lemma AnswerGoesOut(cfg: Config, at: Addr, n: Node, n': Node, m: Msg, stored: bool, now: real)
    requires m.Rreq? && MsgOk(m) && NodeOk(cfg, n') && m.src != at && m.src in n'.table
    requires n'.table[m.src].flag == Up && n'.table[m.src].seqno == m.srcSeqno && n'.seqno == n.seqno
    requires n'.ids == if (m.src, m.bcastId) in n.ids then n.ids else n.ids[(m.src, m.bcastId) := false]
    ensures GoesOut(at, n, AnswerRequest(at, n', m, stored, (m.src, m.bcastId) in n.ids, now), m, stored, now)
  {
    AdvertiseUp(cfg, n'.table[m.src]);
    if HasFreshRoute(n'.table, m) { AdvertiseUp(cfg, n'.table[m.dst]); }
  }

  lemma OutcomeGoesOut(cfg: Config, n: Node, at: Addr, m: Msg, now: real)
    requires NodeOk(cfg, n) && m.Rreq? && MsgOk(m) && m.src != at
    ensures var (e1, verdict) := HearRequest(cfg, Lookup(n.table, m.src), m.srcSeqno, RequestPath(at, m, now), m.dst == at);
            var o := React(cfg, n, Deliver(at, m, now));
            && m.src in o.node.table && Touched(e1, o.node.table[m.src])
            && if verdict == Ignored then o.sent == {} else GoesOut(at, n, o, m, verdict == Stored, now)
  {
    var e, p := Lookup(n.table, m.src), RequestPath(at, m, now);
    var (e1, verdict) := HearRequest(cfg, e, m.srcSeqno, p, m.dst == at);
    var known := (m.src, m.bcastId) in n.ids;
    var ids := if known then n.ids else n.ids[(m.src, m.bcastId) := false];
    var n' := n.(ids := ids, table := n.table[m.src := SoftReset(e1)]);
    HearRequestIsLegal(cfg, m.src, e, m.srcSeqno, p, m.dst == at);
    AfterRequestTouches(cfg, at, n, m, e1, verdict, now);
    LearnIsLegal(cfg, n.table, m.src, e1, AdvertsOf(m));
    if verdict != Ignored { AnswerGoesOut(cfg, at, n, n', m, verdict == Stored, now); }
  }

  /** A request whose reverse path is stored is answered by the destination, each time, under
      an even number of its own that is not below the one asked for; by a node that knows the
      way, once per flood, with its first path; and passed on by any other node, once, with
      the hop count and last hop that its entry for the originator advertises. */
  lemma RequestAnswered(cfg: Config, n: Node, at: Addr, m: Msg, now: real)
    requires NodeOk(cfg, n) && m.Rreq? && MsgOk(m) && m.src != at
    requires Notes(Lookup(n.table, m.src), m.srcSeqno, m.hopCount + 1)
    requires !JoinsInVain(cfg, Lookup(n.table, m.src), m.srcSeqno, m.sender, LastHop(at, m))
    requires var o := React(cfg, n, Deliver(at, m, now));
             m.src in o.node.table && Stores(o.node.table[m.src].paths, m.sender, LastHop(at, m))
    ensures GoesOut(at, n, React(cfg, n, Deliver(at, m, now)), m, true, now)
  {
    var e, p := Lookup(n.table, m.src), RequestPath(at, m, now);
    var e1 := HearRequest(cfg, e, m.srcSeqno, p, m.dst == at).0;
    OutcomeGoesOut(cfg, n, at, m, now);
    TouchedStores(e1, React(cfg, n, Deliver(at, m, now)).node.table[m.src], m.sender, LastHop(at, m));
    RequestStored(cfg, e, m.srcSeqno, p, m.dst == at);
  }

  /** Nor is a request answered whose path joins in vain. */
  lemma VainRequestIsDropped(cfg: Config, n: Node, at: Addr, m: Msg, now: real)
    requires NodeOk(cfg, n) && m.Rreq? && MsgOk(m) && m.src != at
    requires Notes(Lookup(n.table, m.src), m.srcSeqno, m.hopCount + 1)
    requires JoinsInVain(cfg, Lookup(n.table, m.src), m.srcSeqno, m.sender, LastHop(at, m))
    requires var o := React(cfg, n, Deliver(at, m, now));
             m.src in o.node.table && Stores(o.node.table[m.src].paths, m.sender, LastHop(at, m))
    ensures React(cfg, n, Deliver(at, m, now)).sent == {}
  {
    var e, p := Lookup(n.table, m.src), RequestPath(at, m, now);
    var e1 := HearRequest(cfg, e, m.srcSeqno, p, m.dst == at).0;
    OutcomeGoesOut(cfg, n, at, m, now);
    TouchedStores(e1, React(cfg, n, Deliver(at, m, now)).node.table[m.src], m.sender, LastHop(at, m));
    RequestStored(cfg, e, m.srcSeqno, p, m.dst == at);
  }

  predicate NotTooLong(cfg: Config, ps: seq<Path>, hops: nat) {
    forall q :: q in ps ==> hops - Min(q.hopcount, INFINITY2) <= cfg.lengthDiff
  }

  /** A request whose path is not stored still goes on, though no node but the destination
      answers it, unless its path shares no end with the others and is too long; the
      destination answers it if it has a path with this last hop that is no shorter. */
  predicate Welcome(cfg: Config, e: Entry, at: Addr, m: Msg)
    requires m.Rreq?
  {
    if Shares(e.paths, m.sender, LastHop(at, m))
    then m.dst == at ==> exists q :: q in e.paths && q.lasthop == LastHop(at, m) && m.hopCount < q.hopcount
    else NotTooLong(cfg, e.paths, m.hopCount + 1)
  }

  lemma LengthIs(cfg: Config, ps: seq<Path>, hops: nat)
    requires ps != []
    ensures NotTooLong(cfg, ps, hops) <==> hops - MinHops(ps) <= cfg.lengthDiff
  {
    ShortestIs(ps);
  }

  /** Only one path has this last hop. */
  lemma EndingIs(ps: seq<Path>, lasthop: Addr, hops: nat)
    requires Disjoint(ps)
    ensures (exists q :: q in ps && q.lasthop == lasthop && hops <= q.hopcount) <==>
            (EndingAt(ps, lasthop) < |ps| && hops <= ps[EndingAt(ps, lasthop)].hopcount)
  {
    var j := EndingAt(ps, lasthop);
    if j < |ps| { assert ps[j] in ps; }
    if q :| q in ps && q.lasthop == lasthop && hops <= q.hopcount {
      var k :| 0 <= k < |ps| && ps[k] == q;
    }
  }

  lemma NotStoredVerdict(cfg: Config, e: Entry, at: Addr, m: Msg, now: real)
    requires EntryOk(cfg, e) && m.Rreq? && MsgOk(m) && e.seqno == m.srcSeqno && Notes(e, m.srcSeqno, m.hopCount + 1)
    requires HearReply(cfg, e, m.srcSeqno, RequestPath(at, m, now)).1 == Ignored
    ensures HearRequest(cfg, e, m.srcSeqno, RequestPath(at, m, now), m.dst == at)
         == (e, if Welcome(cfg, e, at, m) then NoPath else Ignored)
  {
    var p := RequestPath(at, m, now);
    DisjointIs(e.paths, p.nexthop, p.lasthop);
    LengthIs(cfg, e.paths, p.hopcount);
    EndingIs(e.paths, p.lasthop, p.hopcount);
  }

  lemma RequestNotStored(cfg: Config, n: Node, at: Addr, m: Msg, now: real)
    requires NodeOk(cfg, n) && m.Rreq? && MsgOk(m) && m.src != at
    requires Lookup(n.table, m.src).seqno == m.srcSeqno && Notes(Lookup(n.table, m.src), m.srcSeqno, m.hopCount + 1)
    requires var o := React(cfg, n, Deliver(at, m, now));
             m.src in o.node.table && !Stores(o.node.table[m.src].paths, m.sender, LastHop(at, m))
    ensures var o := React(cfg, n, Deliver(at, m, now));
            if Welcome(cfg, Lookup(n.table, m.src), at, m) then GoesOut(at, n, o, m, false, now) else o.sent == {}
  {
    var e, p := Lookup(n.table, m.src), RequestPath(at, m, now);
    var e1 := HearRequest(cfg, e, m.srcSeqno, p, m.dst == at).0;
    OutcomeGoesOut(cfg, n, at, m, now);
    TouchedStores(e1, React(cfg, n, Deliver(at, m, now)).node.table[m.src], m.sender, LastHop(at, m));
    HeardAlike(cfg, e, m.srcSeqno, p, m.dst == at);
    ReplyStored(cfg, e, m.srcSeqno, p);
    NotStoredVerdict(cfg, e, at, m, now);
  }

  /** What goes out for a reply whose path is stored. */
  ghost predicate RelayOut(at: Addr, n: Node, o: Outcome, m: Msg, now: real)
    requires m.Rrep? && m.dst in o.node.table
  {
    var t, b := o.node.table, (m.ipDst, m.bcastId);
    if m.ipDst != at && m.ipDst in t && t[m.ipDst].flag == Up && b in n.ids && !n.ids[b]
    then
      && b in o.node.ids && o.node.ids[b] && t[m.dst].error
      && t[m.ipDst].paths != [] && t[m.dst].paths != [] && t[m.dst].advertised.Hops?
      && t[m.ipDst].paths[0].expire == now + ACTIVE_ROUTE_TIMEOUT
      && o.sent == if m.ttl == 1 then {}
                   else {Rrep(at, m.ttl - 1, m.ipDst, t[m.ipDst].paths[0].nexthop, m.dst, m.dstSeqno,
                              t[m.dst].advertised.h, t[m.dst].paths[0].lasthop, m.bcastId, m.lifetime)}
    else o.sent == {} && o.node.ids == n.ids
  }

  lemma RelayGoesOut(cfg: Config, at: Addr, n: Node, m: Msg, now: real)
    requires NodeOk(cfg, n) && m.Rrep? && m.dst in n.table && n.table[m.dst].flag == Up && m.ipDst != at
    ensures m.dst in RelayReply(at, n, m, now).node.table && RelayOut(at, n, RelayReply(at, n, m, now), m, now)
  {
    AdvertiseUp(cfg, n.table[m.dst]);
    RelayTouches(cfg, at, n, m, now);
  }

  lemma AfterReplyGoesOut(cfg: Config, at: Addr, n: Node, m: Msg, e: Entry, verdict: Verdict, now: real)
    requires m.Rrep? && MsgOk(m) && NodeOk(cfg, n) && m.dst != at
    requires LegalEntry(cfg, m.dst, Lookup(n.table, m.dst), e, AdvertsOf(m))
    requires verdict != Ignored ==> e.seqno == m.dstSeqno && e.flag == Up
    ensures var o := AfterReply(at, n, m, e, verdict, now);
            && m.dst in o.node.table
            && if verdict == Ignored then o.sent == {} && o.node.ids == n.ids else RelayOut(at, n, o, m, now)
  {
    LearnIsLegal(cfg, n.table, m.dst, e, AdvertsOf(m));
    if verdict != Ignored && m.ipDst != at {
      RelayGoesOut(cfg, at, n.(table := n.table[m.dst := SoftReset(e)]), m, now);
    }
  }

  /** A reply whose path is stored goes on over the first path back to who asked, once per
      flood, with the hop count and last hop that the entry advertises; no other goes on. */
  lemma ReplyRelayed(cfg: Config, n: Node, at: Addr, m: Msg, now: real)
    requires NodeOk(cfg, n) && m.Rrep? && MsgOk(m) && m.dst != at
    ensures var o := React(cfg, n, Deliver(at, m, now));
            && m.dst in o.node.table
            && if Notes(Lookup(n.table, m.dst), m.dstSeqno, m.hopCount + 1)
                  && Stores(o.node.table[m.dst].paths, m.sender, m.firstHop)
               then RelayOut(at, n, o, m, now)
               else o.sent == {} && o.node.ids == n.ids
  {
    var e, p := Lookup(n.table, m.dst), ReplyPath(m, now);
    var (e1, verdict) := HearReply(cfg, e, m.dstSeqno, p);
    var o := AfterReply(at, n, m, e1, verdict, now);
    HearReplyIsLegal(cfg, m.dst, e, m.dstSeqno, p);
    AfterReplyTouches(cfg, at, n, m, e1, verdict, now);
    AfterReplyGoesOut(cfg, at, n, m, e1, verdict, now);
    TouchedStores(e1, o.node.table[m.dst], m.sender, m.firstHop);
    ReplyStored(cfg, e, m.dstSeqno, p);
  }

  // ---------- How long paths live ----------

  /** A new path lives as long as it was heard with, and one heard again at least as long;
      all others as before. */
  ghost predicate Timed(e: Entry, ps: seq<Path>, seqno: nat, nexthop: Addr, lasthop: Addr, expire: real) {
    forall k :: 0 <= k < |ps| ==>
      var q := ps[k];
      q.expire == if e.seqno < seqno || k >= |e.paths| then expire
                  else if q.nexthop == nexthop && q.lasthop == lasthop && e.paths[k].expire < expire then expire
                  else e.paths[k].expire
  }

  lemma HeardTimes(cfg: Config, e: Entry, seqno: nat, p: Path)
    requires EntryOk(cfg, e) && p.hopcount >= 1 && Notes(e, seqno, p.hopcount)
    ensures Timed(e, HearReply(cfg, e, seqno, p).0.paths, seqno, p.nexthop, p.lasthop, p.expire)
  {
  }

  lemma AnswerKeepsPaths(at: Addr, n: Node, m: Msg, e: Entry, verdict: Verdict, now: real)
    requires m.Rreq?
    ensures var t := AfterRequest(at, n, m, e, verdict, now).node.table; m.src in t && t[m.src].paths == e.paths
  {
  }

  lemma RequestTimes(cfg: Config, n: Node, at: Addr, m: Msg, now: real)
    requires NodeOk(cfg, n) && m.Rreq? && m.src != at && Notes(Lookup(n.table, m.src), m.srcSeqno, m.hopCount + 1)
    ensures var o := React(cfg, n, Deliver(at, m, now));
            && m.src in o.node.table
            && Timed(Lookup(n.table, m.src), o.node.table[m.src].paths, m.srcSeqno, m.sender, LastHop(at, m), now + REV_ROUTE_LIFE)
  {
    var e, p := Lookup(n.table, m.src), RequestPath(at, m, now);
    var (e1, verdict) := HearRequest(cfg, e, m.srcSeqno, p, m.dst == at);
    HeardAlike(cfg, e, m.srcSeqno, p, m.dst == at);
    HeardTimes(cfg, e, m.srcSeqno, p);
    AnswerKeepsPaths(at, n, m, e1, verdict, now);
  }

  lemma RelayKeepsPaths(at: Addr, n: Node, m: Msg, e: Entry, verdict: Verdict, now: real)
    requires m.Rrep? && m.ipDst != m.dst
    ensures var t := AfterReply(at, n, m, e, verdict, now).node.table; m.dst in t && t[m.dst].paths == e.paths
  {
  }

  lemma ReplyTimes(cfg: Config, n: Node, at: Addr, m: Msg, now: real)
    requires NodeOk(cfg, n) && m.Rrep? && m.dst != at && Notes(Lookup(n.table, m.dst), m.dstSeqno, m.hopCount + 1)
    requires m.ipDst != m.dst
    ensures var o := React(cfg, n, Deliver(at, m, now));
            && m.dst in o.node.table
            && Timed(Lookup(n.table, m.dst), o.node.table[m.dst].paths, m.dstSeqno, m.sender, m.firstHop, now + m.lifetime)
  {
    var e, p := Lookup(n.table, m.dst), ReplyPath(m, now);
    var (e1, verdict) := HearReply(cfg, e, m.dstSeqno, p);
    HeardTimes(cfg, e, m.dstSeqno, p);
    RelayKeepsPaths(at, n, m, e1, verdict, now);
  }

  // ---------- Paths that are lost ----------

  /** There is a path over `nbr`. */
  predicate Over(ps: seq<Path>, nbr: Addr) {
    exists p :: p in ps && p.nexthop == nbr
  }

  /** Only the path over `nbr` is gone. */
  predicate Without(ps: seq<Path>, ps': seq<Path>, nbr: Addr) {
    exists k :: 0 <= k < |ps| && ps[k].nexthop == nbr && ps' == RemovedAt(ps, k)
  }

  /** The last path is gone, and the entry is down under the given number. */
  predicate TakenDown(e': Entry, seqno: nat) {
    e'.flag == Down && e'.paths == [] && e'.advertised == NotYet && e'.seqno == seqno
  }

  lemma OverIs(cfg: Config, e: Entry, nbr: Addr)
    requires EntryOk(cfg, e)
    ensures Over(e.paths, nbr) <==> Loses(e, nbr)
    ensures Loses(e, nbr) ==> Without(e.paths, DropAt(e.paths, Through(e.paths, nbr)), nbr)
    ensures !Over(DropAt(e.paths, Through(e.paths, nbr)), nbr)
  {
    var k := Through(e.paths, nbr);
    if k < |e.paths| {
      assert e.paths[k] in e.paths;
      assert DropAt(e.paths, k) == RemovedAt(e.paths, k);
    }
  }

  /** What the loss of a neighbour does to an entry: it has no path over it afterwards, keeps
      the others, and is down, above its number and any heard of, if there are none. */
  ghost predicate LosesPath(e: Entry, e': Entry, nbr: Addr) {
    && !Over(e'.paths, nbr)
    && if !Over(e.paths, nbr) then e' == e
       else if |e.paths| > 1 then e' == e.(paths := e'.paths) && Without(e.paths, e'.paths, nbr)
       else TakenDown(e', Max(e.seqno + 1, e.highestHeard)) && !e'.error
  }

  lemma BrokenLosesPath(cfg: Config, e: Entry, nbr: Addr)
    requires EntryOk(cfg, e)
    ensures LosesPath(e, BrokenEntry(e, nbr), nbr)
    ensures BreakSpreads(e, nbr) <==> Over(e.paths, nbr) && |e.paths| == 1 && e.error
  {
    OverIs(cfg, e, nbr);
  }

  /** The entry had only this path left, and the node had told others about it. */
  predicate Missed(t: Table, d: Addr, nbr: Addr) {
    d in t && Over(t[d].paths, nbr) && |t[d].paths| == 1 && t[d].error
  }

  lemma TableLosesPaths(cfg: Config, t: Table, nbr: Addr)
    requires TableOk(cfg, t)
    ensures forall d :: d in t ==> LosesPath(t[d], BrokenTable(t, nbr)[d], nbr)
    ensures forall d :: d in LostThrough(t, nbr) <==> Missed(t, d, nbr)
    ensures forall d :: d in LostThrough(t, nbr) ==> LostThrough(t, nbr)[d] == BrokenTable(t, nbr)[d].seqno
  {
    forall d | d in t
      ensures LosesPath(t[d], BrokenTable(t, nbr)[d], nbr) && (BreakSpreads(t[d], nbr) <==> Missed(t, d, nbr))
    {
      BrokenLosesPath(cfg, t[d], nbr);
    }
  }

  /** A lost neighbour costs every entry exactly its path over it. An error reports exactly the
      entries that had no other and that the node had told others about, with their new
      numbers. */
  lemma LostNeighbour(cfg: Config, n: Node, at: Addr, nbr: Addr)
    requires NodeOk(cfg, n)
    ensures var o := React(cfg, n, LinkBreak(at, nbr)); var t := o.node.table;
            && t.Keys == n.table.Keys && (forall d :: d in t ==> LosesPath(n.table[d], t[d], nbr))
            && (forall m :: m in o.sent ==>
                  && m.Rerr? && m.sender == at
                  && (forall d :: d in m.unreachable <==> Missed(n.table, d, nbr))
                  && (forall d :: d in m.unreachable ==> m.unreachable[d] == t[d].seqno))
            && (o.sent == {} <==> forall d :: !Missed(n.table, d, nbr))
            && o.node.seqno == n.seqno + 2 && o.node.neighbors == n.neighbors - {nbr}
  {
    TableLosesPaths(cfg, n.table, nbr);
    if d :| Missed(n.table, d, nbr) { assert d in LostThrough(n.table, nbr); }
  }

  /** The error is about a path that the entry has over its sender, under no lower number. */
  predicate Named(e: Entry, d: Addr, m: Msg)
    requires m.Rerr?
  {
    d in m.unreachable && Over(e.paths, m.sender) && e.seqno <= m.unreachable[d]
  }

  /** What an error does to an entry: one that it names loses the path over the sender and
      notes the number, under which it is down if that was the last path. */
  ghost predicate HearsError(e: Entry, e': Entry, d: Addr, m: Msg)
    requires m.Rerr?
  {
    if !Named(e, d, m) then e' == e
    else
      var number := Max(e.highestHeard, m.unreachable[d]);
      if |e.paths| > 1 then e' == e.(paths := e'.paths, highestHeard := number) && Without(e.paths, e'.paths, m.sender)
      else TakenDown(e', number) && !e'.error
  }

  lemma ErrorEntryHears(cfg: Config, e: Entry, d: Addr, m: Msg)
    requires EntryOk(cfg, e) && m.Rerr? && d in m.unreachable
    ensures HearsError(e, ErrorEntry(e, m.sender, m.unreachable[d]), d, m)
    ensures ErrorSpreads(e, m.sender, m.unreachable[d]) <==> Named(e, d, m) && |e.paths| == 1 && e.error
  {
    OverIs(cfg, e, m.sender);
  }

  predicate Spread(t: Table, d: Addr, m: Msg)
    requires m.Rerr?
  {
    d in t && Named(t[d], d, m) && |t[d].paths| == 1 && t[d].error
  }

  /** An error is passed on for exactly the entries that lost their last path to it and that
      the node had told others about. */
  lemma ErrorHeard(cfg: Config, n: Node, at: Addr, m: Msg, now: real)
    requires NodeOk(cfg, n) && m.Rerr?
    ensures var o := React(cfg, n, Deliver(at, m, now)); var t := o.node.table;
            && t.Keys == n.table.Keys && o.node.(table := n.table) == n
            && (forall d :: d in t ==> HearsError(n.table[d], t[d], d, m))
            && (forall r :: r in o.sent ==>
                  && r.Rerr? && r.sender == at
                  && (forall d :: d in r.unreachable <==> Spread(n.table, d, m))
                  && (forall d :: d in r.unreachable ==> r.unreachable[d] == t[d].seqno))
            && (o.sent == {} <==> forall d :: !Spread(n.table, d, m))
  {
    forall d | d in n.table && d in m.unreachable
      ensures HearsError(n.table[d], ErrorTable(n.table, m)[d], d, m)
      ensures ErrorSpreads(n.table[d], m.sender, m.unreachable[d]) <==> Spread(n.table, d, m)
    {
      ErrorEntryHears(cfg, n.table[d], d, m);
    }
    if d :| Spread(n.table, d, m) { assert d in PassedOn(n.table, m); }
  }

  predicate Subsequence(a: seq<Path>, b: seq<Path>) {
    a == [] || (b != [] && if a[0] == b[0] then Subsequence(a[1..], b[1..]) else Subsequence(a, b[1..]))
  }

  /** Of the paths, exactly those that have not expired are left, in order. */
  ghost predicate Survive(ps: seq<Path>, ps': seq<Path>, now: real) {
    (forall p :: p in ps' <==> p in ps && p.expire >= now) && Subsequence(ps', ps)
  }

  lemma {:induction false} PurgedSurvive(ps: seq<Path>, now: real)
    ensures Survive(ps, Purged(ps, now), now)
  {
    if ps != [] {
      PurgedSurvive(ps[1..], now);
      var r := Purged(ps, now);
      if ps[0].expire >= now { assert r[1..] == Purged(ps[1..], now); }
      assert forall p :: p in ps <==> p == ps[0] || p in ps[1..];
    }
  }

  /** What expiry does to an entry: a usable one keeps the paths that have not expired, and is
      down, above its number and any heard of, if there are none. */
  ghost predicate Expires(e: Entry, e': Entry, now: real) {
    if e.flag == Down then e' == e
    else if exists p :: p in e.paths && p.expire >= now
    then e' == e.(paths := e'.paths) && Survive(e.paths, e'.paths, now)
    else TakenDown(e', Max(e.seqno + 1, e.highestHeard))
  }

  lemma PurgedExpires(cfg: Config, e: Entry, now: real)
    requires EntryOk(cfg, e) && now > 0.0
    ensures Expires(e, PurgedEntry(e, now), now)
  {
    PurgedSurvive(e.paths, now);
    var ps := Purged(e.paths, now);
    if ps != [] { assert ps[0] in ps; }
  }

  /** Expiry, which begins after time 0, does so to every entry, and nothing is sent. */
  lemma RoutesExpire(cfg: Config, n: Node, at: Addr, now: real)
    requires NodeOk(cfg, n)
    ensures var o := React(cfg, n, Purge(at, now)); var t := o.node.table;
            && t.Keys == n.table.Keys && o.sent == {} && o.node.(table := n.table) == n
            && forall d :: d in t ==> if now > 0.0 then Expires(n.table[d], t[d], now) else t[d] == n.table[d]
  {
    forall d | d in n.table && now > 0.0 ensures Expires(n.table[d], PurgedTable(n.table, now)[d], now) {
      PurgedExpires(cfg, n.table[d], now);
    }
  }

  // ---------- Searching, data and neighbours ----------

  function Radius(e: Entry): nat {
    if e.lastTtl < e.lastHopCount then e.lastHopCount else e.lastTtl
  }

  /** A search sends one request, under new numbers of the node: in a wider ring than before,
      and through the whole network once the rings are used up, which is what is counted. */
  lemma SearchGoesOn(cfg: Config, n: Node, at: Addr, dst: Addr, early: bool)
    requires dst in n.table
    ensures var o := React(cfg, n, Discover(at, dst, early)); var e, e' := n.table[dst], o.node.table[dst];
            && o.node.table == n.table[dst := e'] && e'.paths == e.paths && SamePaths(e, e') && o.node.ids == n.ids
            && (e.flag == Up || early ==> o == Outcome(n, {}))
            && (e.flag != Up && !early && e.reqCnt > RREQ_RETRIES ==> o.sent == {} && e'.reqCnt == 0)
            && (e.flag != Up && !early && e.reqCnt <= RREQ_RETRIES ==>
                  && o.sent == {Rreq(at, e'.lastTtl, at, n.seqno + 2, 0, 0, dst, e.seqno, n.bid)}
                  && o.node.bid == n.bid + 1 && o.node.seqno == n.seqno + 2
                  && if Radius(e) >= TTL_THRESHOLD then e'.lastTtl == NETWORK_DIAMETER && e'.reqCnt == e.reqCnt + 1
                     else e'.lastTtl == (if Radius(e) == 0 then TTL_START else Radius(e) + TTL_INCREMENT)
                          && e'.reqCnt == e.reqCnt)
  {
  }

  /** A data packet goes out over the first path, which lives on; a node that forwards it notes
      that others rely on the route. Without a path its source starts a search, and any other
      node reports the destination. */
  lemma DataResolved(cfg: Config, n: Node, at: Addr, dst: Addr, mine: bool, early: bool, now: real)
    requires NodeOk(cfg, n)
    ensures var o := React(cfg, n, Resolve(at, dst, mine, early, now)); var e := Lookup(n.table, dst);
            && dst in o.node.table
            && var e' := o.node.table[dst];
            && (e.flag == Up ==>
                  && o.sent == {} && e.paths != [] && e' == e.(paths := e'.paths, error := e.error || !mine)
                  && e'.paths == [e.paths[0].(expire := now + ACTIVE_ROUTE_TIMEOUT)] + e.paths[1..])
            && (e.flag == Down && mine ==> o == React(cfg, n.(table := n.table[dst := e]), Discover(at, dst, early)))
            && (e.flag == Down && !mine ==> o.sent == {Rerr(at, map[dst := e.seqno])} && e' == e)
  {
  }

  /** A hello gives the one-hop path to its sender, and is not answered. */
  lemma HelloTeaches(cfg: Config, n: Node, at: Addr, m: Msg, now: real)
    requires NodeOk(cfg, n) && m.Hello? && MsgOk(m) && m.sender != at
    ensures var o := React(cfg, n, Deliver(at, m, now));
            && o.sent == {} && o.node.neighbors == n.neighbors + {m.sender}
            && OthersSame(n.table, o.node.table, m.sender)
            && Learns(cfg, Lookup(n.table, m.sender), o.node.table[m.sender], m.seqno, m.sender, 1, at)
  {
    ReplyTeaches(cfg, n.(neighbors := n.neighbors + {m.sender}), at,
                 Rrep(m.sender, 0, at, at, m.sender, m.seqno, 0, at, 0, HELLO_LIFETIME), now);
  }

  /** A node says hello exactly while some route is up. */
  lemma HelloSaid(cfg: Config, n: Node, at: Addr)
    ensures var o := React(cfg, n, SayHello(at));
            && o.node == n
            && (o.sent == {} <==> forall d :: d in n.table ==> n.table[d].flag == Down)
            && forall m :: m in o.sent ==> m == Hello(at, n.seqno)
  {
  }

  // ---------- A discovery ----------

  // Node 2 looks for node 0 along the chain 2 - 1 - 0.
  const CONFIG: Config := Config(3, 1)
  const NODES: set<Addr> := {0, 1, 2}
  const FLOOD: (Addr, nat) := (2, 1)
  const ASK2: Msg := Rreq(2, 30, 2, 4, 0, 0, 0, 0, 1)
  const ASK1: Msg := Rreq(1, 29, 2, 4, 1, 1, 0, 0, 1)
  const TELL0: Msg := Rrep(0, 30, 2, 1, 0, 2, 0, 1, 1, 10.0)
  const TELL1: Msg := Rrep(1, 29, 2, 2, 0, 2, 1, 1, 1, 10.0)

  const ASKING2: Node := Node(4, 2, map[0 := FRESH.(lastTtl := 30, reqCnt := 1)], map[], {})
  const BACK1: Entry := Entry(4, Hops(1), [Path(2, 1, 6.0, 1)], 0, false, Up, 1, 0, 0)
  const HEARD1: Node := Node(2, 1, map[2 := BACK1], map[FLOOD := false], {})
  const HEARD0: Node :=
    Node(2, 1, map[2 := Entry(4, NotYet, [Path(1, 2, 6.0, 1)], 0, false, Up, 2, 0, 0)], map[FLOOD := false], {})
  const ROUTED1: Node :=
    Node(2, 1, map[2 := BACK1.(paths := [Path(2, 1, 10.0, 1)]),
                   0 := Entry(2, Hops(1), [Path(0, 1, 10.0, 1)], 0, true, Up, 1, 0, 0)], map[FLOOD := true], {})
  const ROUTED2: Node :=
    Node(4, 2, map[0 := Entry(2, NotYet, [Path(1, 2, 10.0, 1)], 0, false, Up, 2, 0, 0)], map[], {})

  lemma Asked()
    ensures React(CONFIG, INITIAL_NODE, Resolve(2, 0, true, false, 0.0)) == Outcome(ASKING2, {ASK2})
    ensures React(CONFIG, INITIAL_NODE, Deliver(1, ASK2, 0.0)) == Outcome(HEARD1, {ASK1})
    ensures React(CONFIG, INITIAL_NODE, Deliver(0, ASK1, 0.0)) == Outcome(HEARD0, {TELL0})
  {
    assert [] + [Path(2, 1, 6.0, 1)] == [Path(2, 1, 6.0, 1)] && [Path(2, 1, 6.0, 1)][1..] == [];
    assert [] + [Path(1, 2, 6.0, 1)] == [Path(1, 2, 6.0, 1)] && [Path(1, 2, 6.0, 1)][1..] == [];
  }

  /** Node 1 on the way from `HEARD1` to `ROUTED1`. */
  const AHEAD1: Entry := Entry(2, NotYet, [Path(0, 1, 10.0, 1)], 0, false, Up, 1, 0, 0)
  const TAUGHT1: Node := HEARD1.(table := HEARD1.table[0 := AHEAD1])

  lemma FirstHeard()
    ensures HearReply(CONFIG, FRESH, 2, ReplyPath(TELL0, 0.0)) == (AHEAD1, Stored)
  {
    assert [] + [Path(0, 1, 10.0, 1)] == [Path(0, 1, 10.0, 1)] && [Path(0, 1, 10.0, 1)][1..] == [];
  }

  lemma FirstRelayed()
    ensures RelayReply(1, TAUGHT1, TELL0, 0.0) == Outcome(ROUTED1, {TELL1})
  {
    assert [Path(0, 1, 10.0, 1)][1..] == [];
    assert [Path(2, 1, 6.0, 1)][0 := Path(2, 1, 10.0, 1)] == [Path(2, 1, 10.0, 1)];
    assert RelayReply(1, TAUGHT1, TELL0, 0.0).node.table == ROUTED1.table;
  }

  lemma FirstTold()
    ensures React(CONFIG, HEARD1, Deliver(1, TELL0, 0.0)) == Outcome(ROUTED1, {TELL1})
  {
    FirstHeard();
    FirstRelayed();
    assert SoftReset(AHEAD1) == AHEAD1;
  }

  lemma SecondTold()
    ensures React(CONFIG, ASKING2, Deliver(2, TELL1, 0.0)) == Outcome(ROUTED2, {})
  {
    assert [] + [Path(1, 2, 10.0, 1)] == [Path(1, 2, 10.0, 1)] && [Path(1, 2, 10.0, 1)][1..] == [];
  }

  lemma Advance(evs: seq<Event>, ev: Event, s: System, n: Node, o: Outcome) returns (s': System)
    requires Run(CONFIG, NODES, evs) == s && Enabled(s, ev)
    requires s.nodes[ev.at] == n && React(CONFIG, n, ev) == o
    ensures s' == Apply(s, ev.at, o) && s' == Run(CONFIG, NODES, evs + [ev])
  {
    assert (evs + [ev])[..|evs|] == evs;
    s' := Step(CONFIG, s, ev);
  }

  /** Nodes 2 and 1 have found their way to node 0. */
  lemma DiscoveryRun() returns (evs: seq<Event>, s: System)
    ensures s == Run(CONFIG, NODES, evs)
    ensures 1 in s.nodes && s.nodes[1] == ROUTED1 && 2 in s.nodes && s.nodes[2] == ROUTED2
  {
    Asked();
    FirstTold();
    SecondTold();
    evs := [];
    s := Init(NODES);
    s := Advance(evs, Resolve(2, 0, true, false, 0.0), s, INITIAL_NODE, Outcome(ASKING2, {ASK2}));
    evs := evs + [Resolve(2, 0, true, false, 0.0)];
    s := Advance(evs, Deliver(1, ASK2, 0.0), s, INITIAL_NODE, Outcome(HEARD1, {ASK1}));
    evs := evs + [Deliver(1, ASK2, 0.0)];
    s := Advance(evs, Deliver(0, ASK1, 0.0), s, INITIAL_NODE, Outcome(HEARD0, {TELL0}));
    evs := evs + [Deliver(0, ASK1, 0.0)];
    s := Advance(evs, Deliver(1, TELL0, 0.0), s, HEARD1, Outcome(ROUTED1, {TELL1}));
    evs := evs + [Deliver(1, TELL0, 0.0)];
    s := Advance(evs, Deliver(2, TELL1, 0.0), s, ASKING2, Outcome(ROUTED2, {}));
    evs := evs + [Deliver(2, TELL1, 0.0)];
  }
}
