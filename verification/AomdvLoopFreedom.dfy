/**
 Loop freedom of AOMDV over all stored paths, the stability of what a node advertises, and
 the invariant of its path sets.

 The layers are those of `AodvLoopFreedom`: what may happen to one entry (`LegalEntry`),
 what a handler may do (`Legal`), the global invariant (`Inv`), and the rank that forbids
 a cycle.
 */
module AomdvLoopFreedom {
  import opened Basics
  import opened AomdvModel

  // ---------- The path set of one entry ----------

  /** Paths to one destination leave over different neighbours and arrive over different ones. */
  ghost predicate Disjoint(ps: seq<Path>) {
    forall j, k :: 0 <= j < k < |ps| ==> ps[j].nexthop != ps[k].nexthop && ps[j].lasthop != ps[k].lasthop
  }

  /** No path is longer than what was advertised. */
  predicate Covers(a: Advertised, hops: nat) {
    a.Hops? ==> hops <= a.h
  }

  ghost predicate EntryOk(cfg: Config, e: Entry) {
    && (e.flag == Up <==> e.paths != [])
    && (e.flag == Up ==> Even(e.seqno))
    && (e.flag == Down ==> Discounted(e.seqno) && e.advertised == NotYet)
    && Discounted(e.highestHeard)
    && Disjoint(e.paths)
    && |e.paths| <= Max(1, cfg.maxPaths)
    && (forall p :: p in e.paths ==> p.hopcount >= 1 && Covers(e.advertised, p.hopcount))
  }

  /** What `sender` tells its neighbours: it reaches `dst`, as known under `seqno`, over
      `hops` hops. */
  datatype Advert = Advert(sender: Addr, dst: Addr, seqno: nat, hops: nat)

  function AdvertsOf(m: Msg): set<Advert> {
    match m
    case Rreq(sender, _, src, srcSeqno, hopCount, _, _, _, _) => {Advert(sender, src, srcSeqno, hopCount)}
    case Rrep(sender, _, _, _, dst, dstSeqno, hopCount, _, _, _) => {Advert(sender, dst, dstSeqno, hopCount)}
    case Rerr(_, _) => {}
    case Hello(sender, seqno) => {Advert(sender, sender, seqno, 0)}
  }

  ghost predicate HasRoute(ps: seq<Path>, nexthop: Addr, hopcount: nat) {
    exists p :: p in ps && p.nexthop == nexthop && p.hopcount == hopcount
  }

  /** The path was heard of just now, or was there before under the same number. */
  ghost predicate Explained(d: Addr, was: Entry, e: Entry, p: Path, heard: set<Advert>) {
    || (p.hopcount >= 1 && Advert(p.nexthop, d, e.seqno, p.hopcount - 1) in heard)
    || (e.seqno == was.seqno && HasRoute(was.paths, p.nexthop, p.hopcount))
  }

  /** Numbers never fall; under one number an advertised hop count stays what it is, and it
      was fixed as the length of some stored path. */
  ghost predicate LegalEntry(cfg: Config, d: Addr, was: Entry, e: Entry, heard: set<Advert>) {
    && EntryOk(cfg, e)
    && was.seqno <= e.seqno
    && (e.seqno == was.seqno && was.advertised.Hops? ==> e.advertised == was.advertised)
    && (e.advertised.Hops? ==>
          || (e.seqno == was.seqno && e.advertised == was.advertised)
          || exists p :: p in e.paths && p.hopcount == e.advertised.h)
    && forall p :: p in e.paths ==> Explained(d, was, e, p, heard)
  }

  // ---------- Every change of an entry is legal ----------

  lemma RestartIsLegal(cfg: Config, d: Addr, e: Entry, seqno: nat, p: Path)
    requires EntryOk(cfg, e) && e.seqno < seqno && Even(seqno) && p.hopcount >= 1
    ensures LegalEntry(cfg, d, e, Restart(e, seqno, p), {Advert(p.nexthop, d, seqno, p.hopcount - 1)})
  {
    assert Restart(e, seqno, p).paths == [p];
  }

  lemma InsertIsLegal(cfg: Config, d: Addr, e: Entry, p: Path)
    requires EntryOk(cfg, e) && e.flag == Up && p.hopcount >= 1
    requires Above(e.advertised, p.hopcount - 1) && NewDisjoint(e.paths, p.nexthop, p.lasthop) && |e.paths| < cfg.maxPaths
    ensures LegalEntry(cfg, d, e, Insert(e, p), {Advert(p.nexthop, d, e.seqno, p.hopcount - 1)})
  {
    forall q | q in e.paths + [p]
      ensures Explained(d, e, Insert(e, p), q, {Advert(p.nexthop, d, e.seqno, p.hopcount - 1)})
    {
      assert q in e.paths ==> HasRoute(e.paths, q.nexthop, q.hopcount);
    }
  }

  lemma SameIsLegal(cfg: Config, d: Addr, e: Entry)
    requires EntryOk(cfg, e)
    ensures LegalEntry(cfg, d, e, e, {})
  {
    assert forall p :: p in e.paths ==> HasRoute(e.paths, p.nexthop, p.hopcount);
  }

  lemma MoreHeard(cfg: Config, d: Addr, was: Entry, e: Entry, heard: set<Advert>, heard': set<Advert>)
    requires LegalEntry(cfg, d, was, e, heard) && heard <= heard'
    ensures LegalEntry(cfg, d, was, e, heard')
  {
    assert forall p :: Explained(d, was, e, p, heard) ==> Explained(d, was, e, p, heard');
  }

  lemma HearRequestIsLegal(cfg: Config, d: Addr, e: Entry, seqno: nat, p: Path, forMe: bool)
    requires EntryOk(cfg, e) && Even(seqno) && p.hopcount >= 1
    ensures
      var (e', verdict) := HearRequest(cfg, e, seqno, p, forMe);
      && LegalEntry(cfg, d, e, e', {Advert(p.nexthop, d, seqno, p.hopcount - 1)})
      && (verdict != Ignored ==> e'.seqno == seqno && e'.flag == Up)
  {
    var heard := {Advert(p.nexthop, d, seqno, p.hopcount - 1)};
    SameIsLegal(cfg, d, e);
    MoreHeard(cfg, d, e, e, {}, heard);
    if e.seqno < seqno {
      RestartIsLegal(cfg, d, e, seqno, p);
    } else if e.seqno == seqno && Above(e.advertised, p.hopcount - 1) {
      var k := Between(e.paths, p.nexthop, p.lasthop);
      if k < |e.paths| {
        MoreHeard(cfg, d, e, e.(paths := Extend(e.paths, k, p.expire)), {}, heard);
      } else if NewDisjoint(e.paths, p.nexthop, p.lasthop) && Room(cfg, e.paths, p.hopcount) {
        InsertIsLegal(cfg, d, e, p);
      }
    }
  }

  lemma HearReplyIsLegal(cfg: Config, d: Addr, e: Entry, seqno: nat, p: Path)
    requires EntryOk(cfg, e) && Even(seqno) && p.hopcount >= 1
    ensures
      var (e', verdict) := HearReply(cfg, e, seqno, p);
      && LegalEntry(cfg, d, e, e', {Advert(p.nexthop, d, seqno, p.hopcount - 1)})
      && (verdict != Ignored ==> e'.seqno == seqno && e'.flag == Up)
  {
    var heard := {Advert(p.nexthop, d, seqno, p.hopcount - 1)};
    SameIsLegal(cfg, d, e);
    MoreHeard(cfg, d, e, e, {}, heard);
    if e.seqno < seqno {
      RestartIsLegal(cfg, d, e, seqno, p);
    } else if e.seqno == seqno && Above(e.advertised, p.hopcount - 1) {
      var k := Between(e.paths, p.nexthop, p.lasthop);
      if k < |e.paths| {
        MoreHeard(cfg, d, e, e.(paths := Extend(e.paths, k, p.expire)), {}, heard);
      } else if NewDisjoint(e.paths, p.nexthop, p.lasthop) && Room(cfg, e.paths, p.hopcount) {
        InsertIsLegal(cfg, d, e, p);
      }
    }
  }

  /** Losing some paths, but not all, changes nothing else. */
  lemma FewerPathsIsLegal(cfg: Config, d: Addr, e: Entry, ps: seq<Path>, heardOf: nat)
    requires EntryOk(cfg, e) && ps != [] && |ps| <= |e.paths| && Disjoint(ps)
    requires Discounted(heardOf)
    requires forall p :: p in ps ==> p in e.paths
    ensures LegalEntry(cfg, d, e, e.(paths := ps, highestHeard := heardOf), {})
  {
    forall p | p in ps ensures HasRoute(e.paths, p.nexthop, p.hopcount) {
      assert p in e.paths;
    }
    if ps != [] { assert ps[0] in e.paths; }
  }

  lemma PurgedKeepsDisjoint(ps: seq<Path>, now: real)
    requires Disjoint(ps)
    ensures Disjoint(Purged(ps, now)) && |Purged(ps, now)| <= |ps|
    ensures forall p :: p in Purged(ps, now) ==> p in ps
  {
    if ps != [] {
      PurgedKeepsDisjoint(ps[1..], now);
      forall p | p in Purged(ps[1..], now)
        ensures p.nexthop != ps[0].nexthop && p.lasthop != ps[0].lasthop
      {
        var k :| 0 <= k < |ps[1..]| && ps[1..][k] == p;
        assert ps[k + 1] == p;
      }
    }
  }

  /** The last path is gone: the entry is taken down under a higher, discounted number. */
  lemma DownIsLegal(cfg: Config, d: Addr, e: Entry, e': Entry)
    requires EntryOk(cfg, e) && e'.flag == Down && e'.advertised == NotYet && e'.paths == []
    requires e.seqno < e'.seqno && Discounted(e'.seqno) && Discounted(e'.highestHeard)
    ensures LegalEntry(cfg, d, e, e', {})
  {
  }

  lemma ErrorEntryIsLegal(cfg: Config, d: Addr, e: Entry, nbr: Addr, seqno: nat)
    requires EntryOk(cfg, e) && Discounted(seqno)
    ensures LegalEntry(cfg, d, e, ErrorEntry(e, nbr, seqno), {})
    ensures ErrorSpreads(e, nbr, seqno) ==> Discounted(ErrorEntry(e, nbr, seqno).seqno)
  {
    if Loses(e, nbr) && e.seqno <= seqno {
      var ps := DropAt(e.paths, Through(e.paths, nbr));
      if ps != [] {
        FewerPathsIsLegal(cfg, d, e, ps, Max(e.highestHeard, seqno));
      } else {
        DownIsLegal(cfg, d, e, ErrorEntry(e, nbr, seqno));
      }
    } else {
      SameIsLegal(cfg, d, e);
    }
  }

  lemma BrokenEntryIsLegal(cfg: Config, d: Addr, e: Entry, nbr: Addr)
    requires EntryOk(cfg, e)
    ensures LegalEntry(cfg, d, e, BrokenEntry(e, nbr), {})
    ensures BreakSpreads(e, nbr) ==> Discounted(RaisedSeqno(e))
  {
    if Loses(e, nbr) {
      var ps := DropAt(e.paths, Through(e.paths, nbr));
      if ps != [] {
        FewerPathsIsLegal(cfg, d, e, ps, e.highestHeard);
      } else {
        DownIsLegal(cfg, d, e, BrokenEntry(e, nbr));
      }
    } else {
      SameIsLegal(cfg, d, e);
    }
  }

  lemma PurgedEntryIsLegal(cfg: Config, d: Addr, e: Entry, now: real)
    requires EntryOk(cfg, e)
    ensures LegalEntry(cfg, d, e, PurgedEntry(e, now), {})
  {
    if e.flag == Up && 0.0 < now {
      PurgedKeepsDisjoint(e.paths, now);
      var ps := Purged(e.paths, now);
      if ps != [] {
        FewerPathsIsLegal(cfg, d, e, ps, e.highestHeard);
      } else {
        DownIsLegal(cfg, d, e, PurgedEntry(e, now));
      }
    } else {
      SameIsLegal(cfg, d, e);
    }
  }

  // ---------- Touching an entry without changing its routes ----------

  ghost predicate SameRoutes(ps: seq<Path>, ps': seq<Path>) {
    |ps'| == |ps| && forall k :: 0 <= k < |ps| ==>
      ps'[k].nexthop == ps[k].nexthop && ps'[k].hopcount == ps[k].hopcount && ps'[k].lasthop == ps[k].lasthop
  }

  /** Only timers, counters and marks change; at most, the hop count becomes advertised. */
  ghost predicate Touched(e: Entry, e': Entry) {
    && e'.seqno == e.seqno && e'.flag == e.flag && e'.highestHeard == e.highestHeard
    && SameRoutes(e.paths, e'.paths)
    && (e'.advertised == e.advertised ||
        (e.advertised == NotYet && e.flag == Up && e'.advertised == Hops(MaxHops(e.paths))))
  }

  lemma TouchedIsLegal(cfg: Config, d: Addr, was: Entry, e: Entry, e': Entry, heard: set<Advert>)
    requires LegalEntry(cfg, d, was, e, heard) && Touched(e, e')
    ensures LegalEntry(cfg, d, was, e', heard)
  {
    forall p | p in e'.paths
      ensures Explained(d, was, e', p, heard) && p.hopcount >= 1 && Covers(e'.advertised, p.hopcount)
    {
      var k :| 0 <= k < |e'.paths| && e'.paths[k] == p;
      assert Explained(d, was, e, e.paths[k], heard);
    }
    if e'.advertised.Hops? && !(e'.seqno == was.seqno && e'.advertised == was.advertised) {
      assert e.paths[0].hopcount >= 1;
      assert exists p :: p in e.paths && p.hopcount == e'.advertised.h;
      var k :| 0 <= k < |e.paths| && e.paths[k].hopcount == e'.advertised.h;
      assert e'.paths[k] in e'.paths;
    }
  }

  // ---------- What a handler may do ----------

  ghost predicate TableOk(cfg: Config, t: Table) {
    forall d :: d in t ==> EntryOk(cfg, t[d])
  }

  ghost predicate NodeOk(cfg: Config, n: Node) {
    Even(n.seqno) && TableOk(cfg, n.table)
  }

  predicate MsgOk(m: Msg) {
    match m
    case Rreq(_, _, _, srcSeqno, _, _, _, _, _) => Even(srcSeqno)
    case Rrep(_, _, _, _, _, dstSeqno, _, _, _, _) => Even(dstSeqno)
    case Rerr(_, unreachable) => forall d :: d in unreachable ==> Discounted(unreachable[d])
    case Hello(_, seqno) => Even(seqno)
  }

  ghost predicate LegalTable(cfg: Config, t: Table, t': Table, heard: set<Advert>) {
    t.Keys <= t'.Keys && forall d :: d in t' ==> LegalEntry(cfg, d, Lookup(t, d), t'[d], heard)
  }

  /** A node speaks of itself at distance 0, and of others as its entry advertises them. */
  predicate LegalAdvert(me: Addr, t: Table, a: Advert) {
    && a.sender == me
    && (me == a.dst ==> a.hops == 0)
    && (me != a.dst ==> a.hops >= 1 && Lookup(t, a.dst).seqno == a.seqno && Lookup(t, a.dst).advertised == Hops(a.hops))
  }

  ghost predicate LegalSent(me: Addr, t: Table, sent: set<Msg>) {
    && (forall m :: m in sent ==> MsgOk(m))
    && (forall m, a :: m in sent && a in AdvertsOf(m) ==> LegalAdvert(me, t, a))
  }

  ghost predicate Legal(cfg: Config, me: Addr, n: Node, o: Outcome, heard: set<Advert>) {
    Even(o.node.seqno) && LegalTable(cfg, n.table, o.node.table, heard) && LegalSent(me, o.node.table, o.sent)
  }

  ghost predicate TouchedTable(t: Table, t': Table) {
    t'.Keys == t.Keys && forall d :: d in t ==> Touched(t[d], t'[d])
  }

  lemma TouchedTableIsLegal(cfg: Config, t: Table, t': Table, t'': Table, heard: set<Advert>)
    requires LegalTable(cfg, t, t', heard) && TouchedTable(t', t'')
    ensures LegalTable(cfg, t, t'', heard)
  {
    forall d | d in t''
      ensures LegalEntry(cfg, d, Lookup(t, d), t''[d], heard)
    {
      TouchedIsLegal(cfg, d, Lookup(t, d), t'[d], t''[d], heard);
    }
  }

  lemma SameTableIsLegal(cfg: Config, t: Table, heard: set<Advert>)
    requires TableOk(cfg, t)
    ensures LegalTable(cfg, t, t, heard)
  {
    forall d | d in t ensures LegalEntry(cfg, d, t[d], t[d], heard) {
      SameIsLegal(cfg, d, t[d]);
      MoreHeard(cfg, d, t[d], t[d], {}, heard);
    }
  }

  /** One entry changes legally, all others stay. */
  lemma OneEntryIsLegal(cfg: Config, t: Table, d: Addr, e: Entry, heard: set<Advert>)
    requires TableOk(cfg, t)
    requires LegalEntry(cfg, d, Lookup(t, d), e, heard)
    ensures LegalTable(cfg, t, t[d := e], heard)
  {
    forall a | a in t[d := e]
      ensures LegalEntry(cfg, a, Lookup(t, a), t[d := e][a], heard)
    {
      if a != d {
        SameIsLegal(cfg, a, t[a]);
        MoreHeard(cfg, a, t[a], t[a], {}, heard);
      }
    }
  }

  /** What was heard is entered, with or without a reset of the request counters. */
  lemma LearnIsLegal(cfg: Config, t: Table, d: Addr, e: Entry, heard: set<Advert>)
    requires TableOk(cfg, t)
    requires LegalEntry(cfg, d, Lookup(t, d), e, heard)
    ensures LegalTable(cfg, t, t[d := e], heard) && LegalTable(cfg, t, t[d := SoftReset(e)], heard)
    ensures TableOk(cfg, t[d := SoftReset(e)])
  {
    TouchedIsLegal(cfg, d, Lookup(t, d), e, SoftReset(e), heard);
    OneEntryIsLegal(cfg, t, d, e, heard);
    OneEntryIsLegal(cfg, t, d, SoftReset(e), heard);
  }

  /** Advertising the entry of a usable route gives a hop count of at least 1. */
  lemma AdvertiseUp(cfg: Config, e: Entry)
    requires EntryOk(cfg, e) && e.flag == Up
    ensures Touched(e, Advertise(e)) && Advertise(e).advertised.Hops? && Advertise(e).advertised.h >= 1
  {
    assert e.paths[0] in e.paths;
  }

  lemma AnswerIsLegal(cfg: Config, me: Addr, n: Node, m: Msg, stored: bool, known: bool, now: real)
    requires m.Rreq? && MsgOk(m) && NodeOk(cfg, n) && m.src != me && m.src in n.table
    requires n.table[m.src].flag == Up && n.table[m.src].seqno == m.srcSeqno
    ensures
      var o := AnswerRequest(me, n, m, stored, known, now);
      Even(o.node.seqno) && TouchedTable(n.table, o.node.table) && LegalSent(me, o.node.table, o.sent)
  {
    AdvertiseUp(cfg, n.table[m.src]);
    if HasFreshRoute(n.table, m) {
      AdvertiseUp(cfg, n.table[m.dst]);
    }
  }

  lemma AfterRequestIsLegal(cfg: Config, me: Addr, n: Node, m: Msg, e: Entry, verdict: Verdict, now: real)
    requires m.Rreq? && MsgOk(m) && NodeOk(cfg, n) && m.src != me
    requires LegalEntry(cfg, m.src, Lookup(n.table, m.src), e, AdvertsOf(m))
    requires verdict != Ignored ==> e.seqno == m.srcSeqno && e.flag == Up
    ensures Legal(cfg, me, n, AfterRequest(me, n, m, e, verdict, now), AdvertsOf(m))
  {
    LearnIsLegal(cfg, n.table, m.src, e, AdvertsOf(m));
    if verdict != Ignored {
      var known := (m.src, m.bcastId) in n.ids;
      var ids := if known then n.ids else n.ids[(m.src, m.bcastId) := false];
      var n' := n.(ids := ids, table := n.table[m.src := SoftReset(e)]);
      AnswerIsLegal(cfg, me, n', m, verdict == Stored, known, now);
      var o := AnswerRequest(me, n', m, verdict == Stored, known, now);
      TouchedTableIsLegal(cfg, n.table, n'.table, o.node.table, AdvertsOf(m));
    }
  }

  lemma RequestIsLegal(cfg: Config, me: Addr, n: Node, m: Msg, now: real)
    requires m.Rreq? && MsgOk(m) && NodeOk(cfg, n) && m.src != me
    ensures Legal(cfg, me, n, RecvRequest(cfg, me, n, m, now), AdvertsOf(m))
  {
    var e0, p := Lookup(n.table, m.src), RequestPath(me, m, now);
    var (e, verdict) := HearRequest(cfg, e0, m.srcSeqno, p, m.dst == me);
    HearRequestIsLegal(cfg, m.src, e0, m.srcSeqno, p, m.dst == me);
    AfterRequestIsLegal(cfg, me, n, m, e, verdict, now);
  }

  /** Advertising and then using an entry still only touches it. */
  lemma TouchedTwice(e: Entry, e': Entry, now: real)
    requires Touched(e, e') && e'.paths != []
    ensures Touched(e, UsedEntry(e', now, true))
  {
  }

  lemma RelayTouches(cfg: Config, me: Addr, n: Node, m: Msg, now: real)
    requires m.Rrep? && NodeOk(cfg, n) && m.dst in n.table && n.table[m.dst].flag == Up
    ensures TouchedTable(n.table, RelayReply(me, n, m, now).node.table)
  {
    AdvertiseUp(cfg, n.table[m.dst]);
    var t' := RelayReply(me, n, m, now).node.table;
    forall d | d in n.table
      ensures Touched(n.table[d], t'[d])
    {
      if d == m.ipDst && n.table[d].paths != [] {
        TouchedTwice(n.table[d], n.table[d], now);
        if d == m.dst { TouchedTwice(n.table[d], Advertise(n.table[d]).(error := true), now); }
      }
    }
  }

  lemma RelayIsLegal(cfg: Config, me: Addr, n: Node, m: Msg, now: real)
    requires m.Rrep? && MsgOk(m) && NodeOk(cfg, n) && m.dst != me && m.dst in n.table
    requires n.table[m.dst].flag == Up && n.table[m.dst].seqno == m.dstSeqno
    ensures
      var o := RelayReply(me, n, m, now);
      o.node.seqno == n.seqno && TouchedTable(n.table, o.node.table) && LegalSent(me, o.node.table, o.sent)
  {
    AdvertiseUp(cfg, n.table[m.dst]);
    RelayTouches(cfg, me, n, m, now);
  }

  lemma AfterReplyIsLegal(cfg: Config, me: Addr, n: Node, m: Msg, e: Entry, verdict: Verdict, now: real)
    requires m.Rrep? && MsgOk(m) && NodeOk(cfg, n) && m.dst != me
    requires LegalEntry(cfg, m.dst, Lookup(n.table, m.dst), e, AdvertsOf(m))
    requires verdict != Ignored ==> e.seqno == m.dstSeqno && e.flag == Up
    ensures Legal(cfg, me, n, AfterReply(me, n, m, e, verdict, now), AdvertsOf(m))
  {
    LearnIsLegal(cfg, n.table, m.dst, e, AdvertsOf(m));
    if verdict != Ignored && m.ipDst != me {
      var n' := n.(table := n.table[m.dst := SoftReset(e)]);
      var o := RelayReply(me, n', m, now);
      RelayIsLegal(cfg, me, n', m, now);
      TouchedTableIsLegal(cfg, n.table, n'.table, o.node.table, AdvertsOf(m));
    }
  }

  lemma ReplyIsLegal(cfg: Config, me: Addr, n: Node, m: Msg, now: real)
    requires m.Rrep? && MsgOk(m) && NodeOk(cfg, n)
    ensures Legal(cfg, me, n, RecvReply(cfg, me, n, m, now), AdvertsOf(m))
  {
    if m.dst == me {
      SameTableIsLegal(cfg, n.table, AdvertsOf(m));
    } else {
      var e0, p := Lookup(n.table, m.dst), ReplyPath(m, now);
      var (e, verdict) := HearReply(cfg, e0, m.dstSeqno, p);
      HearReplyIsLegal(cfg, m.dst, e0, m.dstSeqno, p);
      AfterReplyIsLegal(cfg, me, n, m, e, verdict, now);
    }
  }

  lemma ErrorTableIsLegal(cfg: Config, t: Table, m: Msg)
    requires m.Rerr? && MsgOk(m) && TableOk(cfg, t)
    ensures LegalTable(cfg, t, ErrorTable(t, m), {})
  {
    forall d | d in t
      ensures LegalEntry(cfg, d, t[d], ErrorTable(t, m)[d], {})
    {
      if d in m.unreachable { ErrorEntryIsLegal(cfg, d, t[d], m.sender, m.unreachable[d]); }
      else { SameIsLegal(cfg, d, t[d]); }
    }
  }

  lemma ErrorIsLegal(cfg: Config, me: Addr, n: Node, m: Msg)
    requires m.Rerr? && MsgOk(m) && NodeOk(cfg, n)
    ensures Legal(cfg, me, n, RecvError(me, n, m), {})
  {
    ErrorTableIsLegal(cfg, n.table, m);
    forall d | d in PassedOn(n.table, m)
      ensures Discounted(PassedOn(n.table, m)[d])
    {
      ErrorEntryIsLegal(cfg, d, n.table[d], m.sender, m.unreachable[d]);
    }
  }

  lemma BrokenTableIsLegal(cfg: Config, t: Table, nbr: Addr)
    requires TableOk(cfg, t)
    ensures LegalTable(cfg, t, BrokenTable(t, nbr), {})
    ensures forall d :: d in LostThrough(t, nbr) ==> Discounted(LostThrough(t, nbr)[d])
  {
    forall d | d in t
      ensures LegalEntry(cfg, d, t[d], BrokenEntry(t[d], nbr), {})
      ensures BreakSpreads(t[d], nbr) ==> Discounted(RaisedSeqno(t[d]))
    {
      BrokenEntryIsLegal(cfg, d, t[d], nbr);
    }
  }

  lemma LinkFailureIsLegal(cfg: Config, me: Addr, n: Node, nbr: Addr)
    requires NodeOk(cfg, n)
    ensures Legal(cfg, me, n, NbDelete(me, n, nbr), {})
  {
    BrokenTableIsLegal(cfg, n.table, nbr);
  }

  lemma PurgeIsLegal(cfg: Config, me: Addr, n: Node, now: real)
    requires NodeOk(cfg, n)
    ensures Legal(cfg, me, n, Outcome(n.(table := PurgedTable(n.table, now)), {}), {})
  {
    forall d | d in n.table
      ensures LegalEntry(cfg, d, n.table[d], PurgedEntry(n.table[d], now), {})
    {
      PurgedEntryIsLegal(cfg, d, n.table[d], now);
    }
  }

  lemma SendRequestIsLegal(cfg: Config, me: Addr, n: Node, dst: Addr, early: bool)
    requires NodeOk(cfg, n) && dst in n.table
    ensures
      var o := SendRequest(me, n, dst, early);
      Even(o.node.seqno) && TouchedTable(n.table, o.node.table) && LegalSent(me, o.node.table, o.sent)
  {
  }

  lemma UseIsLegal(cfg: Config, t: Table, dst: Addr, e: Entry, now: real, mine: bool)
    requires TableOk(cfg, t) && e == Lookup(t, dst) && e.flag == Up && e.paths != []
    ensures LegalTable(cfg, t, t[dst := e][dst := UsedEntry(e, now, mine)], {})
  {
    SameIsLegal(cfg, dst, e);
    TouchedIsLegal(cfg, dst, e, e, UsedEntry(e, now, mine), {});
    OneEntryIsLegal(cfg, t, dst, UsedEntry(e, now, mine), {});
    assert t[dst := e][dst := UsedEntry(e, now, mine)] == t[dst := UsedEntry(e, now, mine)];
  }

  lemma ResolveIsLegal(cfg: Config, me: Addr, n: Node, dst: Addr, mine: bool, early: bool, now: real)
    requires NodeOk(cfg, n)
    ensures Legal(cfg, me, n, RtResolve(me, n, dst, mine, early, now), {})
  {
    var e := Lookup(n.table, dst);
    SameIsLegal(cfg, dst, e);
    OneEntryIsLegal(cfg, n.table, dst, e, {});
    var n' := n.(table := n.table[dst := e]);
    if e.flag == Up {
      if e.paths != [] { UseIsLegal(cfg, n.table, dst, e, now, mine); }
    } else if mine {
      SendRequestIsLegal(cfg, me, n', dst, early);
      TouchedTableIsLegal(cfg, n.table, n'.table, SendRequest(me, n', dst, early).node.table, {});
    }
  }

  function Heard(ev: Event): set<Advert> {
    if ev.Deliver? then AdvertsOf(ev.m) else {}
  }

  lemma ReactIsLegal(cfg: Config, n: Node, ev: Event)
    requires NodeOk(cfg, n)
    requires ev.Deliver? ==> MsgOk(ev.m)
    ensures Legal(cfg, ev.at, n, React(cfg, n, ev), Heard(ev))
  {
    SameTableIsLegal(cfg, n.table, Heard(ev));
    match ev
    case Deliver(me, m, now) =>
      if m.Rreq? {
        if m.src != me { RequestIsLegal(cfg, me, n, m, now); }
      } else if m.Rrep? {
        ReplyIsLegal(cfg, me, n, m, now);
      } else if m.Rerr? {
        ErrorIsLegal(cfg, me, n, m);
      } else {
        var r := Rrep(m.sender, 0, me, me, m.sender, m.seqno, 0, me, 0, HELLO_LIFETIME);
        ReplyIsLegal(cfg, me, n.(neighbors := n.neighbors + {m.sender}), r, now);
      }
    case Resolve(me, dst, mine, early, now) => ResolveIsLegal(cfg, me, n, dst, mine, early, now);
    case Discover(me, dst, early) =>
      if dst in n.table {
        SendRequestIsLegal(cfg, me, n, dst, early);
        TouchedTableIsLegal(cfg, n.table, n.table, SendRequest(me, n, dst, early).node.table, {});
      }
    case Purge(me, now) => PurgeIsLegal(cfg, me, n, now);
    case LinkBreak(me, nbr) => LinkFailureIsLegal(cfg, me, n, nbr);
    case SayHello(_) =>
    case IdPurge(_, _) =>
  }

  // ---------- The global invariant ----------

  ghost function AllAdverts(msgs: set<Msg>): set<Advert> {
    set m, a | m in msgs && a in AdvertsOf(m) :: a
  }

  function EntryOf(nodes: map<Addr, Node>, a: Addr, d: Addr): Entry {
    if a in nodes then Lookup(nodes[a].table, d) else FRESH
  }

  /** The sender still advertises the same hop count, unless it has moved to a higher number. */
  predicate Standing(nodes: map<Addr, Node>, a: Advert) {
    var e := EntryOf(nodes, a.sender, a.dst);
    if a.sender == a.dst then a.hops == 0
    else a.hops >= 1 && (a.seqno < e.seqno || (a.seqno == e.seqno && e.advertised == Hops(a.hops)))
  }

  /** Somebody claimed to be one hop nearer. */
  ghost predicate Supported(adverts: set<Advert>, d: Addr, seqno: nat, hops: nat) {
    hops >= 1 && exists a :: a in adverts && a.dst == d && a.seqno == seqno && a.hops == hops - 1
  }

  ghost predicate Stable(adverts: set<Advert>) {
    forall a, b :: a in adverts && b in adverts && a.sender == b.sender && a.dst == b.dst && a.seqno == b.seqno ==>
      a.hops == b.hops
  }

  ghost predicate AdvertsStand(nodes: map<Addr, Node>, adverts: set<Advert>) {
    forall a :: a in adverts ==> Standing(nodes, a) && (a.hops > 0 ==> Supported(adverts, a.dst, a.seqno, a.hops))
  }

  /** Every stored path continues, at its next hop, what that neighbour advertised. */
  ghost predicate PathsHeard(nodes: map<Addr, Node>, adverts: set<Advert>) {
    forall i, d, p :: i in nodes && d in nodes[i].table && p in nodes[i].table[d].paths ==>
      p.hopcount >= 1 && Advert(p.nexthop, d, nodes[i].table[d].seqno, p.hopcount - 1) in adverts
  }

  ghost predicate AdvertisedSupported(nodes: map<Addr, Node>, adverts: set<Advert>) {
    forall i, d :: i in nodes && d in nodes[i].table && nodes[i].table[d].advertised.Hops? ==>
      Supported(adverts, d, nodes[i].table[d].seqno, nodes[i].table[d].advertised.h)
  }

  ghost predicate Inv(cfg: Config, s: System) {
    && (forall i :: i in s.nodes ==> NodeOk(cfg, s.nodes[i]))
    && (forall m :: m in s.msgs ==> MsgOk(m))
    && AdvertsStand(s.nodes, AllAdverts(s.msgs))
    && Stable(AllAdverts(s.msgs))
    && PathsHeard(s.nodes, AllAdverts(s.msgs))
    && AdvertisedSupported(s.nodes, AllAdverts(s.msgs))
  }

  lemma PathsStayHeard(cfg: Config, s: System, at: Addr, o: Outcome, heard: set<Advert>)
    requires PathsHeard(s.nodes, AllAdverts(s.msgs)) && at in s.nodes
    requires Legal(cfg, at, s.nodes[at], o, heard) && heard <= AllAdverts(s.msgs)
    ensures PathsHeard(Apply(s, at, o).nodes, AllAdverts(s.msgs))
  {
    var nodes' := Apply(s, at, o).nodes;
    forall i, d, p | i in nodes' && d in nodes'[i].table && p in nodes'[i].table[d].paths
      ensures p.hopcount >= 1
      ensures Advert(p.nexthop, d, nodes'[i].table[d].seqno, p.hopcount - 1) in AllAdverts(s.msgs)
    {
      if i == at {
        var was := Lookup(s.nodes[at].table, d);
        assert LegalEntry(cfg, d, was, o.node.table[d], heard);
        assert Explained(d, was, o.node.table[d], p, heard);
      }
    }
  }

  lemma AdvertisedStaySupported(cfg: Config, s: System, at: Addr, o: Outcome, heard: set<Advert>)
    requires at in s.nodes && Legal(cfg, at, s.nodes[at], o, heard)
    requires AdvertisedSupported(s.nodes, AllAdverts(s.msgs))
    requires PathsHeard(Apply(s, at, o).nodes, AllAdverts(s.msgs))
    ensures AdvertisedSupported(Apply(s, at, o).nodes, AllAdverts(s.msgs))
  {
    var nodes' := Apply(s, at, o).nodes;
    forall i, d | i in nodes' && d in nodes'[i].table && nodes'[i].table[d].advertised.Hops?
      ensures Supported(AllAdverts(s.msgs), d, nodes'[i].table[d].seqno, nodes'[i].table[d].advertised.h)
    {
      if i == at {
        var was, e := Lookup(s.nodes[at].table, d), o.node.table[d];
        assert LegalEntry(cfg, d, was, e, heard);
        if !(e.seqno == was.seqno && e.advertised == was.advertised) {
          var p :| p in e.paths && p.hopcount == e.advertised.h;
          assert Advert(p.nexthop, d, e.seqno, p.hopcount - 1) in AllAdverts(s.msgs);
        }
      }
    }
  }

  /** Adding what the node now says about itself and its entries. */
  lemma SentStand(cfg: Config, nodes: map<Addr, Node>, msgs: set<Msg>, at: Addr, o: Outcome)
    requires at in nodes && nodes[at] == o.node && LegalSent(at, o.node.table, o.sent)
    requires AdvertsStand(nodes, AllAdverts(msgs)) && Stable(AllAdverts(msgs))
    requires AdvertisedSupported(nodes, AllAdverts(msgs))
    ensures AdvertsStand(nodes, AllAdverts(msgs + o.sent)) && Stable(AllAdverts(msgs + o.sent))
  {
    var old_, new_ := AllAdverts(msgs), AllAdverts(msgs + o.sent);
    assert old_ <= new_;
    forall a | a in new_
      ensures a in old_ || LegalAdvert(at, o.node.table, a)
      ensures Standing(nodes, a)
      ensures a.hops > 0 ==> Supported(new_, a.dst, a.seqno, a.hops)
    {
      if a !in old_ {
        assert LegalAdvert(at, o.node.table, a);
        assert a.hops > 0 ==> a.dst in o.node.table;
        assert a.hops > 0 ==> Supported(old_, a.dst, a.seqno, a.hops);
      } else {
        assert a.hops > 0 ==> Supported(old_, a.dst, a.seqno, a.hops);
      }
    }
  }

  lemma LegalKeepsInv(cfg: Config, s: System, at: Addr, o: Outcome, heard: set<Advert>)
    requires Inv(cfg, s) && at in s.nodes && Legal(cfg, at, s.nodes[at], o, heard)
    requires heard <= AllAdverts(s.msgs)
    ensures Inv(cfg, Apply(s, at, o))
  {
    var s' := Apply(s, at, o);
    forall a | a in AllAdverts(s.msgs)
      ensures Standing(s'.nodes, a)
    {
    }
    PathsStayHeard(cfg, s, at, o, heard);
    AdvertisedStaySupported(cfg, s, at, o, heard);
    SentStand(cfg, s'.nodes, s.msgs, at, o);
    assert AllAdverts(s.msgs) <= AllAdverts(s'.msgs);
    forall i, d | i in s'.nodes && d in s'.nodes[i].table && s'.nodes[i].table[d].advertised.Hops?
      ensures Supported(AllAdverts(s'.msgs), d, s'.nodes[i].table[d].seqno, s'.nodes[i].table[d].advertised.h)
    {
      assert Supported(AllAdverts(s.msgs), d, s'.nodes[i].table[d].seqno, s'.nodes[i].table[d].advertised.h);
    }
    forall d | d in o.node.table
      ensures EntryOk(cfg, o.node.table[d])
    {
      assert LegalEntry(cfg, d, Lookup(s.nodes[at].table, d), o.node.table[d], heard);
    }
  }

  lemma StepKeepsInv(cfg: Config, s: System, ev: Event)
    requires Inv(cfg, s)
    ensures Inv(cfg, Step(cfg, s, ev))
  {
    if Enabled(s, ev) {
      ReactIsLegal(cfg, s.nodes[ev.at], ev);
      LegalKeepsInv(cfg, s, ev.at, React(cfg, s.nodes[ev.at], ev), Heard(ev));
    }
  }

  lemma {:induction false} RunKeepsInv(cfg: Config, addrs: set<Addr>, evs: seq<Event>)
    ensures Inv(cfg, Run(cfg, addrs, evs))
  {
    if evs != [] {
      RunKeepsInv(cfg, addrs, evs[..|evs| - 1]);
      StepKeepsInv(cfg, Run(cfg, addrs, evs[..|evs| - 1]), evs[|evs| - 1]);
    }
  }

  // ---------- No cycle ----------

  /** `b` is strictly better placed than `a`: a higher number, or the same one and an
      advertised hop count below whatever `a` may advertise. */
  predicate Climbs(a: Entry, b: Entry) {
    b.seqno > a.seqno || (b.seqno == a.seqno && b.advertised.Hops? && (a.advertised.Hops? ==> b.advertised.h < a.advertised.h))
  }

  lemma ForwardingClimbs(cfg: Config, s: System, d: Addr, a: Addr, b: Addr)
    requires Inv(cfg, s) && Forwards(s.nodes, d, a, b) && b != d
    ensures Climbs(EntryOf(s.nodes, a, d), EntryOf(s.nodes, b, d))
  {
    var e := s.nodes[a].table[d];
    var k :| 0 <= k < |e.paths| && e.paths[k].nexthop == b;
    var p := e.paths[k];
    assert p in e.paths;
    var claim := Advert(b, d, e.seqno, p.hopcount - 1);
    assert claim in AllAdverts(s.msgs);
    StandingClimbs(cfg, s.nodes, e, p, claim);
  }

  /** A neighbour that stands behind the advert of a path is better placed than its owner. */
  lemma StandingClimbs(cfg: Config, nodes: map<Addr, Node>, e: Entry, p: Path, claim: Advert)
    requires EntryOk(cfg, e) && p in e.paths && p.hopcount >= 1
    requires claim.hops == p.hopcount - 1 && claim.seqno == e.seqno && claim.sender != claim.dst
    requires Standing(nodes, claim)
    ensures Climbs(e, EntryOf(nodes, claim.sender, claim.dst))
  {
  }

  lemma {:induction false} WalkClimbs(cfg: Config, s: System, d: Addr, p: seq<Addr>, k: nat)
    requires Inv(cfg, s) && 1 <= k < |p|
    requires forall j :: 0 <= j < |p| - 1 ==> Forwards(s.nodes, d, p[j], p[j + 1])
    requires forall j :: 0 <= j < |p| ==> p[j] != d
    ensures Climbs(EntryOf(s.nodes, p[0], d), EntryOf(s.nodes, p[k], d))
  {
    if k > 1 {
      WalkClimbs(cfg, s, d, p, k - 1);
    }
    ForwardingClimbs(cfg, s, d, p[k - 1], p[k]);
  }

  /** Loop freedom over all stored paths, in every run of the shipped configuration. */
  lemma LoopFreedom(cfg: Config, addrs: set<Addr>, evs: seq<Event>)
    ensures LoopFree(Run(cfg, addrs, evs))
  {
    RunKeepsInv(cfg, addrs, evs);
    var s := Run(cfg, addrs, evs);
    forall d, p | Cycle(s.nodes, d, p)
      ensures false
    {
      forall j | 0 <= j < |p| ensures p[j] != d {
        if j < |p| - 1 { assert Forwards(s.nodes, d, p[j], p[j + 1]); }
        else { assert Forwards(s.nodes, d, p[0], p[1]); }
      }
      WalkClimbs(cfg, s, d, p, |p| - 1);
    }
  }

  // ---------- Consequences along every run ----------

  /** A node never advertises two hop counts for one destination under one number, to
      anyone, over the whole run. */
  lemma AdvertisementsAreStable(cfg: Config, addrs: set<Addr>, evs: seq<Event>, m: Msg, m': Msg, a: Advert, a': Advert)
    requires m in Run(cfg, addrs, evs).msgs && m' in Run(cfg, addrs, evs).msgs
    requires a in AdvertsOf(m) && a' in AdvertsOf(m')
    requires a.sender == a'.sender && a.dst == a'.dst && a.seqno == a'.seqno
    ensures a.hops == a'.hops
  {
    RunKeepsInv(cfg, addrs, evs);
    var adverts := AllAdverts(Run(cfg, addrs, evs).msgs);
    assert a in adverts && a' in adverts;
  }

  /** Every entry of every node satisfies the path-set invariant. */
  lemma PathSets(cfg: Config, addrs: set<Addr>, evs: seq<Event>, i: Addr, d: Addr)
    requires i in Run(cfg, addrs, evs).nodes && d in Run(cfg, addrs, evs).nodes[i].table
    ensures
      var e := Run(cfg, addrs, evs).nodes[i].table[d];
      && Disjoint(e.paths)
      && |e.paths| <= Max(1, cfg.maxPaths)
      && (e.flag == Up <==> e.paths != [])
      && (i != d ==> forall p :: p in e.paths ==> p.nexthop != i)
  {
    RunKeepsInv(cfg, addrs, evs);
    NoPathThroughSelf(cfg, Run(cfg, addrs, evs), i, d);
  }

  lemma NoPathThroughSelf(cfg: Config, s: System, i: Addr, d: Addr)
    requires Inv(cfg, s) && i in s.nodes && d in s.nodes[i].table
    ensures EntryOk(cfg, s.nodes[i].table[d])
    ensures i != d ==> forall p :: p in s.nodes[i].table[d].paths ==> p.nexthop != i
  {
    var e := s.nodes[i].table[d];
    assert NodeOk(cfg, s.nodes[i]);
    forall p | p in e.paths && p.nexthop == i
      ensures i == d
    {
      assert Standing(s.nodes, Advert(i, d, e.seqno, p.hopcount - 1));
    }
  }
}
