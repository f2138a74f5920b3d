/**
 Loop freedom and the sequence-number discipline of AODV.

 The argument has three layers: what one handler may do to one node (`Legal`), the global
 invariant that such steps keep (`Inv`), and the rank that forbids a cycle.
 */
module AodvLoopFreedom {
  import opened Basics
  import opened AodvModel

  // ---------- Ranks ----------

  /** The entry is fresher than the offer, or as fresh and not longer. */
  predicate AtLeast(e: Entry, seqno: nat, hops: int) {
    e.seqno > seqno || (e.seqno == seqno && e.hops <= hops)
  }

  function EntryOf(nodes: map<Addr, Node>, a: Addr, d: Addr): Entry {
    if a in nodes then Lookup(nodes[a].table, d) else FRESH
  }

  /** What `sender` tells its neighbours: it reaches `dst`, as known under `seqno`, in
      `hops - 1` hops. */
  datatype Advert = Advert(sender: Addr, dst: Addr, seqno: nat, hops: nat)

  function AdvertsOf(m: Msg): set<Advert> {
    match m
    case Rreq(sender, _, src, srcSeqno, hopCount, _, _, _) => {Advert(sender, src, srcSeqno, hopCount)}
    case Rrep(sender, _, _, _, dst, dstSeqno, hopCount) => {Advert(sender, dst, dstSeqno, hopCount)}
    case Rerr(_, _) => {}
    case Hello(_, _) => {}
  }

  /** The sender still stands behind the advert. */
  predicate Backed(nodes: map<Addr, Node>, a: Advert) {
    a.sender == a.dst || AtLeast(EntryOf(nodes, a.sender, a.dst), a.seqno, a.hops - 1)
  }

  // ---------- The sequence-number discipline of one node ----------

  /** A usable route has an even number, a route taken down an odd one or the initial 0. */
  predicate Disciplined(e: Entry) {
    && (e.flag == Down ==> e.hops == INFINITY2 && Discounted(e.seqno))
    && (e.hops != INFINITY2 || e.flag == Up ==> Even(e.seqno) && e.hops >= 1)
  }

  predicate NodeOk(n: Node) {
    Even(n.seqno) && forall d :: d in n.table ==> Disciplined(n.table[d])
  }

  predicate MsgOk(m: Msg) {
    match m
    case Rreq(_, ttl, _, srcSeqno, hopCount, _, _, _) =>
      ttl >= 1 && hopCount >= 1 && hopCount + ttl <= NETWORK_DIAMETER + 1 && Even(srcSeqno)
    case Rrep(_, _, _, _, _, dstSeqno, hopCount) => hopCount >= 1 && Even(dstSeqno)
    case Rerr(_, unreachable) => forall d :: d in unreachable ==> Discounted(unreachable[d])
    case Hello(_, _) => true
  }

  // ---------- What a handler may do ----------

  predicate Kept(old_: Entry, e: Entry) {
    && e.seqno == old_.seqno && e.hops == old_.hops
    && (e.flag == Up ==> old_.flag == Up && e.nexthop == old_.nexthop)
    && (e.flag == Down ==> old_.flag == Down)
  }

  predicate Adopted(old_: Entry, e: Entry, d: Addr, heard: set<Advert>) {
    && e.flag == Up
    && Advert(e.nexthop, d, e.seqno, e.hops) in heard
    && !AtLeast(old_, e.seqno, e.hops)
  }

  predicate Dropped(old_: Entry, e: Entry) {
    && e.flag == Down && e.hops == INFINITY2 && e.seqno > old_.seqno
  }

  /** Every entry is kept, replaced by something heard that is strictly better, or
      dropped under a higher number. */
  ghost predicate LegalTable(t: Table, t': Table, heard: set<Advert>) {
    forall d :: d in t' ==>
      Kept(Lookup(t, d), t'[d]) || Adopted(Lookup(t, d), t'[d], d, heard) || Dropped(Lookup(t, d), t'[d])
  }

  /** A packet a node may send with table `t`: its advert is about the node itself, or no
      better than the entry, and exactly one hop longer when it comes from a reply. */
  predicate LegalAdvert(me: Addr, t: Table, a: Advert) {
    && a.sender == me
    && (me == a.dst || AtLeast(Lookup(t, a.dst), a.seqno, a.hops - 1))
    && (a.hops > NETWORK_DIAMETER ==>
          var e := Lookup(t, a.dst);
          e.seqno == a.seqno && e.hops == a.hops - 1 && (e.hops != INFINITY2 || e.flag == Up))
  }

  ghost predicate Legal(me: Addr, n: Node, o: Outcome, heard: set<Advert>) {
    && NodeOk(o.node)
    && n.table.Keys <= o.node.table.Keys
    && n.seqno <= o.node.seqno
    && LegalTable(n.table, o.node.table, heard)
    && (forall m :: m in o.sent ==> MsgOk(m))
    && (forall m, a :: m in o.sent && a in AdvertsOf(m) ==> LegalAdvert(me, o.node.table, a))
  }

  // ---------- Every handler is legal ----------

  predicate SameRoute(e: Entry, e': Entry) {
    e'.seqno == e.seqno && e'.hops == e.hops && e'.nexthop == e.nexthop && e'.flag == e.flag
  }

  /** Answering or forwarding a request leaves every route as it is. */
  lemma AnswerKeepsRoutes(me: Addr, n: Node, m: Msg)
    requires m.Rreq? && m.src in n.table
    ensures AnswerRequest(me, n, m).node.table.Keys == n.table.Keys
    ensures forall d :: d in n.table ==> SameRoute(n.table[d], AnswerRequest(me, n, m).node.table[d])
  {
  }

  lemma AnswerIsLegal(me: Addr, n: Node, m: Msg)
    requires m.Rreq? && NodeOk(n) && MsgOk(m) && m.src in n.table
    requires AtLeast(n.table[m.src], m.srcSeqno, m.hopCount)
    ensures Legal(me, n, AnswerRequest(me, n, m), {})
  {
    AnswerKeepsRoutes(me, n, m);
    var t' := AnswerRequest(me, n, m).node.table;
    forall d | d in t'
      ensures Kept(Lookup(n.table, d), t'[d]) && Disciplined(t'[d])
    {
      assert SameRoute(n.table[d], t'[d]);
    }
  }

  /** A handler that first changes its table and then only answers. */
  lemma LegalThen(me: Addr, n: Node, n': Node, o: Outcome, heard: set<Advert>)
    requires n.seqno <= n'.seqno && n.table.Keys <= n'.table.Keys
    requires LegalTable(n.table, n'.table, heard)
    requires Legal(me, n', o, {})
    requires o.node.table.Keys == n'.table.Keys
    requires forall d :: d in n'.table ==> SameRoute(n'.table[d], o.node.table[d])
    ensures Legal(me, n, o, heard)
  {
    forall d | d in o.node.table
      ensures
        var e, e' := Lookup(n.table, d), o.node.table[d];
        Kept(e, e') || Adopted(e, e', d, heard) || Dropped(e, e')
    {
      assert SameRoute(n'.table[d], o.node.table[d]);
    }
  }

  lemma ReverseRouteIsLegal(n: Node, m: Msg, waiting: bool)
    requires m.Rreq? && NodeOk(n) && MsgOk(m)
    ensures
      var e, e' := Lookup(n.table, m.src), ReverseRoute(Lookup(n.table, m.src), m, waiting);
      && (Kept(e, e') || Adopted(e, e', m.src, AdvertsOf(m)))
      && Disciplined(e') && AtLeast(e', m.srcSeqno, m.hopCount)
  {
  }

  lemma RequestIsLegal(me: Addr, n: Node, m: Msg, waiting: bool)
    requires m.Rreq? && NodeOk(n) && MsgOk(m)
    requires m.src != me && (m.src, m.bcastId) !in n.seen
    ensures Legal(me, n, RecvRequest(me, n, m, waiting), AdvertsOf(m))
  {
    ReverseRouteIsLegal(n, m, waiting);
    var e := ReverseRoute(Lookup(n.table, m.src), m, waiting);
    var n' := n.(seen := n.seen + {(m.src, m.bcastId)}, table := n.table[m.src := e]);
    var o := RecvRequest(me, n, m, waiting);
    assert o == AnswerRequest(me, n', m);
    AnswerIsLegal(me, n', m);
    AnswerKeepsRoutes(me, n', m);
    LegalThen(me, n, n', o, AdvertsOf(m));
  }

  lemma SendRequestIsLegal(me: Addr, n: Node, dst: Addr, early: bool)
    requires NodeOk(n) && dst in n.table
    ensures Legal(me, n, SendRequest(me, n, dst, early), {})
    ensures SendRequest(me, n, dst, early).node.table.Keys == n.table.Keys
    ensures forall d :: d in n.table ==> SameRoute(n.table[d], SendRequest(me, n, dst, early).node.table[d])
  {
  }

  lemma ReplyIsLegal(me: Addr, n: Node, m: Msg)
    requires m.Rrep? && NodeOk(n) && MsgOk(m)
    ensures Legal(me, n, RecvReply(me, n, m), AdvertsOf(m))
  {
  }

  lemma ErrorIsLegal(me: Addr, n: Node, m: Msg)
    requires m.Rerr? && NodeOk(n) && MsgOk(m)
    ensures Legal(me, n, RecvError(me, n, m), {})
  {
  }

  lemma LinkFailureIsLegal(me: Addr, n: Node, nbr: Addr)
    requires NodeOk(n)
    ensures Legal(me, n, NbDelete(me, n, nbr), {})
  {
  }

  lemma PurgeIsLegal(me: Addr, n: Node, expired: set<Addr>)
    requires NodeOk(n)
    ensures Legal(me, n, RtPurge(n, expired), {})
  {
  }

  /** A handler that first changes its table and then sends a request. */
  lemma SendRequestAfter(me: Addr, n: Node, n': Node, dst: Addr, early: bool)
    requires NodeOk(n') && dst in n'.table
    requires n.seqno <= n'.seqno && n.table.Keys <= n'.table.Keys
    requires LegalTable(n.table, n'.table, {})
    ensures Legal(me, n, SendRequest(me, n', dst, early), {})
  {
    SendRequestIsLegal(me, n', dst, early);
    LegalThen(me, n, n', SendRequest(me, n', dst, early), {});
  }

  lemma ResolveIsLegal(me: Addr, n: Node, dst: Addr, mine: bool, early: bool)
    requires NodeOk(n)
    ensures Legal(me, n, RtResolve(me, n, dst, mine, early), {})
  {
    var n' := n.(table := n.table[dst := Lookup(n.table, dst)]);
    assert LegalTable(n.table, n'.table, {});
    if n'.table[dst].flag != Up && mine {
      SendRequestAfter(me, n, n', dst, early);
    }
  }

  lemma LinkLayerFailedIsLegal(me: Addr, n: Node, dst: Addr, nbr: Addr, forwards: nat, early: bool)
    requires NodeOk(n)
    ensures Legal(me, n, LinkLayerFailed(me, n, dst, nbr, forwards, early), {})
  {
    if dst !in n.table {
    } else if forwards > n.table[dst].hops {
      var n' := n.(table := n.table[dst := n.table[dst].(flag := InRepair)]);
      assert LegalTable(n.table, n'.table, {});
      SendRequestAfter(me, n, n', dst, early);
    } else {
      LinkFailureIsLegal(me, n, nbr);
    }
  }

  function Heard(ev: Event): set<Advert> {
    if ev.Deliver? then AdvertsOf(ev.m) else {}
  }

  lemma ReactIsLegal(n: Node, ev: Event)
    requires NodeOk(n)
    requires ev.Deliver? ==> MsgOk(ev.m)
    requires ev.RepairExpires? ==> !(ev.dst in n.table && n.table[ev.dst].flag == InRepair)
    ensures Legal(ev.at, n, React(n, ev), Heard(ev))
  {
    match ev
    case Deliver(me, m, waiting) =>
      if m.Rreq? {
        if m.src != me && (m.src, m.bcastId) !in n.seen { RequestIsLegal(me, n, m, waiting); }
      } else if m.Rrep? {
        ReplyIsLegal(me, n, m);
      } else if m.Rerr? {
        ErrorIsLegal(me, n, m);
      }
    case Resolve(me, dst, mine, early) => ResolveIsLegal(me, n, dst, mine, early);
    case Discover(me, dst, early) => if dst in n.table { SendRequestIsLegal(me, n, dst, early); }
    case Purge(me, expired) => PurgeIsLegal(me, n, expired);
    case LinkBreak(me, nbr) => LinkFailureIsLegal(me, n, nbr);
    case SayHello(_) =>
    case IdPurge(_, _) =>
    case Repair(me, dst, nbr, forwards, early) => LinkLayerFailedIsLegal(me, n, dst, nbr, forwards, early);
    case RepairExpires(me, dst) =>
  }

  // ---------- The global invariant ----------

  /** Behind every usable route stands the node it points to. */
  ghost predicate RoutesBacked(nodes: map<Addr, Node>) {
    forall i, d :: i in nodes && d in nodes[i].table && nodes[i].table[d].flag == Up ==>
      var e := nodes[i].table[d];
      Backed(nodes, Advert(e.nexthop, d, e.seqno, e.hops))
  }

  ghost predicate AdvertsBacked(s: System) {
    forall m, a :: m in s.msgs && a in AdvertsOf(m) ==> Backed(s.nodes, a)
  }

  ghost predicate Inv(s: System) {
    && (forall i :: i in s.nodes ==> NodeOk(s.nodes[i]))
    && (forall m :: m in s.msgs ==> MsgOk(m))
    && RoutesBacked(s.nodes)
    && AdvertsBacked(s)
  }

  /** No entry ever becomes worse: numbers never fall, and under one number the hop count
      never grows. */
  lemma EntriesImprove(s: System, at: Addr, o: Outcome, heard: set<Advert>, i: Addr, d: Addr)
    requires at in s.nodes && Legal(at, s.nodes[at], o, heard)
    ensures
      var e := EntryOf(s.nodes, i, d);
      AtLeast(EntryOf(Apply(s, at, o).nodes, i, d), e.seqno, e.hops)
  {
    if i == at && d in o.node.table {
      var e, e' := Lookup(s.nodes[at].table, d), o.node.table[d];
      assert Kept(e, e') || Adopted(e, e', d, heard) || Dropped(e, e');
    }
  }

  lemma BackedStays(s: System, at: Addr, o: Outcome, heard: set<Advert>, a: Advert)
    requires at in s.nodes && Legal(at, s.nodes[at], o, heard) && Backed(s.nodes, a)
    ensures Backed(Apply(s, at, o).nodes, a)
  {
    EntriesImprove(s, at, o, heard, a.sender, a.dst);
  }

  lemma LegalKeepsInv(s: System, at: Addr, o: Outcome, heard: set<Advert>)
    requires Inv(s) && at in s.nodes && Legal(at, s.nodes[at], o, heard)
    requires forall a :: a in heard ==> Backed(s.nodes, a)
    ensures Inv(Apply(s, at, o))
  {
    var s' := Apply(s, at, o);
    forall i, d | i in s'.nodes && d in s'.nodes[i].table && s'.nodes[i].table[d].flag == Up
      ensures
        var e := s'.nodes[i].table[d];
        Backed(s'.nodes, Advert(e.nexthop, d, e.seqno, e.hops))
    {
      var e := s'.nodes[i].table[d];
      if i == at {
        var e0 := Lookup(s.nodes[at].table, d);
        assert Kept(e0, e) || Adopted(e0, e, d, heard) || Dropped(e0, e);
      }
      BackedStays(s, at, o, heard, Advert(e.nexthop, d, e.seqno, e.hops));
    }
    forall m, a | m in s'.msgs && a in AdvertsOf(m)
      ensures Backed(s'.nodes, a)
    {
      if m in s.msgs {
        BackedStays(s, at, o, heard, a);
      } else {
        assert LegalAdvert(at, o.node.table, a);
      }
    }
  }

  lemma StepKeepsInv(s: System, ev: Event)
    requires Inv(s) && !AbandonsRepair(s, ev)
    ensures Inv(Step(s, ev))
  {
    if Enabled(s, ev) {
      ReactIsLegal(s.nodes[ev.at], ev);
      LegalKeepsInv(s, ev.at, React(s.nodes[ev.at], ev), Heard(ev));
    }
  }

  lemma {:induction false} RunKeepsInv(addrs: set<Addr>, evs: seq<Event>)
    requires NeverAbandons(addrs, evs)
    ensures Inv(Run(addrs, evs))
  {
    if evs != [] {
      RunKeepsInv(addrs, evs[..|evs| - 1]);
      StepKeepsInv(Run(addrs, evs[..|evs| - 1]), evs[|evs| - 1]);
    }
  }

  // ---------- No cycle ----------

  /** Along a usable route the entry gets strictly better, unless the destination is next. */
  lemma ForwardingClimbs(s: System, d: Addr, a: Addr, b: Addr)
    requires Inv(s) && Forwards(s.nodes, d, a, b) && b != d
    ensures
      var e := EntryOf(s.nodes, a, d);
      AtLeast(EntryOf(s.nodes, b, d), e.seqno, e.hops - 1)
  {
    var e := s.nodes[a].table[d];
    assert Backed(s.nodes, Advert(e.nexthop, d, e.seqno, e.hops));
  }

  lemma {:induction false} WalkClimbs(s: System, d: Addr, p: seq<Addr>, k: nat)
    requires Inv(s) && 1 <= k < |p|
    requires forall j :: 0 <= j < |p| - 1 ==> Forwards(s.nodes, d, p[j], p[j + 1])
    requires forall j :: 0 <= j < |p| ==> p[j] != d
    ensures
      var e := EntryOf(s.nodes, p[0], d);
      AtLeast(EntryOf(s.nodes, p[k], d), e.seqno, e.hops - 1)
  {
    if k > 1 {
      WalkClimbs(s, d, p, k - 1);
    }
    ForwardingClimbs(s, d, p[k - 1], p[k]);
  }

  lemma InvForbidsLoops(s: System)
    requires Inv(s)
    ensures LoopFree(s)
  {
    forall d, p | Cycle(s.nodes, d, p)
      ensures false
    {
      forall j | 0 <= j < |p| ensures p[j] != d {
        if j < |p| - 1 { assert Forwards(s.nodes, d, p[j], p[j + 1]); }
        else { assert Forwards(s.nodes, d, p[0], p[1]); }
      }
      WalkClimbs(s, d, p, |p| - 1);
    }
  }

  /** Loop freedom: whatever is lost, duplicated, delayed or reordered, in any network and
      for any destination, as long as no local repair is abandoned. */
  lemma LoopFreedom(addrs: set<Addr>, evs: seq<Event>)
    requires NeverAbandons(addrs, evs)
    ensures LoopFree(Run(addrs, evs))
  {
    RunKeepsInv(addrs, evs);
    InvForbidsLoops(Run(addrs, evs));
  }

  // ---------- The sequence discipline along a run ----------

  /** One more event: a usable route has an even number and one that is down an odd one or
      the initial 0; numbers never fall, and a route goes down only under a higher one. */
  lemma SequenceDiscipline(addrs: set<Addr>, evs: seq<Event>, ev: Event, i: Addr, d: Addr)
    requires NeverAbandons(addrs, evs) && !AbandonsRepair(Run(addrs, evs), ev)
    ensures
      var e := EntryOf(Run(addrs, evs).nodes, i, d);
      var e' := EntryOf(Step(Run(addrs, evs), ev).nodes, i, d);
      && (e'.flag == Up ==> Even(e'.seqno))
      && (e'.flag == Down ==> Discounted(e'.seqno))
      && e.seqno <= e'.seqno
      && (e.seqno == e'.seqno ==> e'.hops <= e.hops)
      && (e.flag != Down && e'.flag == Down ==> e.seqno < e'.seqno)
  {
    var s := Run(addrs, evs);
    RunKeepsInv(addrs, evs);
    StepKeepsInv(s, ev);
    if Enabled(s, ev) {
      var o := React(s.nodes[ev.at], ev);
      ReactIsLegal(s.nodes[ev.at], ev);
      EntriesImprove(s, ev.at, o, Heard(ev), i, d);
      if i == ev.at && d in o.node.table {
        var e, e' := Lookup(s.nodes[i].table, d), o.node.table[d];
        assert Kept(e, e') || Adopted(e, e', d, Heard(ev)) || Dropped(e, e');
      }
    }
    var s' := Step(s, ev);
    if i in s'.nodes && d in s'.nodes[i].table {
      assert NodeOk(s'.nodes[i]);
    }
  }

  lemma RepairOffNeverAbandons(addrs: set<Addr>, evs: seq<Event>)
    requires RepairOff(evs)
    ensures NeverAbandons(addrs, evs)
  {
    if evs != [] {
      RepairOffNeverAbandons(addrs, evs[..|evs| - 1]);
    }
  }
}
