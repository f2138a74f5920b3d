/**
 Node-disjoint reverse paths of AOMDV. Each node forwards one request of a flood, with one
 first hop, and so the relays behind two paths with different last hops share no node.

 `FloodsOk` is the invariant on the requests on the air, `PathBacked` and `MsgBacked` say
 where each stored path and each advertisement came from, and a `Trail` is the whole way
 back to the destination.
 */
module AomdvDisjointness {
  import opened AomdvModel
  import opened AomdvLoopFreedom

  // ---------- Floods ----------

  /** A flood is the originator of a request and its number among those of the originator. */
  type Flood = (Addr, nat)

  predicate InFlood(m: Msg, b: Flood) {
    m.Rreq? && (m.src, m.bcastId) == b
  }

  /** No node forgets that it saw the flood. */
  predicate Remembered(evs: seq<Event>, b: Flood) {
    forall k :: 0 <= k < |evs| && evs[k].IdPurge? ==> b !in evs[k].stale
  }

  /** A node forgets exactly the floods it is told to. */
  lemma FloodsForgotten(cfg: Config, n: Node, at: Addr, stale: set<Flood>)
    ensures React(cfg, n, IdPurge(at, stale)) == Outcome(n.(ids := n.ids - stale), {})
  {
  }

  /** The numbers of a request are of the past of its originator, and determine each other. */
  ghost predicate Numbered(s: System) {
    && (forall m :: m in s.msgs && m.Rreq? ==>
          m.src in s.nodes && m.bcastId < s.nodes[m.src].bid && m.srcSeqno <= s.nodes[m.src].seqno)
    && (forall m, m' :: m in s.msgs && m' in s.msgs && m.Rreq? && m'.Rreq? && m.src == m'.src ==>
          (m.bcastId == m'.bcastId <==> m.srcSeqno == m'.srcSeqno))
  }

  /** Who forwarded a request of the flood remembers it, and nobody sent two. */
  ghost predicate OneEach(s: System, b: Flood) {
    && (forall m :: m in s.msgs && InFlood(m, b) && m.sender != b.0 ==>
          m.sender in s.nodes && b in s.nodes[m.sender].ids)
    && (forall m, m' :: m in s.msgs && m' in s.msgs && InFlood(m, b) && InFlood(m', b) && m.sender == m'.sender ==>
          m == m')
  }

  ghost predicate FloodsOk(s: System, b: Flood) {
    Numbered(s) && OneEach(s, b)
  }

  /** A new request of the node itself. */
  predicate Originates(me: Addr, n: Node, o: Outcome, m: Msg) {
    && m.Rreq? && o.sent == {m}
    && m.sender == m.src == me && m.bcastId == n.bid && m.srcSeqno == n.seqno + 2
    && o.node.bid == n.bid + 1 && o.node.seqno == n.seqno + 2
  }

  /** A request that the node had not seen, passed on. */
  predicate Forwarded(me: Addr, n: Node, o: Outcome, m: Msg, heard: Msg) {
    && m.Rreq? && heard.Rreq? && o.sent == {m}
    && m.sender == me != m.src
    && m.src == heard.src && m.bcastId == heard.bcastId && m.srcSeqno == heard.srcSeqno
    && (m.src, m.bcastId) !in n.ids && (m.src, m.bcastId) in o.node.ids
  }

  /** What an event may do to the floods. */
  ghost predicate FloodsGoOn(n: Node, ev: Event, o: Outcome) {
    && n.bid <= o.node.bid && n.seqno <= o.node.seqno
    && (forall b :: b in n.ids && !(ev.IdPurge? && b in ev.stale) ==> b in o.node.ids)
    && (forall m :: m in o.sent && m.Rreq? ==>
          Originates(ev.at, n, o, m) || (ev.Deliver? && Forwarded(ev.at, n, o, m, ev.m)))
  }

  lemma AnswerGoesOn(me: Addr, n: Node, n': Node, m: Msg, stored: bool, now: real)
    requires m.Rreq? && m.src in n'.table && m.src != me
    requires n'.bid == n.bid && n'.seqno == n.seqno
    requires n'.ids == if (m.src, m.bcastId) in n.ids then n.ids else n.ids[(m.src, m.bcastId) := false]
    ensures FloodsGoOn(n, Deliver(me, m, now), AnswerRequest(me, n', m, stored, (m.src, m.bcastId) in n.ids, now))
  {
  }

  lemma RequestGoesOn(cfg: Config, me: Addr, n: Node, m: Msg, now: real)
    requires m.Rreq?
    ensures FloodsGoOn(n, Deliver(me, m, now), RecvRequest(cfg, me, n, m, now))
  {
    if m.src != me {
      var (e, verdict) := HearRequest(cfg, Lookup(n.table, m.src), m.srcSeqno, RequestPath(me, m, now), m.dst == me);
      var known := (m.src, m.bcastId) in n.ids;
      var ids := if known then n.ids else n.ids[(m.src, m.bcastId) := false];
      AnswerGoesOn(me, n, n.(ids := ids, table := n.table[m.src := SoftReset(e)]), m, verdict == Stored, now);
    }
  }

  lemma ReactGoesOn(cfg: Config, n: Node, ev: Event)
    ensures FloodsGoOn(n, ev, React(cfg, n, ev))
  {
    if ev.Deliver? && ev.m.Rreq? { RequestGoesOn(cfg, ev.at, n, ev.m, ev.now); }
  }

  lemma StepKeepsNumbered(cfg: Config, s: System, ev: Event)
    requires Numbered(s)
    ensures Numbered(Step(cfg, s, ev))
  {
    if Enabled(s, ev) { ReactGoesOn(cfg, s.nodes[ev.at], ev); }
  }

  lemma StepKeepsOneEach(cfg: Config, s: System, ev: Event, b: Flood)
    requires FloodsOk(s, b) && !(ev.IdPurge? && b in ev.stale)
    ensures OneEach(Step(cfg, s, ev), b)
  {
    if Enabled(s, ev) { ReactGoesOn(cfg, s.nodes[ev.at], ev); }
  }

  lemma {:induction false} RunKeepsFloods(cfg: Config, addrs: set<Addr>, evs: seq<Event>, b: Flood)
    requires Remembered(evs, b)
    ensures FloodsOk(Run(cfg, addrs, evs), b)
    decreases |evs|
  {
    if evs != [] {
      var before := evs[..|evs| - 1];
      assert forall k :: 0 <= k < |before| ==> before[k] == evs[k];
      RunKeepsFloods(cfg, addrs, before, b);
      StepKeepsNumbered(cfg, Run(cfg, addrs, before), evs[|evs| - 1]);
      StepKeepsOneEach(cfg, Run(cfg, addrs, before), evs[|evs| - 1], b);
    }
  }

  /** In every run in which the flood is remembered, no node sends two requests of it. */
  lemma OneRequestPerNode(cfg: Config, addrs: set<Addr>, evs: seq<Event>, b: Flood, m: Msg, m': Msg)
    requires Remembered(evs, b) && m in Run(cfg, addrs, evs).msgs && m' in Run(cfg, addrs, evs).msgs
    requires InFlood(m, b) && InFlood(m', b) && m.sender == m'.sender
    ensures m == m'
  {
    RunKeepsFloods(cfg, addrs, evs, b);
  }

  // ---------- Where a path comes from ----------

  /** The last hop of the path over which node `i` hears the message: a node that hears the
      destination itself is the last hop. */
  function LabelFor(i: Addr, m: Msg): Addr
    requires !m.Rerr?
  {
    match m
    case Rreq(_, _, _, _, hopCount, firstHop, _, _, _) => if hopCount == 0 then i else firstHop
    case Rrep(_, _, _, _, _, _, _, firstHop, _, _) => firstHop
    case Hello(_, _) => i
  }

  /** What a message other than an error advertises. */
  function Destination(m: Msg): Addr
    requires !m.Rerr?
  {
    if m.Rreq? then m.src else if m.Rrep? then m.dst else m.sender
  }

  function Number(m: Msg): nat
    requires !m.Rerr?
  {
    if m.Rreq? then m.srcSeqno else if m.Rrep? then m.dstSeqno else m.seqno
  }

  function Distance(m: Msg): nat
    requires !m.Rerr?
  {
    if m.Rreq? || m.Rrep? then m.hopCount else 0
  }

  predicate About(m: Msg, d: Addr, seqno: nat) {
    !m.Rerr? && Destination(m) == d && Number(m) == seqno
  }

  /** Node `i` heard of the path from this message. */
  predicate Gives(m: Msg, i: Addr, d: Addr, seqno: nat, p: Path) {
    && About(m, d, seqno) && p.hopcount == Distance(m) + 1
    && m.sender == p.nexthop && LabelFor(i, m) == p.lasthop
  }

  ghost predicate PathBacked(msgs: set<Msg>, i: Addr, d: Addr, seqno: nat, p: Path) {
    exists m :: m in msgs && Gives(m, i, d, seqno, p)
  }

  ghost predicate PathsBacked(s: System) {
    forall i, d, p :: i in s.nodes && d in s.nodes[i].table && p in s.nodes[i].table[d].paths ==>
      PathBacked(s.msgs, i, d, s.nodes[i].table[d].seqno, p)
  }

  /** Apart from timers, the path was there before. */
  ghost predicate WasThere(ps: seq<Path>, p: Path) {
    exists q :: q in ps && q.nexthop == p.nexthop && q.hopcount == p.hopcount && q.lasthop == p.lasthop
  }

  /** No path is new. */
  ghost predicate NothingNew(e: Entry, e': Entry) {
    && (e'.paths != [] ==> e'.seqno == e.seqno)
    && forall p :: p in e'.paths ==> WasThere(e.paths, p)
  }

  ghost predicate NothingNewIn(t: Table, t': Table) {
    forall d :: d in t' ==> NothingNew(Lookup(t, d), t'[d])
  }

  lemma NothingNewTwice(e: Entry, e': Entry, e'': Entry)
    requires NothingNew(e, e') && NothingNew(e', e'')
    ensures NothingNew(e, e'')
  {
    forall p | p in e''.paths ensures WasThere(e.paths, p) {
      var q :| q in e'.paths && q.nexthop == p.nexthop && q.hopcount == p.hopcount && q.lasthop == p.lasthop;
      assert WasThere(e.paths, q);
    }
    if e''.paths != [] { assert WasThere(e'.paths, e''.paths[0]); }
  }

  lemma SubsetIsNotNew(e: Entry, e': Entry)
    requires e'.paths != [] ==> e'.seqno == e.seqno
    requires forall p :: p in e'.paths ==> p in e.paths
    ensures NothingNew(e, e')
  {
  }

  lemma TouchedIsNotNew(e: Entry, e': Entry)
    requires Touched(e, e')
    ensures NothingNew(e, e')
  {
    forall p | p in e'.paths ensures WasThere(e.paths, p) {
      var k :| 0 <= k < |e'.paths| && e'.paths[k] == p;
      assert e.paths[k] in e.paths;
    }
  }

  // ---------- Hearing of a path ----------

  /** Every path was there before, or is the one heard of just now. */
  ghost predicate OnlyNew(e: Entry, e': Entry, seqno: nat, p: Path) {
    forall q :: q in e'.paths ==>
      || (e'.seqno == e.seqno && WasThere(e.paths, q))
      || (e'.seqno == seqno && q == p)
  }

  lemma HearRequestAddsOne(cfg: Config, e: Entry, seqno: nat, p: Path, forMe: bool)
    requires p.hopcount >= 1
    ensures OnlyNew(e, HearRequest(cfg, e, seqno, p, forMe).0, seqno, p)
  {
    var k := Between(e.paths, p.nexthop, p.lasthop);
    var e' := HearRequest(cfg, e, seqno, p, forMe).0;
    assert e' == Restart(e, seqno, p) || e' == e || e' == Insert(e, p)
        || (k < |e.paths| && e' == e.(paths := Extend(e.paths, k, p.expire)));
    if e.seqno < seqno { assert e'.paths == [p]; }
  }

  // ---------- What a handler does to the paths ----------

  /** The message, if any, of which the event tells the node. */
  function Told(ev: Event): set<Msg> {
    if ev.Deliver? then {ev.m} else {}
  }

  ghost predicate Explains(i: Addr, d: Addr, was: Entry, e: Entry, told: set<Msg>, p: Path) {
    (e.seqno == was.seqno && WasThere(was.paths, p)) || PathBacked(told, i, d, e.seqno, p)
  }

  ghost predicate TableExplained(i: Addr, t: Table, t': Table, told: set<Msg>) {
    forall d, p :: d in t' && p in t'[d].paths ==> Explains(i, d, Lookup(t, d), t'[d], told, p)
  }

  lemma NothingNewIsExplained(i: Addr, t: Table, t': Table, told: set<Msg>)
    requires NothingNewIn(t, t')
    ensures TableExplained(i, t, t', told)
  {
    forall d, p | d in t' && p in t'[d].paths ensures Explains(i, d, Lookup(t, d), t'[d], told, p) {
      assert NothingNew(Lookup(t, d), t'[d]);
    }
  }

  /** One entry heard of a path, and afterwards nothing new came. */
  lemma HeardIsExplained(i: Addr, t: Table, d: Addr, e: Entry, t': Table, m: Msg, seqno: nat, p: Path)
    requires OnlyNew(Lookup(t, d), e, seqno, p) && Gives(m, i, d, seqno, p)
    requires NothingNewIn(t[d := e], t')
    ensures TableExplained(i, t, t', {m})
  {
    forall a, q | a in t' && q in t'[a].paths ensures Explains(i, a, Lookup(t, a), t'[a], {m}, q) {
      var mid := Lookup(t[d := e], a);
      assert NothingNew(mid, t'[a]);
      var q0 :| q0 in mid.paths && q0.nexthop == q.nexthop && q0.hopcount == q.hopcount && q0.lasthop == q.lasthop;
      if a == d {
        if e.seqno == Lookup(t, d).seqno && WasThere(Lookup(t, d).paths, q0) {
          assert WasThere(Lookup(t, d).paths, q);
        } else {
          assert Gives(m, i, d, e.seqno, q);
        }
      }
    }
  }

  lemma SelfTouched(t: Table)
    ensures TouchedTable(t, t) && NothingNewIn(t, t)
  {
  }

  lemma SoftResetIsNotNew(t: Table, d: Addr, e: Entry)
    ensures NothingNewIn(t[d := e], t[d := e]) && TouchedTable(t[d := e], t[d := SoftReset(e)])
  {
    SelfTouched(t[d := e]);
  }

  lemma TouchedTableTwice(t: Table, t': Table, t'': Table)
    requires TouchedTable(t, t') && TouchedTable(t', t'')
    ensures NothingNewIn(t, t'')
  {
    forall d | d in t'' ensures NothingNew(Lookup(t, d), t''[d]) {
      TouchedIsNotNew(t[d], t'[d]);
      TouchedIsNotNew(t'[d], t''[d]);
      NothingNewTwice(t[d], t'[d], t''[d]);
    }
  }

  /** What follows once the reverse route is on file brings no path. */
  lemma AfterRequestIsNotNew(cfg: Config, me: Addr, n: Node, m: Msg, e: Entry, verdict: Verdict, now: real)
    requires m.Rreq? && MsgOk(m) && NodeOk(cfg, n) && m.src != me
    requires LegalEntry(cfg, m.src, Lookup(n.table, m.src), e, AdvertsOf(m))
    requires verdict != Ignored ==> e.seqno == m.srcSeqno && e.flag == Up
    ensures NothingNewIn(n.table[m.src := e], AfterRequest(me, n, m, e, verdict, now).node.table)
  {
    SoftResetIsNotNew(n.table, m.src, e);
    if verdict != Ignored {
      var known := (m.src, m.bcastId) in n.ids;
      var ids := if known then n.ids else n.ids[(m.src, m.bcastId) := false];
      var n' := n.(ids := ids, table := n.table[m.src := SoftReset(e)]);
      LearnIsLegal(cfg, n.table, m.src, e, AdvertsOf(m));
      AnswerIsLegal(cfg, me, n', m, verdict == Stored, known, now);
      TouchedTableTwice(n.table[m.src := e], n'.table, AnswerRequest(me, n', m, verdict == Stored, known, now).node.table);
    }
  }

  lemma RequestExplained(cfg: Config, me: Addr, n: Node, m: Msg, now: real)
    requires m.Rreq? && MsgOk(m) && NodeOk(cfg, n) && m.src != me
    ensures TableExplained(me, n.table, RecvRequest(cfg, me, n, m, now).node.table, {m})
  {
    var e0, p := Lookup(n.table, m.src), RequestPath(me, m, now);
    var (e, verdict) := HearRequest(cfg, e0, m.srcSeqno, p, m.dst == me);
    HearRequestAddsOne(cfg, e0, m.srcSeqno, p, m.dst == me);
    HearRequestIsLegal(cfg, m.src, e0, m.srcSeqno, p, m.dst == me);
    AfterRequestIsNotNew(cfg, me, n, m, e, verdict, now);
    HeardIsExplained(me, n.table, m.src, e, AfterRequest(me, n, m, e, verdict, now).node.table, m, m.srcSeqno, p);
  }

  lemma AfterReplyIsNotNew(cfg: Config, me: Addr, n: Node, m: Msg, e: Entry, verdict: Verdict, now: real)
    requires m.Rrep? && MsgOk(m) && NodeOk(cfg, n) && m.dst != me
    requires LegalEntry(cfg, m.dst, Lookup(n.table, m.dst), e, AdvertsOf(m))
    requires verdict != Ignored ==> e.seqno == m.dstSeqno && e.flag == Up
    ensures NothingNewIn(n.table[m.dst := e], AfterReply(me, n, m, e, verdict, now).node.table)
  {
    SoftResetIsNotNew(n.table, m.dst, e);
    if verdict != Ignored {
      var n' := n.(table := n.table[m.dst := SoftReset(e)]);
      LearnIsLegal(cfg, n.table, m.dst, e, AdvertsOf(m));
      RelayTouches(cfg, me, n', m, now);
      SelfTouched(n'.table);
      TouchedTableTwice(n.table[m.dst := e], n'.table, AfterReply(me, n, m, e, verdict, now).node.table);
    }
  }

  /** Also for the reply that a hello stands for: `heard` is the message that gives the path. */
  lemma ReplyExplained(cfg: Config, me: Addr, n: Node, m: Msg, now: real, heard: Msg)
    requires m.Rrep? && MsgOk(m) && NodeOk(cfg, n)
    requires Gives(heard, me, m.dst, m.dstSeqno, ReplyPath(m, now))
    ensures TableExplained(me, n.table, RecvReply(cfg, me, n, m, now).node.table, {heard})
  {
    if m.dst == me {
      SelfTouched(n.table);
      NothingNewIsExplained(me, n.table, n.table, {heard});
    } else {
      var e0, p := Lookup(n.table, m.dst), ReplyPath(m, now);
      var (e, verdict) := HearReply(cfg, e0, m.dstSeqno, p);
      HearReplyIsLegal(cfg, m.dst, e0, m.dstSeqno, p);
      AfterReplyIsNotNew(cfg, me, n, m, e, verdict, now);
      HeardIsExplained(me, n.table, m.dst, e, AfterReply(me, n, m, e, verdict, now).node.table, heard, m.dstSeqno, p);
    }
  }

  lemma ErrorTableIsNotNew(t: Table, m: Msg)
    requires m.Rerr?
    ensures NothingNewIn(t, ErrorTable(t, m))
  {
    forall d | d in t ensures NothingNew(t[d], ErrorTable(t, m)[d]) {
      SubsetIsNotNew(t[d], ErrorTable(t, m)[d]);
    }
  }

  lemma BrokenTableIsNotNew(t: Table, nbr: Addr)
    ensures NothingNewIn(t, BrokenTable(t, nbr))
  {
    forall d | d in t ensures NothingNew(t[d], BrokenTable(t, nbr)[d]) {
    }
  }

  lemma PurgedTableIsNotNew(t: Table, now: real)
    ensures NothingNewIn(t, PurgedTable(t, now))
  {
    forall d | d in t ensures NothingNew(t[d], PurgedTable(t, now)[d]) {
    }
  }

  lemma ResolveIsNotNew(cfg: Config, me: Addr, n: Node, dst: Addr, mine: bool, early: bool, now: real)
    requires NodeOk(cfg, n)
    ensures NothingNewIn(n.table, RtResolve(me, n, dst, mine, early, now).node.table)
  {
    var e := Lookup(n.table, dst);
    var t' := RtResolve(me, n, dst, mine, early, now).node.table;
    if e.flag == Up && e.paths != [] { TouchedIsNotNew(e, t'[dst]); } else { SubsetIsNotNew(e, t'[dst]); }
    assert t' == n.table[dst := t'[dst]];
  }

  lemma DiscoverIsNotNew(n: Node, dst: Addr, early: bool, me: Addr)
    requires dst in n.table
    ensures NothingNewIn(n.table, SendRequest(me, n, dst, early).node.table)
  {
    SelfTouched(n.table);
    SubsetIsNotNew(n.table[dst], SendRequest(me, n, dst, early).node.table[dst]);
  }

  lemma QuietIsNotNew(cfg: Config, n: Node, ev: Event)
    requires NodeOk(cfg, n) && (ev.Deliver? ==> ev.m.Rerr?)
    ensures NothingNewIn(n.table, React(cfg, n, ev).node.table)
  {
    SelfTouched(n.table);
    match ev
    case Deliver(_, m, _) => ErrorTableIsNotNew(n.table, m);
    case Resolve(me, dst, mine, early, now) => ResolveIsNotNew(cfg, me, n, dst, mine, early, now);
    case Discover(me, dst, early) => if dst in n.table { DiscoverIsNotNew(n, dst, early, me); }
    case Purge(_, now) => PurgedTableIsNotNew(n.table, now);
    case LinkBreak(_, nbr) => BrokenTableIsNotNew(n.table, nbr);
    case SayHello(_) =>
    case IdPurge(_, _) =>
  }

  /** Whatever happens to a node, each of its paths was there or comes from the message just
      heard. */
  lemma ReactExplained(cfg: Config, n: Node, ev: Event)
    requires NodeOk(cfg, n) && (ev.Deliver? ==> MsgOk(ev.m))
    ensures TableExplained(ev.at, n.table, React(cfg, n, ev).node.table, Told(ev))
  {
    if ev.Deliver? && ev.m.Rreq? {
      if ev.m.src != ev.at {
        RequestExplained(cfg, ev.at, n, ev.m, ev.now);
      } else {
        SelfTouched(n.table);
        NothingNewIsExplained(ev.at, n.table, n.table, Told(ev));
      }
    } else if ev.Deliver? && ev.m.Rrep? {
      ReplyExplained(cfg, ev.at, n, ev.m, ev.now, ev.m);
    } else if ev.Deliver? && ev.m.Hello? {
      var r := Rrep(ev.m.sender, 0, ev.at, ev.at, ev.m.sender, ev.m.seqno, 0, ev.at, 0, HELLO_LIFETIME);
      ReplyExplained(cfg, ev.at, n.(neighbors := n.neighbors + {ev.m.sender}), r, ev.now, ev.m);
    } else {
      QuietIsNotNew(cfg, n, ev);
      NothingNewIsExplained(ev.at, n.table, React(cfg, n, ev).node.table, Told(ev));
    }
  }

  // ---------- What a message passes on ----------

  /** What a node says about others is one of its paths, with its last hop, and no shorter. */
  ghost predicate FromPath(me: Addr, t: Table, m: Msg) {
    (m.Rreq? || m.Rrep?) && Destination(m) != me ==>
      exists p :: && p in Lookup(t, Destination(m)).paths
                  && p.lasthop == m.firstHop && p.hopcount <= Distance(m)
                  && Lookup(t, Destination(m)).seqno == Number(m)
  }

  ghost predicate SentFromPaths(me: Addr, t: Table, sent: set<Msg>) {
    forall m :: m in sent ==> FromPath(me, t, m)
  }

  lemma AdvertisedCovers(cfg: Config, t: Table, d: Addr, me: Addr, m: Msg)
    requires TableOk(cfg, t) && d in t && t[d].flag == Up && (m.Rreq? || m.Rrep?) && Destination(m) == d
    requires t[d].advertised.Hops? && Distance(m) == AdvertisedHops(t[d]) && m.firstHop == FirstLasthop(t[d])
    requires Number(m) == t[d].seqno
    ensures FromPath(me, t, m)
  {
    assert t[d].paths[0] in t[d].paths;
  }

  lemma AnswerFromPaths(cfg: Config, me: Addr, n: Node, m: Msg, stored: bool, known: bool, now: real)
    requires m.Rreq? && MsgOk(m) && NodeOk(cfg, n) && m.src != me && m.src in n.table
    requires n.table[m.src].flag == Up && n.table[m.src].seqno == m.srcSeqno
    requires var o := AnswerRequest(me, n, m, stored, known, now); TableOk(cfg, o.node.table)
    ensures var o := AnswerRequest(me, n, m, stored, known, now); SentFromPaths(me, o.node.table, o.sent)
  {
    var o := AnswerRequest(me, n, m, stored, known, now);
    AdvertiseUp(cfg, n.table[m.src]);
    if HasFreshRoute(n.table, m) { AdvertiseUp(cfg, n.table[m.dst]); }
    forall r | r in o.sent ensures FromPath(me, o.node.table, r) {
      if Destination(r) != me { AdvertisedCovers(cfg, o.node.table, Destination(r), me, r); }
    }
  }

  lemma LegalTableIsOk(cfg: Config, t: Table, t': Table, heard: set<Advert>)
    requires LegalTable(cfg, t, t', heard)
    ensures TableOk(cfg, t')
  {
    forall d | d in t' ensures EntryOk(cfg, t'[d]) {
      assert LegalEntry(cfg, d, Lookup(t, d), t'[d], heard);
    }
  }

  lemma RequestFromPaths(cfg: Config, me: Addr, n: Node, m: Msg, now: real)
    requires m.Rreq? && MsgOk(m) && NodeOk(cfg, n) && m.src != me
    ensures var o := RecvRequest(cfg, me, n, m, now); SentFromPaths(me, o.node.table, o.sent)
  {
    var e0, p := Lookup(n.table, m.src), RequestPath(me, m, now);
    var (e, verdict) := HearRequest(cfg, e0, m.srcSeqno, p, m.dst == me);
    HearRequestIsLegal(cfg, m.src, e0, m.srcSeqno, p, m.dst == me);
    if verdict != Ignored {
      var known := (m.src, m.bcastId) in n.ids;
      var ids := if known then n.ids else n.ids[(m.src, m.bcastId) := false];
      LearnIsLegal(cfg, n.table, m.src, e, AdvertsOf(m));
      RequestIsLegal(cfg, me, n, m, now);
      LegalTableIsOk(cfg, n.table, RecvRequest(cfg, me, n, m, now).node.table, AdvertsOf(m));
      AnswerFromPaths(cfg, me, n.(ids := ids, table := n.table[m.src := SoftReset(e)]), m, verdict == Stored, known, now);
    }
  }

  /** Likewise for a relayed reply. */
  lemma RelayFromPaths(cfg: Config, me: Addr, n: Node, m: Msg, now: real)
    requires m.Rrep? && MsgOk(m) && NodeOk(cfg, n) && m.dst != me && m.dst in n.table
    requires n.table[m.dst].flag == Up && n.table[m.dst].seqno == m.dstSeqno
    requires TableOk(cfg, RelayReply(me, n, m, now).node.table)
    ensures var o := RelayReply(me, n, m, now); SentFromPaths(me, o.node.table, o.sent)
  {
    var o := RelayReply(me, n, m, now);
    AdvertiseUp(cfg, n.table[m.dst]);
    forall r | r in o.sent ensures FromPath(me, o.node.table, r) {
      AdvertisedCovers(cfg, o.node.table, m.dst, me, r);
    }
  }

  lemma ReplyFromPaths(cfg: Config, me: Addr, n: Node, m: Msg, now: real)
    requires m.Rrep? && MsgOk(m) && NodeOk(cfg, n)
    ensures var o := RecvReply(cfg, me, n, m, now); SentFromPaths(me, o.node.table, o.sent)
  {
    if m.dst != me {
      var e0, p := Lookup(n.table, m.dst), ReplyPath(m, now);
      var (e, verdict) := HearReply(cfg, e0, m.dstSeqno, p);
      HearReplyIsLegal(cfg, m.dst, e0, m.dstSeqno, p);
      if verdict != Ignored && m.ipDst != me {
        LearnIsLegal(cfg, n.table, m.dst, e, AdvertsOf(m));
        ReplyIsLegal(cfg, me, n, m, now);
        LegalTableIsOk(cfg, n.table, RecvReply(cfg, me, n, m, now).node.table, AdvertsOf(m));
        RelayFromPaths(cfg, me, n.(table := n.table[m.dst := SoftReset(e)]), m, now);
      }
    }
  }

  lemma ReactFromPaths(cfg: Config, n: Node, ev: Event)
    requires NodeOk(cfg, n) && (ev.Deliver? ==> MsgOk(ev.m))
    ensures SentFromPaths(ev.at, React(cfg, n, ev).node.table, React(cfg, n, ev).sent)
  {
    if ev.Deliver? && ev.m.Rreq? {
      if ev.m.src != ev.at { RequestFromPaths(cfg, ev.at, n, ev.m, ev.now); }
    } else if ev.Deliver? && ev.m.Rrep? {
      ReplyFromPaths(cfg, ev.at, n, ev.m, ev.now);
    } else if ev.Deliver? && ev.m.Hello? {
      var r := Rrep(ev.m.sender, 0, ev.at, ev.at, ev.m.sender, ev.m.seqno, 0, ev.at, 0, HELLO_LIFETIME);
      ReplyFromPaths(cfg, ev.at, n.(neighbors := n.neighbors + {ev.m.sender}), r, ev.now);
    }
  }

  // ---------- Trails ----------

  /** The sender of `m` passed on what `from` had told it. */
  predicate Relayed(m: Msg, from: Msg) {
    && (m.Rreq? || m.Rrep?) && !from.Rerr?
    && Destination(from) == Destination(m) && Number(from) == Number(m) && Distance(from) < Distance(m)
    && m.firstHop == LabelFor(m.sender, from)
  }

  ghost predicate MsgBacked(msgs: set<Msg>, m: Msg) {
    (m.Rreq? || m.Rrep?) && Destination(m) != m.sender ==> exists from :: from in msgs && Relayed(m, from)
  }

  ghost predicate MsgsBacked(s: System) {
    forall m :: m in s.msgs ==> MsgBacked(s.msgs, m)
  }

  lemma PathsStayBacked(cfg: Config, s: System, at: Addr, o: Outcome, told: set<Msg>)
    requires PathsBacked(s) && at in s.nodes && told <= s.msgs
    requires TableExplained(at, s.nodes[at].table, o.node.table, told)
    ensures PathsBacked(Apply(s, at, o))
  {
    var s' := Apply(s, at, o);
    forall i, d, p | i in s'.nodes && d in s'.nodes[i].table && p in s'.nodes[i].table[d].paths
      ensures PathBacked(s'.msgs, i, d, s'.nodes[i].table[d].seqno, p)
    {
      var e, was := s'.nodes[i].table[d], Lookup(s.nodes[i].table, d);
      if i == at { assert Explains(at, d, was, e, told, p); }
      if i == at && !PathBacked(told, at, d, e.seqno, p) {
        var q :| q in was.paths && q.nexthop == p.nexthop && q.hopcount == p.hopcount && q.lasthop == p.lasthop;
        assert PathBacked(s.msgs, i, d, e.seqno, q);
        var m :| m in s.msgs && Gives(m, i, d, e.seqno, q);
        assert Gives(m, i, d, e.seqno, p);
      } else {
        assert i != at ==> PathBacked(s.msgs, i, d, e.seqno, p);
      }
    }
  }

  lemma MsgsStayBacked(s: System, at: Addr, o: Outcome)
    requires MsgsBacked(s) && at in s.nodes && SentFromPaths(at, o.node.table, o.sent)
    requires PathsBacked(Apply(s, at, o)) && forall m :: m in o.sent ==> m.sender == at
    ensures MsgsBacked(Apply(s, at, o))
  {
    var s' := Apply(s, at, o);
    forall m | m in s'.msgs ensures MsgBacked(s'.msgs, m) {
      if m in s.msgs {
        assert MsgBacked(s.msgs, m);
      } else if (m.Rreq? || m.Rrep?) && Destination(m) != at {
        assert FromPath(at, o.node.table, m);
        var e := Lookup(o.node.table, Destination(m));
        var p :| p in e.paths && p.lasthop == m.firstHop && p.hopcount <= Distance(m) && e.seqno == Number(m);
        assert s'.nodes[at].table[Destination(m)] == e;
        assert PathBacked(s'.msgs, at, Destination(m), Number(m), p);
        var from :| from in s'.msgs && Gives(from, at, Destination(m), Number(m), p);
        assert Relayed(m, from);
      }
    }
  }

  lemma SentBySelf(cfg: Config, n: Node, ev: Event)
    ensures forall m :: m in React(cfg, n, ev).sent ==> m.sender == ev.at
  {
  }

  ghost predicate Backed(s: System) {
    PathsBacked(s) && MsgsBacked(s)
  }

  lemma StepKeepsBacked(cfg: Config, s: System, ev: Event)
    requires Inv(cfg, s) && Backed(s)
    ensures Backed(Step(cfg, s, ev))
  {
    if Enabled(s, ev) {
      var n := s.nodes[ev.at];
      ReactExplained(cfg, n, ev);
      ReactFromPaths(cfg, n, ev);
      SentBySelf(cfg, n, ev);
      PathsStayBacked(cfg, s, ev.at, React(cfg, n, ev), Told(ev));
      MsgsStayBacked(s, ev.at, React(cfg, n, ev));
    }
  }

  lemma {:induction false} RunKeepsBacked(cfg: Config, addrs: set<Addr>, evs: seq<Event>)
    ensures Backed(Run(cfg, addrs, evs))
  {
    if evs != [] {
      RunKeepsInv(cfg, addrs, evs[..|evs| - 1]);
      RunKeepsBacked(cfg, addrs, evs[..|evs| - 1]);
      StepKeepsBacked(cfg, Run(cfg, addrs, evs[..|evs| - 1]), evs[|evs| - 1]);
    }
  }

  /** From a message back to what the destination said itself. */
  ghost predicate Trail(msgs: set<Msg>, trail: seq<Msg>) {
    && trail != []
    && (forall k :: 0 <= k < |trail| ==> trail[k] in msgs && !trail[k].Rerr?)
    && (forall k :: 0 <= k < |trail| - 1 ==>
          trail[k].sender != Destination(trail[k]) && Relayed(trail[k], trail[k + 1]))
    && var last := trail[|trail| - 1];
       last.sender == Destination(last) && Distance(last) == 0
  }

  /** The trail by which node `i` heard of the path. */
  ghost predicate Behind(msgs: set<Msg>, i: Addr, d: Addr, seqno: nat, p: Path, trail: seq<Msg>) {
    Trail(msgs, trail) && Gives(trail[0], i, d, seqno, p)
  }

  /** The nodes between. */
  function Relays(trail: seq<Msg>): set<Addr> {
    set k | 0 <= k < |trail| - 1 :: trail[k].sender
  }

  /** A node that speaks of itself is the destination, at distance 0. */
  lemma OwnDistance(cfg: Config, s: System, m: Msg)
    requires Inv(cfg, s) && m in s.msgs && !m.Rerr?
    ensures m.sender == Destination(m) <==> Distance(m) == 0
  {
    var a := Advert(m.sender, Destination(m), Number(m), Distance(m));
    assert a in AdvertsOf(m);
    assert a in AllAdverts(s.msgs);
    assert Standing(s.nodes, a);
  }

  lemma {:induction false} TrailFrom(cfg: Config, s: System, m: Msg) returns (trail: seq<Msg>)
    requires Inv(cfg, s) && Backed(s) && m in s.msgs && !m.Rerr?
    ensures Trail(s.msgs, trail) && trail[0] == m
    decreases Distance(m)
  {
    OwnDistance(cfg, s, m);
    if m.sender == Destination(m) {
      trail := [m];
    } else {
      assert MsgBacked(s.msgs, m);
      var from :| from in s.msgs && Relayed(m, from);
      var rest := TrailFrom(cfg, s, from);
      trail := [m] + rest;
    }
  }

  /** In every run, every stored path has a trail: messages about its destination under its
      number, from its next hop back to the destination. */
  lemma EveryPathHasTrail(cfg: Config, addrs: set<Addr>, evs: seq<Event>, i: Addr, d: Addr, p: Path)
    returns (trail: seq<Msg>)
    requires var s := Run(cfg, addrs, evs); i in s.nodes && d in s.nodes[i].table && p in s.nodes[i].table[d].paths
    ensures var s := Run(cfg, addrs, evs); Behind(s.msgs, i, d, s.nodes[i].table[d].seqno, p, trail)
  {
    var s := Run(cfg, addrs, evs);
    RunKeepsInv(cfg, addrs, evs);
    RunKeepsBacked(cfg, addrs, evs);
    assert PathBacked(s.msgs, i, d, s.nodes[i].table[d].seqno, p);
    var m :| m in s.msgs && Gives(m, i, d, s.nodes[i].table[d].seqno, p);
    trail := TrailFrom(cfg, s, m);
  }

  lemma {:induction false} TrailDescends(msgs: set<Msg>, trail: seq<Msg>, k: nat)
    requires Trail(msgs, trail) && k < |trail|
    ensures Destination(trail[k]) == Destination(trail[0]) && Number(trail[k]) == Number(trail[0])
    ensures Distance(trail[k]) <= Distance(trail[0])
  {
    if k > 0 {
      TrailDescends(msgs, trail, k - 1);
      assert Relayed(trail[k - 1], trail[k]);
    }
  }

  /** No reply is on the trail. */
  predicate ByRequests(trail: seq<Msg>) {
    forall k :: 0 <= k < |trail| ==> !trail[k].Rrep?
  }

  /** On a trail of requests every relay carries the same last hop: the relay next to the
      destination. */
  lemma {:induction false} OneLabel(msgs: set<Msg>, trail: seq<Msg>, k: nat)
    requires Trail(msgs, trail) && ByRequests(trail) && k < |trail| - 1
    ensures trail[k].Rreq? && trail[k].firstHop == trail[|trail| - 2].sender
    decreases |trail| - k
  {
    assert Relayed(trail[k], trail[k + 1]);
    if k + 1 < |trail| - 1 {
      OneLabel(msgs, trail, k + 1);
      assert Relayed(trail[k + 1], trail[k + 2]);
    }
  }

  /** So the last hop of the path is what it is called. */
  lemma LastHopIsLast(msgs: set<Msg>, i: Addr, d: Addr, seqno: nat, p: Path, trail: seq<Msg>)
    requires Behind(msgs, i, d, seqno, p, trail) && ByRequests(trail)
    ensures p.lasthop == if |trail| == 1 then i else trail[|trail| - 2].sender
  {
    if |trail| > 1 {
      OneLabel(msgs, trail, 0);
      assert Relayed(trail[0], trail[1]);
    }
  }

  /** The requests on a trail belong to the flood that brought its number. */
  lemma TrailInFlood(s: System, trail: seq<Msg>, b: Flood, m: Msg, k: nat)
    requires Numbered(s) && Trail(s.msgs, trail) && ByRequests(trail) && k < |trail| - 1
    requires m in s.msgs && InFlood(m, b) && About(trail[0], m.src, m.srcSeqno)
    ensures InFlood(trail[k], b)
  {
    TrailDescends(s.msgs, trail, k);
    OneLabel(s.msgs, trail, k);
  }

  /** Two trails of one flood with different last hops share no relay. */
  lemma TrailsAreDisjoint(s: System, b: Flood, m: Msg, i: Addr, p: Path, q: Path, t: seq<Msg>, u: seq<Msg>)
    requires FloodsOk(s, b) && m in s.msgs && InFlood(m, b) && p.lasthop != q.lasthop
    requires Behind(s.msgs, i, m.src, m.srcSeqno, p, t) && ByRequests(t)
    requires Behind(s.msgs, i, m.src, m.srcSeqno, q, u) && ByRequests(u)
    ensures Relays(t) !! Relays(u)
  {
    forall j, k | 0 <= j < |t| - 1 && 0 <= k < |u| - 1 ensures t[j].sender != u[k].sender {
      TrailInFlood(s, t, b, m, j);
      TrailInFlood(s, u, b, m, k);
      OneLabel(s.msgs, t, j);
      OneLabel(s.msgs, u, k);
      LastHopIsLast(s.msgs, i, m.src, m.srcSeqno, p, t);
      LastHopIsLast(s.msgs, i, m.src, m.srcSeqno, q, u);
    }
  }

  /** A trail does not come back to the node that stores its path. */
  lemma TrailAvoidsSelf(cfg: Config, s: System, i: Addr, d: Addr, p: Path, trail: seq<Msg>)
    requires i in s.nodes && d in s.nodes[i].table && p in s.nodes[i].table[d].paths
    requires EntryOk(cfg, s.nodes[i].table[d]) && AdvertsStand(s.nodes, AllAdverts(s.msgs))
    requires Behind(s.msgs, i, d, s.nodes[i].table[d].seqno, p, trail)
    ensures i !in Relays(trail)
  {
    var e := s.nodes[i].table[d];
    forall k | 0 <= k < |trail| - 1 ensures trail[k].sender != i {
      TrailDescends(s.msgs, trail, k);
      var a := Advert(trail[k].sender, d, e.seqno, Distance(trail[k]));
      assert a in AdvertsOf(trail[k]);
      assert a in AllAdverts(s.msgs);
      assert Standing(s.nodes, a);
    }
  }

  /** In every run in which nobody forgets the flood: two different paths that a node stores
      under the number of the flood, and that came by requests, have no relay in common, and
      neither comes back to the node. */
  lemma PathsAreNodeDisjoint(cfg: Config, addrs: set<Addr>, evs: seq<Event>, b: Flood, m: Msg, i: Addr,
                             p: Path, q: Path, t: seq<Msg>, u: seq<Msg>)
    requires Remembered(evs, b) && m in Run(cfg, addrs, evs).msgs && InFlood(m, b)
    requires
      var s := Run(cfg, addrs, evs);
      && i in s.nodes && m.src in s.nodes[i].table && s.nodes[i].table[m.src].seqno == m.srcSeqno
      && p in s.nodes[i].table[m.src].paths && q in s.nodes[i].table[m.src].paths && p != q
      && Behind(s.msgs, i, m.src, m.srcSeqno, p, t) && ByRequests(t)
      && Behind(s.msgs, i, m.src, m.srcSeqno, q, u) && ByRequests(u)
    ensures Relays(t) !! Relays(u) && i !in Relays(t) && i !in Relays(u)
  {
    var s := Run(cfg, addrs, evs);
    RunKeepsFloods(cfg, addrs, evs, b);
    RunKeepsInv(cfg, addrs, evs);
    PathSets(cfg, addrs, evs, i, m.src);
    TrailsAreDisjoint(s, b, m, i, p, q, t, u);
    NoPathThroughSelf(cfg, s, i, m.src);
    TrailAvoidsSelf(cfg, s, i, m.src, p, t);
    TrailAvoidsSelf(cfg, s, i, m.src, q, u);
  }
}
