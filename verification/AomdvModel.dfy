/**
 The AOMDV multipath routing agent as pure step functions, one per handler of
 `aomdv/aomdv.cc` in its shipped configuration: node-disjoint paths, no link-layer
 detection and hence no local repair.

 The network is as in `AodvModel`: every packet ever sent may be delivered any number of
 times, to any node, at any later moment, or never.
 */
module AomdvModel {
  import opened Basics

  type Addr = nat

  const INFINITY2: nat := 0xff
  const NETWORK_DIAMETER: nat := 30
  const TTL_START: nat := 5
  const TTL_THRESHOLD: nat := 7
  const TTL_INCREMENT: nat := 2
  const RREQ_RETRIES: nat := 3
  const REV_ROUTE_LIFE: real := 6.0
  const ACTIVE_ROUTE_TIMEOUT: real := 10.0
  const MY_ROUTE_TIMEOUT: real := 10.0
  const HELLO_LIFETIME: real := 4.0

  /** `aomdv_max_paths_` and `aomdv_prim_alt_path_len_diff_`. */
  datatype Config = Config(maxPaths: int, lengthDiff: int)

  // ---------- Path lists ----------

  datatype Path = Path(nexthop: Addr, hopcount: nat, expire: real, lasthop: Addr)

  /** The first path through `nexthop`, or the length of the list. */
  function Through(ps: seq<Path>, nexthop: Addr): (k: nat)
    ensures k <= |ps|
    ensures k < |ps| ==> ps[k].nexthop == nexthop
    ensures forall j :: 0 <= j < k ==> ps[j].nexthop != nexthop
  {
    if ps == [] || ps[0].nexthop == nexthop then 0 else 1 + Through(ps[1..], nexthop)
  }

  /** The first path with both ends, or the length of the list. */
  function Between(ps: seq<Path>, nexthop: Addr, lasthop: Addr): (k: nat)
    ensures k <= |ps|
    ensures k < |ps| ==> ps[k].nexthop == nexthop && ps[k].lasthop == lasthop
    ensures forall j :: 0 <= j < k ==> ps[j].nexthop != nexthop || ps[j].lasthop != lasthop
  {
    if ps == [] || (ps[0].nexthop == nexthop && ps[0].lasthop == lasthop) then 0
    else 1 + Between(ps[1..], nexthop, lasthop)
  }

  /** The first path whose last hop is `lasthop`, or the length of the list. */
  function EndingAt(ps: seq<Path>, lasthop: Addr): (k: nat)
    ensures k <= |ps|
    ensures k < |ps| ==> ps[k].lasthop == lasthop
    ensures forall j :: 0 <= j < k ==> ps[j].lasthop != lasthop
  {
    if ps == [] || ps[0].lasthop == lasthop then 0 else 1 + EndingAt(ps[1..], lasthop)
  }

  /** No path shares its first or its last hop with the given one. */
  predicate NewDisjoint(ps: seq<Path>, nexthop: Addr, lasthop: Addr) {
    forall k :: 0 <= k < |ps| ==> ps[k].nexthop != nexthop && ps[k].lasthop != lasthop
  }

  function DropAt(ps: seq<Path>, k: nat): seq<Path> {
    if k < |ps| then ps[..k] + ps[k + 1..] else ps
  }

  function Extend(ps: seq<Path>, k: nat, expire: real): seq<Path>
    requires k < |ps|
  {
    ps[k := ps[k].(expire := if ps[k].expire < expire then expire else ps[k].expire)]
  }

  /** Without the paths that expired before `now`. */
  function Purged(ps: seq<Path>, now: real): (r: seq<Path>)
    ensures forall k :: 0 <= k < |r| ==> r[k] in ps && r[k].expire >= now
  {
    if ps == [] then []
    else if ps[0].expire < now then Purged(ps[1..], now)
    else [ps[0]] + Purged(ps[1..], now)
  }

  function Longest(ps: seq<Path>): (h: nat)
    ensures forall k :: 0 <= k < |ps| ==> ps[k].hopcount <= h
    ensures h > 0 ==> exists p :: p in ps && p.hopcount == h
  {
    if ps == [] then 0
    else
      var h := Longest(ps[1..]);
      if ps[0].hopcount > h then ps[0].hopcount else h
  }

  /** `path_get_max_hopcount`: `INFINITY2` stands for "no path". */
  function MaxHops(ps: seq<Path>): nat {
    if Longest(ps) == 0 then INFINITY2 else Longest(ps)
  }

  /** `path_get_min_hopcount`: never above `INFINITY2`. */
  function MinHops(ps: seq<Path>): (h: nat)
    ensures h <= INFINITY2
    ensures forall k :: 0 <= k < |ps| ==> h <= ps[k].hopcount
    ensures h < INFINITY2 ==> exists p :: p in ps && p.hopcount == h
  {
    if ps == [] then INFINITY2
    else
      var h := MinHops(ps[1..]);
      if ps[0].hopcount < h then ps[0].hopcount else h
  }

  // ---------- Entries ----------

  datatype Flag = Down | Up

  /** The advertised hop count; `NotYet` is the value `INFINITY`, above every hop count. */
  datatype Advertised = NotYet | Hops(h: nat)

  datatype Entry = Entry(
    seqno: nat,
    advertised: Advertised,
    paths: seq<Path>,
    highestHeard: nat,
    error: bool,
    flag: Flag,
    lastHopCount: nat,
    lastTtl: nat,
    reqCnt: nat)

  type Table = map<Addr, Entry>

  const FRESH: Entry := Entry(0, NotYet, [], 0, false, Down, INFINITY2, 0, 0)

  function Lookup(table: Table, d: Addr): Entry {
    if d in table then table[d] else FRESH
  }

  predicate Above(a: Advertised, hops: nat) {
    a.Hops? ==> a.h > hops
  }

  function RtDown(e: Entry): Entry {
    if e.flag == Down then e else e.(flag := Down, advertised := NotYet, paths := [])
  }

  /** Fix the advertised hop count, once per sequence number. */
  function Advertise(e: Entry): Entry {
    if e.advertised.NotYet? then e.(advertised := Hops(MaxHops(e.paths))) else e
  }

  function Insert(e: Entry, p: Path): Entry {
    var ps := e.paths + [p];
    e.(paths := ps, lastHopCount := MaxHops(ps))
  }

  /** A fresher number: forget the old paths and start with the one just heard of. */
  function Restart(e: Entry, seqno: nat, p: Path): Entry {
    Insert(e.(seqno := seqno, advertised := NotYet, paths := [], flag := Up), p)
  }

  predicate Room(cfg: Config, ps: seq<Path>, hopcount: nat) {
    |ps| < cfg.maxPaths && hopcount - MinHops(ps) <= cfg.lengthDiff
  }

  function SoftReset(e: Entry): Entry {
    e.(lastTtl := 0, reqCnt := 0)
  }

  /** What hearing of a path did: the packet is dropped, or goes on, with or without a
      stored path to its sender. */
  datatype Verdict = Ignored | NoPath | Stored

  /** The reverse route after a request that reached this node over `p`. */
  function HearRequest(cfg: Config, e: Entry, seqno: nat, p: Path, forMe: bool): (Entry, Verdict)
    requires p.hopcount >= 1
  {
    if e.seqno < seqno then (Restart(e, seqno, p), Stored)
    else if e.seqno == seqno && Above(e.advertised, p.hopcount - 1) then
      var k := Between(e.paths, p.nexthop, p.lasthop);
      if k < |e.paths| then (e.(paths := Extend(e.paths, k, p.expire)), Stored)
      else if NewDisjoint(e.paths, p.nexthop, p.lasthop) then
        var e' := if Room(cfg, e.paths, p.hopcount) then Insert(e, p) else e;
        if p.hopcount - MinHops(e'.paths) > cfg.lengthDiff then (e', Ignored)
        else (e', if Room(cfg, e.paths, p.hopcount) then Stored else NoPath)
      else
        var j := EndingAt(e.paths, p.lasthop);
        if forMe && (j == |e.paths| || p.hopcount > e.paths[j].hopcount) then (e, Ignored)
        else (e, NoPath)
    else (e, Ignored)
  }

  /** The forward route after a reply that reached this node over `p`. */
  function HearReply(cfg: Config, e: Entry, seqno: nat, p: Path): (Entry, Verdict)
    requires p.hopcount >= 1
  {
    if e.seqno < seqno then (Restart(e, seqno, p), Stored)
    else if e.seqno == seqno && Above(e.advertised, p.hopcount - 1) then
      var k := Between(e.paths, p.nexthop, p.lasthop);
      if k < |e.paths| then (e.(paths := Extend(e.paths, k, p.expire)), Stored)
      else if NewDisjoint(e.paths, p.nexthop, p.lasthop) && Room(cfg, e.paths, p.hopcount) then (Insert(e, p), Stored)
      else (e, Ignored)
    else (e, Ignored)
  }

  predicate Loses(e: Entry, nbr: Addr) {
    e.flag == Up && Through(e.paths, nbr) < |e.paths|
  }

  /** One unreachable destination of a route error from `nbr`. */
  function ErrorEntry(e: Entry, nbr: Addr, seqno: nat): Entry {
    if Loses(e, nbr) && e.seqno <= seqno then
      var e' := e.(paths := DropAt(e.paths, Through(e.paths, nbr)), highestHeard := Max(e.highestHeard, seqno));
      if e'.paths == [] then RtDown(e'.(seqno := e'.highestHeard)).(error := false) else e'
    else e
  }

  /** The error is passed on: the last path is gone, and this node advertised the route. */
  predicate ErrorSpreads(e: Entry, nbr: Addr, seqno: nat) {
    Loses(e, nbr) && e.seqno <= seqno && |e.paths| == 1 && e.error
  }

  function RaisedSeqno(e: Entry): nat {
    Max(e.seqno + 1, e.highestHeard)
  }

  /** The link to `nbr` broke. */
  function BrokenEntry(e: Entry, nbr: Addr): Entry {
    if Loses(e, nbr) then
      var e' := e.(paths := DropAt(e.paths, Through(e.paths, nbr)));
      if e'.paths == [] then RtDown(e'.(seqno := RaisedSeqno(e), error := false)) else e'
    else e
  }

  predicate BreakSpreads(e: Entry, nbr: Addr) {
    Loses(e, nbr) && |e.paths| == 1 && e.error
  }

  /** Expiry.  The expiry time of an entry as a whole is always 0 in the source. */
  function PurgedEntry(e: Entry, now: real): Entry {
    if e.flag == Up && 0.0 < now then
      var e' := e.(paths := Purged(e.paths, now));
      if e'.paths == [] then
        var s := RaisedSeqno(e);
        RtDown(e'.(seqno := if s % 2 == 0 then s + 1 else s))
      else e'
    else e
  }

  /** A data packet goes out over the first path; `mine` says it originates here. */
  function UsedEntry(e: Entry, now: real, mine: bool): Entry
    requires e.paths != []
  {
    e.(paths := e.paths[0 := e.paths[0].(expire := now + ACTIVE_ROUTE_TIMEOUT)], error := e.error || !mine)
  }

  // ---------- Nodes and packets ----------

  /** `ids` maps the requests seen recently to "a reply was sent for it". */
  datatype Node = Node(
    seqno: nat,
    bid: nat,
    table: Table,
    ids: map<(Addr, nat), bool>,
    neighbors: set<Addr>)

  const INITIAL_NODE: Node := Node(2, 1, map[], map[], {})

  datatype Msg =
    | Rreq(sender: Addr, ttl: int, src: Addr, srcSeqno: nat, hopCount: nat, firstHop: Addr,
           dst: Addr, dstSeqno: nat, bcastId: nat)
    | Rrep(sender: Addr, ttl: int, ipDst: Addr, linkDst: Addr, dst: Addr, dstSeqno: nat, hopCount: nat,
           firstHop: Addr, bcastId: nat, lifetime: real)
    | Rerr(sender: Addr, unreachable: map<Addr, nat>)
    | Hello(sender: Addr, seqno: nat)

  datatype Outcome = Outcome(node: Node, sent: set<Msg>)

  // ---------- Route requests ----------

  function RequestTtl(last: nat): nat {
    if last == 0 then TTL_START
    else if last < TTL_THRESHOLD then last + TTL_INCREMENT
    else NETWORK_DIAMETER
  }

  /** Time to live of the next request for an entry, and the entry after choosing it. */
  function NextTtl(e: Entry): (Entry, nat) {
    var last := Max(e.lastTtl, e.lastHopCount);
    var ttl := RequestTtl(last);
    (e.(lastTtl := ttl, reqCnt := if last == 0 || last < TTL_THRESHOLD then e.reqCnt else e.reqCnt + 1), ttl)
  }

  function SendRequest(me: Addr, n: Node, dst: Addr, early: bool): Outcome
    requires dst in n.table
  {
    var e := n.table[dst];
    if e.flag == Up || early then Outcome(n, {})
    else if e.reqCnt > RREQ_RETRIES then Outcome(n.(table := n.table[dst := e.(reqCnt := 0)]), {})
    else
      var (e', ttl) := NextTtl(e);
      Outcome(n.(table := n.table[dst := e'], bid := n.bid + 1, seqno := n.seqno + 2),
              {Rreq(me, ttl, me, n.seqno + 2, 0, 0, dst, e.seqno, n.bid)})
  }

  /** The path over which a request came: its sender is the next hop, and a neighbour of
      the originator is itself the other end. */
  function RequestPath(me: Addr, m: Msg, now: real): Path
    requires m.Rreq?
  {
    Path(m.sender, m.hopCount + 1, now + REV_ROUTE_LIFE, if m.hopCount == 0 then me else m.firstHop)
  }

  function AnswerSeqno(own: nat, asked: nat): nat {
    var s := if own < asked then asked + 1 else own;
    if s % 2 == 1 then s + 1 else s
  }

  predicate HasFreshRoute(table: Table, m: Msg)
    requires m.Rreq?
  {
    m.dst in table && table[m.dst].flag == Up && table[m.dst].seqno >= m.dstSeqno
  }

  function FirstLasthop(e: Entry): Addr {
    if e.paths == [] then 0 else e.paths[0].lasthop
  }

  function FirstExpire(e: Entry): real {
    if e.paths == [] then 0.0 else e.paths[0].expire
  }

  function AdvertisedHops(e: Entry): nat {
    if e.advertised.Hops? then e.advertised.h else INFINITY2
  }

  /** The destination answers for itself. */
  function OwnReply(me: Addr, m: Msg, seqno: nat): Msg
    requires m.Rreq?
  {
    Rrep(me, NETWORK_DIAMETER, m.src, m.sender, me, seqno, 0, m.sender, m.bcastId, MY_ROUTE_TIMEOUT)
  }

  /** A node with a fresh route answers once per request, and only over a stored path. */
  function ReplyFromRoute(me: Addr, n: Node, m: Msg, stored: bool, now: real): Outcome
    requires m.Rreq? && m.dst in n.table
  {
    var b := (m.src, m.bcastId);
    if stored && b in n.ids && !n.ids[b] then
      var rt := Advertise(n.table[m.dst]).(error := true);
      Outcome(n.(ids := n.ids[b := true], table := n.table[m.dst := rt]),
              {Rrep(me, NETWORK_DIAMETER, m.src, m.sender, m.dst, rt.seqno, AdvertisedHops(rt),
                    FirstLasthop(rt), m.bcastId, FirstExpire(rt) - now)})
    else Outcome(n, {})
  }

  function ForwardRequest(me: Addr, n: Node, m: Msg): Outcome
    requires m.Rreq? && m.src in n.table
  {
    var asked := if m.dst in n.table then Max(n.table[m.dst].seqno, m.dstSeqno) else m.dstSeqno;
    var rt0 := Advertise(n.table[m.src]);
    Outcome(n.(table := n.table[m.src := rt0]),
            if m.ttl - 1 == 0 then {}
            else {Rreq(me, m.ttl - 1, m.src, m.srcSeqno, AdvertisedHops(rt0), FirstLasthop(rt0), m.dst, asked, m.bcastId)})
  }

  /** The reverse route is in place; reply, or pass the request on. */
  function AnswerRequest(me: Addr, n: Node, m: Msg, stored: bool, known: bool, now: real): Outcome
    requires m.Rreq? && m.src in n.table
  {
    if m.dst == me then
      var s := AnswerSeqno(n.seqno, m.dstSeqno);
      Outcome(n.(seqno := s), {OwnReply(me, m, s)})
    else if HasFreshRoute(n.table, m) then ReplyFromRoute(me, n, m, stored, now)
    else if known then Outcome(n, {})
    else ForwardRequest(me, n, m)
  }

  /** The request was heard with the given effect on the entry of its originator. */
  function AfterRequest(me: Addr, n: Node, m: Msg, e: Entry, verdict: Verdict, now: real): Outcome
    requires m.Rreq?
  {
    var known := (m.src, m.bcastId) in n.ids;
    var ids := if known then n.ids else n.ids[(m.src, m.bcastId) := false];
    if verdict == Ignored then Outcome(n.(ids := ids, table := n.table[m.src := e]), {})
    else
      AnswerRequest(me, n.(ids := ids, table := n.table[m.src := SoftReset(e)]), m, verdict == Stored, known, now)
  }

  function RecvRequest(cfg: Config, me: Addr, n: Node, m: Msg, now: real): Outcome
    requires m.Rreq?
  {
    if m.src == me then Outcome(n, {})
    else
      var (e, verdict) := HearRequest(cfg, Lookup(n.table, m.src), m.srcSeqno, RequestPath(me, m, now), m.dst == me);
      AfterRequest(me, n, m, e, verdict, now)
  }

  // ---------- Route replies ----------

  /** The path over which a reply came. */
  function ReplyPath(m: Msg, now: real): Path
    requires m.Rrep?
  {
    Path(m.sender, m.hopCount + 1, now + m.lifetime, m.firstHop)
  }

  /** The reply was heard with the given effect on the entry of its destination. */
  function AfterReply(me: Addr, n: Node, m: Msg, e: Entry, verdict: Verdict, now: real): Outcome
    requires m.Rrep?
  {
    if verdict == Ignored then Outcome(n.(table := n.table[m.dst := e]), {})
    else
      var n' := n.(table := n.table[m.dst := SoftReset(e)]);
      if m.ipDst == me then Outcome(n', {}) else RelayReply(me, n', m, now)
  }

  function RecvReply(cfg: Config, me: Addr, n: Node, m: Msg, now: real): Outcome
    requires m.Rrep?
  {
    if m.dst == me then Outcome(n, {})
    else
      var (e, verdict) := HearReply(cfg, Lookup(n.table, m.dst), m.dstSeqno, ReplyPath(m, now));
      AfterReply(me, n, m, e, verdict, now)
  }

  function RelayReply(me: Addr, n: Node, m: Msg, now: real): Outcome
    requires m.Rrep? && m.dst in n.table
  {
    var b := (m.ipDst, m.bcastId);
    var rt0 := Lookup(n.table, m.ipDst);
    if rt0.flag != Up || rt0.paths == [] || b !in n.ids || n.ids[b] then Outcome(n, {})
    else
      var rt := Advertise(n.table[m.dst]).(error := true);
      var table := n.table[m.dst := rt];
      Outcome(n.(ids := n.ids[b := true], table := table[m.ipDst := UsedEntry(table[m.ipDst], now, true)]),
              if m.ttl - 1 == 0 then {}
              else {Rrep(me, m.ttl - 1, m.ipDst, rt0.paths[0].nexthop, m.dst, m.dstSeqno, AdvertisedHops(rt),
                         FirstLasthop(rt), m.bcastId, m.lifetime)})
  }

  /** A hello is a reply about the neighbour itself, addressed to whoever hears it. */
  function RecvHello(cfg: Config, me: Addr, n: Node, m: Msg, now: real): Outcome
    requires m.Hello?
  {
    RecvReply(cfg, me, n.(neighbors := n.neighbors + {m.sender}),
              Rrep(m.sender, 0, me, me, m.sender, m.seqno, 0, me, 0, HELLO_LIFETIME), now)
  }

  // ---------- Errors, failures, expiry ----------

  function ErrorFor(me: Addr, lost: map<Addr, nat>): set<Msg> {
    if lost == map[] then {} else {Rerr(me, lost)}
  }

  function ErrorTable(table: Table, m: Msg): Table
    requires m.Rerr?
  {
    map d | d in table :: if d in m.unreachable then ErrorEntry(table[d], m.sender, m.unreachable[d]) else table[d]
  }

  function PassedOn(table: Table, m: Msg): map<Addr, nat>
    requires m.Rerr?
  {
    map d | d in m.unreachable && d in table && ErrorSpreads(table[d], m.sender, m.unreachable[d])
      :: ErrorEntry(table[d], m.sender, m.unreachable[d]).seqno
  }

  function RecvError(me: Addr, n: Node, m: Msg): Outcome
    requires m.Rerr?
  {
    Outcome(n.(table := ErrorTable(n.table, m)), ErrorFor(me, PassedOn(n.table, m)))
  }

  function BrokenTable(table: Table, nbr: Addr): Table {
    map d | d in table :: BrokenEntry(table[d], nbr)
  }

  function LostThrough(table: Table, nbr: Addr): map<Addr, nat> {
    map d | d in table && BreakSpreads(table[d], nbr) :: RaisedSeqno(table[d])
  }

  /** `nb_delete` followed by `handle_link_failure`. */
  function NbDelete(me: Addr, n: Node, nbr: Addr): Outcome {
    Outcome(
      n.(seqno := n.seqno + 2, neighbors := n.neighbors - {nbr}, table := BrokenTable(n.table, nbr)),
      ErrorFor(me, LostThrough(n.table, nbr)))
  }

  function PurgedTable(table: Table, now: real): Table {
    map d | d in table :: PurgedEntry(table[d], now)
  }

  function RtResolve(me: Addr, n: Node, dst: Addr, mine: bool, early: bool, now: real): Outcome {
    var n' := n.(table := n.table[dst := Lookup(n.table, dst)]);
    var e := n'.table[dst];
    if e.flag == Up then
      Outcome(if e.paths == [] then n' else n'.(table := n'.table[dst := UsedEntry(e, now, mine)]), {})
    else if mine then SendRequest(me, n', dst, early)
    else Outcome(n', {Rerr(me, map[dst := e.seqno])})
  }

  /** A hello goes out only while some route is up. */
  function SendHello(me: Addr, n: Node): Outcome {
    Outcome(n, if exists d :: d in n.table && n.table[d].flag == Up then {Hello(me, n.seqno)} else {})
  }

  // ---------- The network ----------

  datatype System = System(nodes: map<Addr, Node>, msgs: set<Msg>)

  datatype Event =
    | Deliver(at: Addr, m: Msg, now: real)
    | Resolve(at: Addr, dst: Addr, mine: bool, early: bool, now: real)
    | Discover(at: Addr, dst: Addr, early: bool)
    | Purge(at: Addr, now: real)
    | LinkBreak(at: Addr, nbr: Addr)
    | SayHello(at: Addr)
    | IdPurge(at: Addr, stale: set<(Addr, nat)>)

  function React(cfg: Config, n: Node, ev: Event): Outcome {
    match ev
    case Deliver(me, m, now) =>
      if m.Rreq? then RecvRequest(cfg, me, n, m, now)
      else if m.Rrep? then RecvReply(cfg, me, n, m, now)
      else if m.Rerr? then RecvError(me, n, m)
      else RecvHello(cfg, me, n, m, now)
    case Resolve(me, dst, mine, early, now) => RtResolve(me, n, dst, mine, early, now)
    case Discover(me, dst, early) => if dst in n.table then SendRequest(me, n, dst, early) else Outcome(n, {})
    case Purge(_, now) => Outcome(n.(table := PurgedTable(n.table, now)), {})
    case LinkBreak(me, nbr) => NbDelete(me, n, nbr)
    case SayHello(me) => SendHello(me, n)
    case IdPurge(_, stale) => Outcome(n.(ids := n.ids - stale), {})
  }

  predicate Enabled(s: System, ev: Event) {
    ev.at in s.nodes && (ev.Deliver? ==> ev.m in s.msgs)
  }

  function Apply(s: System, at: Addr, o: Outcome): System {
    System(s.nodes[at := o.node], s.msgs + o.sent)
  }

  function Step(cfg: Config, s: System, ev: Event): System {
    if Enabled(s, ev) then Apply(s, ev.at, React(cfg, s.nodes[ev.at], ev)) else s
  }

  function Init(addrs: set<Addr>): System {
    System(map a | a in addrs :: INITIAL_NODE, {})
  }

  function Run(cfg: Config, addrs: set<Addr>, evs: seq<Event>): System {
    if evs == [] then Init(addrs) else Step(cfg, Run(cfg, addrs, evs[..|evs| - 1]), evs[|evs| - 1])
  }

  /** `a` stores a path for `d` whose next hop is `b`. */
  ghost predicate Forwards(nodes: map<Addr, Node>, d: Addr, a: Addr, b: Addr) {
    && a != d && a in nodes && d in nodes[a].table
    && exists k :: 0 <= k < |nodes[a].table[d].paths| && nodes[a].table[d].paths[k].nexthop == b
  }

  ghost predicate Cycle(nodes: map<Addr, Node>, d: Addr, p: seq<Addr>) {
    |p| >= 2 && p[0] == p[|p| - 1] && forall k :: 0 <= k < |p| - 1 ==> Forwards(nodes, d, p[k], p[k + 1])
  }

  /** Whichever stored path each node picks, for each packet anew, no packet loops. */
  ghost predicate LoopFree(s: System) {
    forall d, p :: !Cycle(s.nodes, d, p)
  }
}
