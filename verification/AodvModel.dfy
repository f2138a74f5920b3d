/**
 The AODV routing agent as a set of pure step functions, one per handler of
 `aodv/aodv.cc`, and a network of such agents.

 - A node is its own sequence number, its next broadcast id, its route table, its cache
   of broadcast ids and its neighbour cache.
 - A handler maps the node and what it heard to an `Outcome`: the new node and the
   packets handed to the link layer.
 - The network remembers every packet ever sent; a packet in that set may be delivered any
   number of times, to any node, at any later moment, or never.  This covers loss,
   duplication, reordering and mobility.
 - Clocks and random jitter are inputs of the events.
 */
module AodvModel {
  import opened Basics

  type Addr = nat

  const INFINITY2: nat := 0xff
  const NETWORK_DIAMETER: nat := 30
  const TTL_START: nat := 5
  const TTL_THRESHOLD: nat := 7
  const TTL_INCREMENT: nat := 2
  const RREQ_RETRIES: nat := 3

  datatype Flag = Down | Up | InRepair

  datatype Entry = Entry(
    seqno: nat,
    hops: nat,
    nexthop: Addr,
    flag: Flag,
    lastHopCount: nat,
    lastTtl: nat,
    reqCnt: nat,
    precursors: set<Addr>)

  type Table = map<Addr, Entry>

  /** What the constructor of a route table entry leaves behind. */
  const FRESH: Entry := Entry(0, INFINITY2, 0, Down, INFINITY2, 0, 0, {})

  datatype Node = Node(
    seqno: nat,
    bid: nat,
    table: Table,
    seen: set<(Addr, nat)>,
    neighbors: set<Addr>)

  const INITIAL_NODE: Node := Node(2, 1, map[], {}, {})

  /** `sender` is the address a receiver takes as next hop: the IP source of a request or
      an error, the `rp_src` field of a reply. */
  datatype Msg =
    | Rreq(sender: Addr, ttl: int, src: Addr, srcSeqno: nat, hopCount: nat, dst: Addr, dstSeqno: nat, bcastId: nat)
    | Rrep(sender: Addr, ttl: int, ipDst: Addr, linkDst: Addr, dst: Addr, dstSeqno: nat, hopCount: nat)
    | Rerr(sender: Addr, unreachable: map<Addr, nat>)
    | Hello(sender: Addr, seqno: nat)

  datatype Outcome = Outcome(node: Node, sent: set<Msg>)

  /** The entry for `d`; an address without an entry stands where a fresh one would. */
  function Lookup(table: Table, d: Addr): Entry {
    if d in table then table[d] else FRESH
  }

  // ---------- Operations on one entry ----------

  /** The acceptance rule shared by requests and replies: fresher, or as fresh and shorter. */
  predicate Better(seqno: nat, hops: nat, e: Entry) {
    seqno > e.seqno || (seqno == e.seqno && hops < e.hops)
  }

  function RtUpdate(e: Entry, seqno: nat, metric: nat, nexthop: Addr): Entry {
    e.(seqno := seqno, hops := metric, flag := Up, nexthop := nexthop)
  }

  function RtDown(e: Entry): Entry {
    if e.flag == Down then e
    else e.(lastHopCount := e.hops, hops := INFINITY2, flag := Down, nexthop := 0)
  }

  function PcInsert(table: Table, d: Addr, nbr: Addr): Table
    requires d in table
  {
    table[d := table[d].(precursors := table[d].precursors + {nbr})]
  }

  // ---------- Route requests ----------

  /** The entry for the originator of a request, after the reverse route was considered.
      `waiting` says that this node has itself asked for that originator. */
  function ReverseRoute(e: Entry, m: Msg, waiting: bool): Entry
    requires m.Rreq?
  {
    if !Better(m.srcSeqno, m.hopCount, e) then e
    else
      var e' := RtUpdate(e, m.srcSeqno, m.hopCount, m.sender);
      if waiting then e'.(reqCnt := 0, lastTtl := m.hopCount) else e'
  }

  /** The sequence number a destination answers with: above both its own and the one
      asked for, and even. */
  function AnswerSeqno(own: nat, asked: nat): nat {
    var s := Max(own, asked) + 1;
    if s % 2 == 1 then s + 1 else s
  }

  predicate HasFreshRoute(table: Table, m: Msg)
    requires m.Rreq?
  {
    m.dst in table && table[m.dst].hops != INFINITY2 && table[m.dst].seqno >= m.dstSeqno
  }

  function AnswerRequest(me: Addr, n: Node, m: Msg): Outcome
    requires m.Rreq? && m.src in n.table
  {
    var back := n.table[m.src].nexthop;
    if m.dst == me then
      var s := AnswerSeqno(n.seqno, m.dstSeqno);
      Outcome(n.(seqno := s), {Rrep(me, NETWORK_DIAMETER, m.src, back, me, s, 1)})
    else if HasFreshRoute(n.table, m) then
      var rt := n.table[m.dst];
      Outcome(n.(table := PcInsert(PcInsert(n.table, m.dst, back), m.src, rt.nexthop)),
              {Rrep(me, NETWORK_DIAMETER, m.src, back, m.dst, rt.seqno, rt.hops + 1)})
    else if m.ttl - 1 == 0 then
      Outcome(n, {})
    else
      var asked := if m.dst in n.table then Max(n.table[m.dst].seqno, m.dstSeqno) else m.dstSeqno;
      Outcome(n, {Rreq(me, m.ttl - 1, m.src, m.srcSeqno, m.hopCount + 1, m.dst, asked, m.bcastId)})
  }

  function RecvRequest(me: Addr, n: Node, m: Msg, waiting: bool): Outcome
    requires m.Rreq?
  {
    if m.src == me || (m.src, m.bcastId) in n.seen then Outcome(n, {})
    else
      var n' := n.(seen := n.seen + {(m.src, m.bcastId)},
                   table := n.table[m.src := ReverseRoute(Lookup(n.table, m.src), m, waiting)]);
      AnswerRequest(me, n', m)
  }

  /** Time to live of the next request: expanding ring search, then the whole network. */
  function RequestTtl(last: nat): nat {
    if last == 0 then TTL_START
    else if last < TTL_THRESHOLD then last + TTL_INCREMENT
    else NETWORK_DIAMETER
  }

  /** `early` says that the timeout of the previous request has not passed yet. */
  function SendRequest(me: Addr, n: Node, dst: Addr, early: bool): Outcome
    requires dst in n.table
  {
    var e := n.table[dst];
    if e.flag == Up || early then Outcome(n, {})
    else if e.reqCnt > RREQ_RETRIES then Outcome(n.(table := n.table[dst := e.(reqCnt := 0)]), {})
    else
      var last := Max(e.lastTtl, e.lastHopCount);
      var ttl := RequestTtl(last);
      var cnt := if last == 0 || last < TTL_THRESHOLD then e.reqCnt else e.reqCnt + 1;
      Outcome(n.(table := n.table[dst := e.(lastTtl := ttl, reqCnt := cnt)], bid := n.bid + 1, seqno := n.seqno + 2),
              {Rreq(me, ttl, me, n.seqno + 2, 1, dst, e.seqno, n.bid)})
  }

  // ---------- Route replies ----------

  function ForwardRoute(e: Entry, m: Msg): Entry
    requires m.Rrep?
  {
    if Better(m.dstSeqno, m.hopCount, e)
    then RtUpdate(e, m.dstSeqno, m.hopCount, m.sender).(reqCnt := 0, lastTtl := m.hopCount)
    else e
  }

  function RecvReply(me: Addr, n: Node, m: Msg): Outcome
    requires m.Rrep?
  {
    var e := Lookup(n.table, m.dst);
    var n' := n.(table := n.table[m.dst := ForwardRoute(e, m)]);
    if m.ipDst == me || !Better(m.dstSeqno, m.hopCount, e) then Outcome(n', {})
    else RelayReply(me, n', m)
  }

  function RelayReply(me: Addr, n: Node, m: Msg): Outcome
    requires m.Rrep? && m.dst in n.table
  {
    var back := Lookup(n.table, m.ipDst);
    if back.hops == INFINITY2 then Outcome(n, {})
    else
      Outcome(n.(table := PcInsert(n.table, m.dst, back.nexthop)),
              if m.ttl - 1 == 0 then {}
              else {Rrep(me, m.ttl - 1, m.ipDst, back.nexthop, m.dst, m.dstSeqno, m.hopCount + 1)})
  }

  // ---------- Route errors and link failures ----------

  /** The route error for `lost`, unless there is nothing to report. */
  function ErrorFor(me: Addr, lost: map<Addr, nat>): set<Msg> {
    if lost == map[] then {} else {Rerr(me, lost)}
  }

  /** An error from `sender` about a route known as `seqno` concerns this entry. */
  predicate Concerned(e: Entry, sender: Addr, seqno: nat) {
    e.hops != INFINITY2 && e.nexthop == sender && e.seqno <= seqno
  }

  function ErrorEntry(e: Entry, seqno: nat): Entry {
    RtDown(e.(seqno := seqno)).(precursors := {})
  }

  /** The routes lost to an error that some precursor relies on. */
  function PassedOn(table: Table, m: Msg): map<Addr, nat>
    requires m.Rerr?
  {
    map d | d in m.unreachable && d in table && Concerned(table[d], m.sender, m.unreachable[d]) && table[d].precursors != {}
      :: m.unreachable[d]
  }

  function ErrorTable(table: Table, m: Msg): Table
    requires m.Rerr?
  {
    map d | d in table ::
      if d in m.unreachable && Concerned(table[d], m.sender, m.unreachable[d])
      then ErrorEntry(table[d], m.unreachable[d]) else table[d]
  }

  function RecvError(me: Addr, n: Node, m: Msg): Outcome
    requires m.Rerr?
  {
    Outcome(n.(table := ErrorTable(n.table, m)), ErrorFor(me, PassedOn(n.table, m)))
  }

  predicate Uses(e: Entry, nbr: Addr) {
    e.hops != INFINITY2 && e.nexthop == nbr
  }

  function BrokenEntry(e: Entry, nbr: Addr): Entry {
    (if Uses(e, nbr) then RtDown(e.(seqno := e.seqno + 1)) else e).(precursors := e.precursors - {nbr})
  }

  function BrokenTable(table: Table, nbr: Addr): Table {
    map d | d in table :: BrokenEntry(table[d], nbr)
  }

  /** The routes through a lost neighbour, under their raised numbers. */
  function LostThrough(table: Table, nbr: Addr): map<Addr, nat> {
    map d | d in table && Uses(table[d], nbr) :: table[d].seqno + 1
  }

  /** `nb_delete` followed by `handle_link_failure`. */
  function NbDelete(me: Addr, n: Node, nbr: Addr): Outcome {
    Outcome(
      n.(seqno := n.seqno + 2, neighbors := n.neighbors - {nbr}, table := BrokenTable(n.table, nbr)),
      ErrorFor(me, LostThrough(n.table, nbr)))
  }

  function PurgedEntry(e: Entry, expired: bool): Entry {
    if e.flag == Up && expired then RtDown(e.(seqno := e.seqno + 1)) else e
  }

  function PurgedTable(table: Table, expired: set<Addr>): Table {
    map d | d in table :: PurgedEntry(table[d], d in expired)
  }

  /** Expiry of the routes to `expired`. */
  function RtPurge(n: Node, expired: set<Addr>): Outcome {
    Outcome(n.(table := PurgedTable(n.table, expired)), {})
  }

  /** A data packet for `dst` reached this node; `mine` says that it originates here. */
  function RtResolve(me: Addr, n: Node, dst: Addr, mine: bool, early: bool): Outcome {
    var n' := n.(table := n.table[dst := Lookup(n.table, dst)]);
    var e := n'.table[dst];
    if e.flag == Up then Outcome(n', {})
    else if mine then SendRequest(me, n', dst, early)
    else if e.flag == InRepair then Outcome(n', {})
    else Outcome(n', {Rerr(me, map[dst := e.seqno])})
  }

  // ---------- Neighbours ----------

  function RecvHello(n: Node, m: Msg): Outcome
    requires m.Hello?
  {
    Outcome(if m.sender in n.neighbors then n else n.(neighbors := n.neighbors + {m.sender}, seqno := n.seqno + 2), {})
  }

  // ---------- Local repair (AODV_LOCAL_REPAIR) ----------

  /** The link layer gave up on handing `nbr` a data packet for `dst` that had been
      forwarded `forwards` times.  Nearer to the destination than to the source, the route
      is repaired; otherwise the neighbour is lost. */
  function LinkLayerFailed(me: Addr, n: Node, dst: Addr, nbr: Addr, forwards: nat, early: bool): Outcome {
    if dst !in n.table then Outcome(n, {})
    else if forwards > n.table[dst].hops then
      SendRequest(me, n.(table := n.table[dst := n.table[dst].(flag := InRepair)]), dst, early)
    else NbDelete(me, n, nbr)
  }

  /** The repair timer fires. */
  function RepairTimeout(n: Node, dst: Addr): Outcome {
    if dst in n.table && n.table[dst].flag != Up
    then Outcome(n.(table := n.table[dst := RtDown(n.table[dst])]), {})
    else Outcome(n, {})
  }

  // ---------- The network ----------

  datatype System = System(nodes: map<Addr, Node>, msgs: set<Msg>)

  datatype Event =
    | Deliver(at: Addr, m: Msg, waiting: bool)
    | Resolve(at: Addr, dst: Addr, mine: bool, early: bool)
    | Discover(at: Addr, dst: Addr, early: bool)
    | Purge(at: Addr, expired: set<Addr>)
    | LinkBreak(at: Addr, nbr: Addr)
    | SayHello(at: Addr)
    | IdPurge(at: Addr, stale: set<(Addr, nat)>)
    | Repair(at: Addr, dst: Addr, nbr: Addr, forwards: nat, early: bool)
    | RepairExpires(at: Addr, dst: Addr)

  function React(n: Node, ev: Event): Outcome {
    match ev
    case Deliver(me, m, waiting) =>
      (match m
       case Rreq(_, _, _, _, _, _, _, _) => RecvRequest(me, n, m, waiting)
       case Rrep(_, _, _, _, _, _, _) => RecvReply(me, n, m)
       case Rerr(_, _) => RecvError(me, n, m)
       case Hello(_, _) => RecvHello(n, m))
    case Resolve(me, dst, mine, early) => RtResolve(me, n, dst, mine, early)
    case Discover(me, dst, early) => if dst in n.table then SendRequest(me, n, dst, early) else Outcome(n, {})
    case Purge(_, expired) => RtPurge(n, expired)
    case LinkBreak(me, nbr) => NbDelete(me, n, nbr)
    case SayHello(me) => Outcome(n, {Hello(me, n.seqno)})
    case IdPurge(_, stale) => Outcome(n.(seen := n.seen - stale), {})
    case Repair(me, dst, nbr, forwards, early) => LinkLayerFailed(me, n, dst, nbr, forwards, early)
    case RepairExpires(_, dst) => RepairTimeout(n, dst)
  }

  predicate Enabled(s: System, ev: Event) {
    ev.at in s.nodes && (ev.Deliver? ==> ev.m in s.msgs)
  }

  function Apply(s: System, at: Addr, o: Outcome): System {
    System(s.nodes[at := o.node], s.msgs + o.sent)
  }

  function Step(s: System, ev: Event): System {
    if Enabled(s, ev) then Apply(s, ev.at, React(s.nodes[ev.at], ev)) else s
  }

  function Init(addrs: set<Addr>): System {
    System(map a | a in addrs :: INITIAL_NODE, {})
  }

  function Run(addrs: set<Addr>, evs: seq<Event>): System {
    if evs == [] then Init(addrs) else Step(Run(addrs, evs[..|evs| - 1]), evs[|evs| - 1])
  }

  // ---------- Loops ----------

  /** `a` forwards packets for `d` to `b`. */
  ghost predicate Forwards(nodes: map<Addr, Node>, d: Addr, a: Addr, b: Addr) {
    a != d && a in nodes && d in nodes[a].table && nodes[a].table[d].flag == Up && nodes[a].table[d].nexthop == b
  }

  /** `p` is a closed walk along which packets for `d` are forwarded. */
  ghost predicate Cycle(nodes: map<Addr, Node>, d: Addr, p: seq<Addr>) {
    |p| >= 2 && p[0] == p[|p| - 1] && forall k :: 0 <= k < |p| - 1 ==> Forwards(nodes, d, p[k], p[k + 1])
  }

  ghost predicate LoopFree(s: System) {
    forall d, p :: !Cycle(s.nodes, d, p)
  }

  // ---------- Abandoned repairs ----------

  /** The repair timer finds its route still under repair and takes it down. */
  predicate AbandonsRepair(s: System, ev: Event) {
    ev.RepairExpires? && Enabled(s, ev) && ev.dst in s.nodes[ev.at].table && s.nodes[ev.at].table[ev.dst].flag == InRepair
  }

  /** No repair is abandoned anywhere along the run. */
  predicate NeverAbandons(addrs: set<Addr>, evs: seq<Event>) {
    evs != [] ==>
      NeverAbandons(addrs, evs[..|evs| - 1]) && !AbandonsRepair(Run(addrs, evs[..|evs| - 1]), evs[|evs| - 1])
  }

  /** The runs of a build without `AODV_LOCAL_REPAIR`. */
  predicate RepairOff(evs: seq<Event>) {
    forall k :: 0 <= k < |evs| ==> !evs[k].Repair? && !evs[k].RepairExpires?
  }
}
