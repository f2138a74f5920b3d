/**
 Reservation signalling along paths of links (`adc/salink.cc`, `adc/param-adc.cc`, `adc/sa.cc`):
 a request asks each link in turn, the answer comes back to the source, a confirmation tells
 the links the outcome, and each stop of the flow sends a teardown along the path. Any number
 of flows signal at the same time.
 */
module Reservation {
  import opened Basics

  const NFLOWS: nat := 500
  const FREE: int := -1

  /** The capacity available to reservations, the rate reserved, and the slots for flows whose
      outcome is not known yet. */
  datatype Link = Link(cap: real, resv: real, pending: seq<int>)

  // ---------- One link ----------

  /** The first slot that holds `id`, or -1. */
  function Slot(pending: seq<int>, id: int): (j: int)
    ensures -1 <= j < |pending|
    ensures j >= 0 ==> pending[j] == id
    ensures j == -1 <==> id !in pending
  {
    if pending == [] then -1
    else if pending[0] == id then 0
    else
      var j := Slot(pending[1..], id);
      if j == -1 then -1 else j + 1
  }

  predicate Admits(l: Link, rate: real) {
    l.resv + rate <= l.cap
  }

  /** The program gives up when an admitted flow finds no free slot. */
  predicate Exits(l: Link, rate: real) {
    Admits(l, rate) && FREE !in l.pending
  }

  function Request(l: Link, id: nat, rate: real): Link
    requires !Exits(l, rate)
  {
    if Admits(l, rate) then l.(resv := l.resv + rate, pending := l.pending[Slot(l.pending, FREE) := id]) else l
  }

  function Confirm(l: Link, id: nat, rate: real, decision: bool): Link {
    if id !in l.pending then l
    else l.(resv := if decision then l.resv else l.resv - rate, pending := l.pending[Slot(l.pending, id) := FREE])
  }

  function Teardown(l: Link, rate: real): Link {
    l.(resv := l.resv - rate)
  }

  // ---------- Flows and their packets ----------

  datatype Flow = Flow(path: seq<nat>, rate: real)

  /** Where the request of a flow is, before link `at` or travelling back; or the outcome known
      to the source and the confirmation past `confirmed` links. */
  datatype Phase = Idle | Asking(at: nat, ok: bool) | Settling(ok: bool, confirmed: nat)

  /** `tears` are the teardowns sent for each flow, and how many links each has passed. */
  datatype System = System(flows: seq<Flow>, phases: seq<Phase>, tears: seq<seq<nat>>, links: seq<Link>)

  /** The request or confirmation of flow `f` moves on; its source is stopped and sends one
      more teardown, whatever became of the flow; or a teardown moves on. */
  datatype Event = Signal(f: nat) | Stop(f: nat) | Tear(f: nat, i: nat)

  predicate Possible(s: System, ev: Event) {
    && ev.f < |s.flows| == |s.phases| == |s.tears|
    && var flow, phase := s.flows[ev.f], s.phases[ev.f];
       match ev
       case Signal(_) =>
         (match phase
          case Idle => true
          case Asking(at, _) =>
            at < |flow.path| ==> flow.path[at] < |s.links| && !Exits(s.links[flow.path[at]], flow.rate)
          case Settling(_, c) => c < |flow.path| && flow.path[c] < |s.links|)
       case Stop(_) => true
       case Tear(f, i) =>
         && i < |s.tears[f]| && s.tears[f][i] < |flow.path|
         && flow.path[s.tears[f][i]] < |s.links|
  }

  function Update(s: System, f: nat, phase: Phase, l: nat, link: Link): System
    requires f < |s.phases| && l < |s.links|
  {
    s.(phases := s.phases[f := phase], links := s.links[l := link])
  }

  function Step(s: System, ev: Event): System
    requires Possible(s, ev)
  {
    var flow, f := s.flows[ev.f], ev.f;
    match ev
    case Signal(_) =>
      (match s.phases[f]
       case Idle => s.(phases := s.phases[f := Asking(0, true)])
       case Asking(at, ok) =>
         if at == |flow.path| then s.(phases := s.phases[f := Settling(ok, 0)])
         else if at > |flow.path| then s
         else
           var l := flow.path[at];
           Update(s, f, Asking(at + 1, ok && Admits(s.links[l], flow.rate)), l, Request(s.links[l], f, flow.rate))
       case Settling(ok, c) =>
         var l := flow.path[c];
         Update(s, f, Settling(ok, c + 1), l, Confirm(s.links[l], f, flow.rate, ok)))
    case Stop(_) => s.(tears := s.tears[f := s.tears[f] + [0]])
    case Tear(_, i) =>
      var k := s.tears[f][i];
      var l := flow.path[k];
      s.(tears := s.tears[f := s.tears[f][i := k + 1]], links := s.links[l := Teardown(s.links[l], flow.rate)])
  }

  function Run(s: System, evs: seq<Event>): System {
    if evs == [] then s
    else
      var s' := Run(s, evs[..|evs| - 1]);
      if Possible(s', evs[|evs| - 1]) then Step(s', evs[|evs| - 1]) else s'
  }

  /** Flows with simple paths and no negative rate, before any signalling. */
  ghost predicate Initial(s: System) {
    && |s.phases| == |s.tears| == |s.flows|
    && (forall f :: 0 <= f < |s.flows| ==> s.phases[f] == Idle && s.tears[f] == [] && ValidFlow(s, s.flows[f]))
    && (forall l :: 0 <= l < |s.links| ==>
          s.links[l].cap >= 0.0 && s.links[l].resv == 0.0 && s.links[l].pending == seq(NFLOWS, _ => FREE))
  }

  ghost predicate ValidFlow(s: System, flow: Flow) {
    && flow.rate >= 0.0
    && (forall k :: 0 <= k < |flow.path| ==> flow.path[k] < |s.links|)
    && (forall j, k :: 0 <= j < k < |flow.path| ==> flow.path[j] != flow.path[k])
  }

  // ---------- Who holds what ----------

  /** How many links the foremost teardown has passed. */
  function Foremost(tears: seq<nat>): (t: nat)
    ensures forall i :: 0 <= i < |tears| ==> tears[i] <= t
    ensures t > 0 ==> t in tears
  {
    if tears == [] then 0 else Max(tears[0], Foremost(tears[1..]))
  }

  /** A flow holds its rate on a link while its outcome is pending there, and afterwards, if
      it was accepted, until a teardown has passed. */
  predicate Holds(s: System, f: nat, l: nat)
    requires f < |s.flows| == |s.phases| == |s.tears| && l < |s.links|
  {
    || f in s.links[l].pending
    || match s.phases[f]
       case Settling(ok, c) =>
         var t := Foremost(s.tears[f]);
         ok && t <= c <= |s.flows[f].path| && l in s.flows[f].path[t..c]
       case _ => false
  }

  function Held(s: System, l: nat, n: nat): real
    requires n <= |s.flows| == |s.phases| == |s.tears| && l < |s.links|
  {
    if n == 0 then 0.0 else Held(s, l, n - 1) + if Holds(s, n - 1, l) then s.flows[n - 1].rate else 0.0
  }

  /** The phase of a flow and the slots of the links agree. */
  ghost predicate Tracked(s: System, f: nat)
    requires f < |s.flows| == |s.phases| == |s.tears|
  {
    var path := s.flows[f].path;
    && ValidFlow(s, s.flows[f])
    && (forall i :: 0 <= i < |s.tears[f]| ==> s.tears[f][i] <= |path|)
    && match s.phases[f]
       case Idle => forall l :: 0 <= l < |s.links| ==> f !in s.links[l].pending
       case Asking(at, ok) =>
         && at <= |path|
         && (forall l :: 0 <= l < |s.links| && f in s.links[l].pending ==> l in path[..at])
         && (ok ==> forall k :: 0 <= k < at ==> f in s.links[path[k]].pending)
       case Settling(ok, c) =>
         && c <= |path|
         && (forall l :: 0 <= l < |s.links| && f in s.links[l].pending ==> l in path[c..])
         && (ok ==> forall k :: c <= k < |path| ==> f in s.links[path[k]].pending)
  }

  ghost predicate UniqueSlots(pending: seq<int>) {
    forall i, j :: 0 <= i < j < |pending| && pending[i] == pending[j] ==> pending[i] == FREE
  }

  ghost predicate Structured(s: System) {
    && |s.flows| == |s.phases| == |s.tears|
    && (forall f :: 0 <= f < |s.flows| ==> Tracked(s, f))
    && (forall l :: 0 <= l < |s.links| ==> UniqueSlots(s.links[l].pending))
  }

  /** What each link has reserved is what its flows hold. */
  ghost predicate Conserved(s: System) {
    && |s.flows| == |s.phases| == |s.tears|
    && forall l :: 0 <= l < |s.links| ==> s.links[l].resv == Held(s, l, |s.flows|)
  }

  /** Teardowns of the flow only passed links where it was accepted and confirmed, unless it
      has no rate. */
  predicate Punctual(s: System, f: nat)
    requires f < |s.flows| == |s.phases| == |s.tears|
  {
    || s.flows[f].rate == 0.0 || Foremost(s.tears[f]) == 0
    || (s.phases[f].Settling? && s.phases[f].ok && Foremost(s.tears[f]) <= s.phases[f].confirmed)
  }

  ghost predicate Inv(s: System) {
    && Structured(s)
    && Conserved(s)
    && (forall f :: 0 <= f < |s.flows| ==> Punctual(s, f))
    && (forall l :: 0 <= l < |s.links| ==> s.links[l].resv <= s.links[l].cap)
  }

  // ---------- Slots ----------

  lemma RequestMembers(l: Link, id: nat, rate: real)
    requires UniqueSlots(l.pending) && id !in l.pending && !Exits(l, rate)
    ensures var l' := Request(l, id, rate);
            && UniqueSlots(l'.pending)
            && forall x: nat :: x in l'.pending <==> x in l.pending || (x == id && Admits(l, rate))
  {
    if Admits(l, rate) { SlotFilled(l.pending, Slot(l.pending, FREE), id); }
  }

  lemma SlotFilled(pending: seq<int>, j: nat, id: nat)
    requires UniqueSlots(pending) && j < |pending| && pending[j] == FREE && id !in pending
    ensures UniqueSlots(pending[j := id])
    ensures forall x: nat :: x in pending[j := id] <==> x in pending || x == id
  {
    var p' := pending[j := id];
    assert p'[j] == id;
    forall x: nat | x in pending ensures x in p' {
      var k :| 0 <= k < |pending| && pending[k] == x;
      assert p'[k] == x;
    }
  }

  lemma ConfirmMembers(l: Link, id: nat, rate: real, decision: bool)
    requires UniqueSlots(l.pending)
    ensures var l' := Confirm(l, id, rate, decision);
            && UniqueSlots(l'.pending)
            && forall x: nat :: x in l'.pending <==> x in l.pending && x != id
  {
    if id in l.pending { SlotFreed(l.pending, Slot(l.pending, id), id); }
  }

  lemma SlotFreed(pending: seq<int>, j: nat, id: nat)
    requires UniqueSlots(pending) && j < |pending| && pending[j] == id
    ensures UniqueSlots(pending[j := FREE])
    ensures forall x: nat :: x in pending[j := FREE] <==> x in pending && x != id
  {
    var p' := pending[j := FREE];
    forall x: nat | x in pending && x != id ensures x in p' {
      var k :| 0 <= k < |pending| && pending[k] == x;
      assert p'[k] == x;
    }
  }

  // ---------- Flows that do not move ----------

  /** Nothing that concerns flow `g` differs between the two states. */
  ghost predicate Untouched(s: System, s': System, g: nat)
    requires g < |s.phases| == |s'.phases| && g < |s.tears| == |s'.tears|
  {
    && s'.phases[g] == s.phases[g] && s'.tears[g] == s.tears[g]
    && forall l :: 0 <= l < |s.links| && l < |s'.links| ==> (g in s'.links[l].pending <==> g in s.links[l].pending)
  }

  ghost predicate SameShape(s: System, s': System) {
    && s'.flows == s.flows && |s'.links| == |s.links|
    && |s'.phases| == |s.phases| == |s.flows| && |s'.tears| == |s.tears| == |s.flows|
  }

  lemma UntouchedStaysTracked(s: System, s': System, g: nat)
    requires SameShape(s, s') && g < |s.flows| && Untouched(s, s', g) && Tracked(s, g)
    ensures Tracked(s', g)
  {
    forall k | 0 <= k < |s.flows[g].path| && g in s.links[s.flows[g].path[k]].pending
      ensures g in s'.links[s.flows[g].path[k]].pending
    {
    }
  }

  function Share(s: System, f: nat, l: nat): real
    requires f < |s.flows| == |s.phases| == |s.tears| && l < |s.links|
  {
    if Holds(s, f, l) then s.flows[f].rate else 0.0
  }

  /** When only flow `f` moves, the rate held on a link changes by its share. */
  lemma {:induction false} HeldAfter(s: System, s': System, f: nat, l: nat, n: nat)
    requires SameShape(s, s') && l < |s.links| && n <= |s.flows| && f < |s.flows|
    requires forall g :: 0 <= g < |s.flows| && g != f ==> Untouched(s, s', g)
    ensures Held(s', l, n) == Held(s, l, n) + if f < n then Share(s', f, l) - Share(s, f, l) else 0.0
    decreases n
  {
    if n > 0 {
      HeldAfter(s, s', f, l, n - 1);
      if n - 1 != f {
        assert Untouched(s, s', n - 1);
        assert Holds(s', n - 1, l) == Holds(s, n - 1, l);
      }
    }
  }

  /** A step of flow `f` leaves it tracked and disturbs no other flow. */
  ghost predicate Moves(s: System, s': System, f: nat) {
    && SameShape(s, s') && f < |s.flows|
    && Tracked(s', f)
    && (forall g :: 0 <= g < |s.flows| && g != f ==> Untouched(s, s', g))
    && (forall l :: 0 <= l < |s.links| ==>
          UniqueSlots(s'.links[l].pending) && s'.links[l].cap == s.links[l].cap)
  }

  /** Each link accounts for exactly the change of the share of flow `f`. */
  ghost predicate Accounts(s: System, s': System, f: nat)
    requires SameShape(s, s') && f < |s.flows|
  {
    forall l :: 0 <= l < |s.links| ==>
      && s'.links[l].resv == s.links[l].resv + Share(s', f, l) - Share(s, f, l)
      && (s'.links[l].resv <= s.links[l].resv || s'.links[l].resv <= s.links[l].cap)
  }

  ghost predicate Accounted(s: System, s': System, f: nat) {
    Moves(s, s', f) && Accounts(s, s', f)
  }

  lemma MovesKeepsStructure(s: System, s': System, f: nat)
    requires Structured(s) && Moves(s, s', f)
    ensures Structured(s')
  {
    forall g | 0 <= g < |s.flows| ensures Tracked(s', g) {
      if g != f { UntouchedStaysTracked(s, s', g); }
    }
  }

  lemma AccountedKeepsInv(s: System, s': System, f: nat)
    requires Inv(s) && Accounted(s, s', f) && Punctual(s', f)
    ensures Inv(s')
  {
    MovesKeepsStructure(s, s', f);
    forall l | 0 <= l < |s.links| ensures s'.links[l].resv == Held(s', l, |s.flows|) {
      HeldAfter(s, s', f, l, |s.flows|);
    }
    forall g | 0 <= g < |s.flows| ensures Punctual(s', g) {
      assert Punctual(s, g);
      assert g != f ==> Untouched(s, s', g);
    }
  }

  // ---------- Steps ----------

  /** A request passes the link `l` at position `at` of its path. */
  lemma RequestAccounted(s: System, f: nat, at: nat, ok: bool)
    requires Structured(s) && f < |s.flows| && s.phases[f] == Asking(at, ok)
    requires Possible(s, Signal(f)) && at < |s.flows[f].path|
    ensures Accounted(s, Step(s, Signal(f)), f)
  {
    var path, rate := s.flows[f].path, s.flows[f].rate;
    var l := path[at];
    var s' := Step(s, Signal(f));
    assert Tracked(s, f);
    assert l !in path[..at];
    RequestMembers(s.links[l], f, rate);
    assert path[..at + 1] == path[..at] + [l];
    assert forall m :: 0 <= m < |s.links| && m != l ==> s'.links[m] == s.links[m];
  }

  lemma AnswerAccounted(s: System, f: nat, ok: bool)
    requires Structured(s) && f < |s.flows| && s.phases[f] == Asking(|s.flows[f].path|, ok)
    ensures Accounted(s, Step(s, Signal(f)), f)
  {
    var path := s.flows[f].path;
    assert Tracked(s, f);
    assert path[0..] == path && path[..|path|] == path;
    assert forall l :: 0 <= l < |s.links| && l in path && ok ==> f in s.links[l].pending;
  }

  /** A confirmation passes link `l`, where the flow is no longer pending afterwards. */
  lemma ConfirmMoves(s: System, f: nat, ok: bool, c: nat)
    requires Structured(s) && f < |s.flows| && s.phases[f] == Settling(ok, c)
    requires Possible(s, Signal(f))
    ensures var s' := Step(s, Signal(f));
            && Moves(s, s', f)
            && f !in s'.links[s.flows[f].path[c]].pending
            && forall m :: 0 <= m < |s.links| && m != s.flows[f].path[c] ==> s'.links[m] == s.links[m]
  {
    var path := s.flows[f].path;
    var l := path[c];
    assert Tracked(s, f);
    ConfirmMembers(s.links[l], f, s.flows[f].rate, ok);
    assert path[c..] == [l] + path[c + 1..];
    assert l !in path[c + 1..];
  }

  /** The links that hold an accepted flow before its confirmation passes link `c`, and after. */
  lemma OneLinkMore(path: seq<nat>, t: nat, c: nat, l: nat)
    requires c < |path|
    ensures t <= c + 1 && l in path[t..c + 1] <==> t <= c && (l in path[t..c] || l == path[c])
  {
    if t <= c { assert path[t..c + 1] == path[t..c] + [path[c]]; }
  }

  /** What a confirmation changes for its flow. */
  lemma ConfirmChanges(s: System, f: nat, ok: bool, c: nat, l: nat)
    requires Structured(s) && f < |s.flows| && s.phases[f] == Settling(ok, c)
    requires Possible(s, Signal(f)) && l < |s.links|
    ensures var s', here := Step(s, Signal(f)), s.flows[f].path[c];
            && SameShape(s, s') && s'.phases[f] == Settling(ok, c + 1) && s'.tears[f] == s.tears[f]
            && c < |s.flows[f].path| && (ok ==> f in s.links[here].pending)
            && (f in s'.links[l].pending <==> f in s.links[l].pending && l != here)
  {
    assert Tracked(s, f);
    ConfirmMoves(s, f, ok, c);
  }

  lemma ConfirmMovesShare(s: System, f: nat, ok: bool, c: nat, l: nat)
    requires Structured(s) && f < |s.flows| && s.phases[f] == Settling(ok, c)
    requires Possible(s, Signal(f)) && Punctual(s, f) && l < |s.links|
    ensures SameShape(s, Step(s, Signal(f)))
    ensures Share(Step(s, Signal(f)), f, l) == if !ok && l == s.flows[f].path[c] then 0.0 else Share(s, f, l)
  {
    ConfirmChanges(s, f, ok, c, l);
    if ok { OneLinkMore(s.flows[f].path, Foremost(s.tears[f]), c, l); }
  }

  /** An accepted flow keeps its rate on the link, a rejected one gives it back if it had any
      there. */
  lemma ConfirmAccounted(s: System, f: nat, ok: bool, c: nat)
    requires Structured(s) && f < |s.flows| && s.phases[f] == Settling(ok, c)
    requires Possible(s, Signal(f)) && Punctual(s, f)
    ensures Accounted(s, Step(s, Signal(f)), f)
  {
    ConfirmMoves(s, f, ok, c);
    assert Tracked(s, f);
    forall l | 0 <= l < |s.links|
      ensures Share(Step(s, Signal(f)), f, l) == if !ok && l == s.flows[f].path[c] then 0.0 else Share(s, f, l)
    {
      ConfirmMovesShare(s, f, ok, c, l);
    }
  }

  /** A stop alone changes no account. */
  lemma StopAccounted(s: System, f: nat)
    requires Structured(s) && Possible(s, Stop(f))
    ensures Accounted(s, Step(s, Stop(f)), f)
    ensures Punctual(s, f) ==> Punctual(Step(s, Stop(f)), f)
  {
    assert Tracked(s, f);
    OneMore(s.tears[f]);
  }

  lemma OneMore(tears: seq<nat>)
    ensures Foremost(tears + [0]) == Foremost(tears)
  {
    var t, t' := Foremost(tears), Foremost(tears + [0]);
    if t > 0 {
      var i :| 0 <= i < |tears| && tears[i] == t;
      assert (tears + [0])[i] == t;
    }
  }

  lemma OneFurther(tears: seq<nat>, i: nat)
    requires i < |tears|
    ensures Foremost(tears[i := tears[i] + 1]) == Max(Foremost(tears), tears[i] + 1)
  {
    var moved := tears[i := tears[i] + 1];
    assert moved[i] == tears[i] + 1;
    if Foremost(tears) > 0 {
      var j :| 0 <= j < |tears| && tears[j] == Foremost(tears);
      assert moved[j] >= tears[j];
    }
  }

  /** A teardown passes its link and leaves all slots alone. */
  lemma TearChanges(s: System, f: nat, i: nat)
    requires Structured(s) && Possible(s, Tear(f, i))
    ensures var s', l := Step(s, Tear(f, i)), s.flows[f].path[s.tears[f][i]];
            && SameShape(s, s') && s'.phases == s.phases && s'.tears[f] == s.tears[f][i := s.tears[f][i] + 1]
            && (forall g :: 0 <= g < |s.flows| && g != f ==> s'.tears[g] == s.tears[g])
            && s'.links[l] == Teardown(s.links[l], s.flows[f].rate)
            && (forall m :: 0 <= m < |s.links| ==>
                  s'.links[m].pending == s.links[m].pending && s'.links[m].cap == s.links[m].cap)
            && (forall m :: 0 <= m < |s.links| && m != l ==> s'.links[m].resv == s.links[m].resv)
  {
  }

  /** The slots say the same about all flows. */
  lemma SameSlotsMove(s: System, s': System, f: nat)
    requires Structured(s) && SameShape(s, s') && s'.phases == s.phases && f < |s.flows|
    requires forall i :: 0 <= i < |s'.tears[f]| ==> s'.tears[f][i] <= |s.flows[f].path|
    requires forall g :: 0 <= g < |s.flows| && g != f ==> s'.tears[g] == s.tears[g]
    requires forall m :: 0 <= m < |s.links| ==>
               s'.links[m].pending == s.links[m].pending && s'.links[m].cap == s.links[m].cap
    ensures Moves(s, s', f)
  {
    assert Tracked(s, f);
  }

  lemma TearMoves(s: System, f: nat, i: nat)
    requires Structured(s) && Possible(s, Tear(f, i))
    ensures Moves(s, Step(s, Tear(f, i)), f)
  {
    assert Tracked(s, f);
    TearChanges(s, f, i);
    SameSlotsMove(s, Step(s, Tear(f, i)), f);
  }

  /** The teardown passes a link where its flow was accepted and confirmed and which no other
      teardown has passed; or it has no rate to give back. */
  predicate Proper(s: System, ev: Event)
    requires Possible(s, ev)
  {
    ev.Tear? ==>
      var k := s.tears[ev.f][ev.i];
      || s.flows[ev.f].rate == 0.0
      || (&& s.phases[ev.f].Settling? && s.phases[ev.f].ok
          && k < s.phases[ev.f].confirmed && Foremost(s.tears[ev.f]) <= k)
  }

  /** The links that hold an accepted flow before its foremost teardown passes link `k`, and
      after. */
  lemma OneLinkLess(path: seq<nat>, k: nat, c: nat, l: nat)
    requires k < c <= |path|
    requires forall i, j :: 0 <= i < j < |path| ==> path[i] != path[j]
    ensures l in path[k..c] <==> l == path[k] || l in path[k + 1..c]
    ensures path[k] !in path[k + 1..c] && path[k] !in path[c..]
  {
    assert path[k..c] == [path[k]] + path[k + 1..c];
  }

  lemma TearTakesShare(s: System, f: nat, i: nat, l: nat)
    requires Structured(s) && Possible(s, Tear(f, i)) && Proper(s, Tear(f, i)) && l < |s.links|
    ensures SameShape(s, Step(s, Tear(f, i)))
    ensures Share(Step(s, Tear(f, i)), f, l) ==
            if l == s.flows[f].path[s.tears[f][i]] then Share(s, f, l) - s.flows[f].rate else Share(s, f, l)
  {
    TearChanges(s, f, i);
    if s.flows[f].rate != 0.0 {
      var path, k, c := s.flows[f].path, s.tears[f][i], s.phases[f].confirmed;
      OneFurther(s.tears[f], i);
      assert Tracked(s, f);
      OneLinkLess(path, k, c, l);
      assert Foremost(s.tears[f]) == k && Foremost(Step(s, Tear(f, i)).tears[f]) == k + 1;
    }
  }

  /** A proper teardown takes exactly the share of its flow. */
  lemma TearAccounted(s: System, f: nat, i: nat)
    requires Structured(s) && Possible(s, Tear(f, i)) && Proper(s, Tear(f, i))
    ensures Accounted(s, Step(s, Tear(f, i)), f) && Punctual(Step(s, Tear(f, i)), f)
  {
    TearMoves(s, f, i);
    TearChanges(s, f, i);
    assert Tracked(s, f);
    forall l | 0 <= l < |s.links|
      ensures Share(Step(s, Tear(f, i)), f, l) ==
              if l == s.flows[f].path[s.tears[f][i]] then Share(s, f, l) - s.flows[f].rate else Share(s, f, l)
    {
      TearTakesShare(s, f, i, l);
    }
  }

  /** Any other leaves the share as it was. */
  lemma ImproperTearTakesNoShare(s: System, f: nat, i: nat, l: nat)
    requires Structured(s) && Possible(s, Tear(f, i)) && !Proper(s, Tear(f, i)) && l < |s.links|
    ensures Structured(Step(s, Tear(f, i)))
    ensures Share(Step(s, Tear(f, i)), f, l) == Share(s, f, l)
  {
    TearMoves(s, f, i);
    MovesKeepsStructure(s, Step(s, Tear(f, i)), f);
    TearChanges(s, f, i);
    OneFurther(s.tears[f], i);
  }

  /** And so it leaves its link with less reserved than its flows hold. */
  lemma ImproperTeardownBreaks(s: System, f: nat, i: nat)
    requires Structured(s) && Conserved(s) && Possible(s, Tear(f, i)) && !Proper(s, Tear(f, i))
    ensures var s', l := Step(s, Tear(f, i)), s.flows[f].path[s.tears[f][i]];
            && Structured(s') && s'.links[l].resv == Held(s', l, |s'.flows|) - s.flows[f].rate
            && !Conserved(s')
  {
    var s', l := Step(s, Tear(f, i)), s.flows[f].path[s.tears[f][i]];
    TearMoves(s, f, i);
    ImproperTearTakesNoShare(s, f, i, l);
    HeldAfter(s, s', f, l, |s.flows|);
    assert Tracked(s, f);
  }

  /** Signals are accounted for, except that a teardown may have come before the outcome. */
  lemma SignalMoves(s: System, f: nat)
    requires Structured(s) && Possible(s, Signal(f))
    ensures Moves(s, Step(s, Signal(f)), f)
    ensures Punctual(s, f) ==> Accounts(s, Step(s, Signal(f)), f) && Punctual(Step(s, Signal(f)), f)
  {
    assert Tracked(s, f);
    match s.phases[f] {
      case Idle =>
      case Asking(at, ok) =>
        if at < |s.flows[f].path| { RequestAccounted(s, f, at, ok); } else { AnswerAccounted(s, f, ok); }
      case Settling(ok, c) =>
        ConfirmMoves(s, f, ok, c);
        if Punctual(s, f) { ConfirmAccounted(s, f, ok, c); }
    }
  }

  lemma StepKeepsStructure(s: System, ev: Event)
    requires Structured(s) && Possible(s, ev)
    ensures Structured(Step(s, ev)) && SameShape(s, Step(s, ev))
    ensures forall l :: 0 <= l < |s.links| ==> Step(s, ev).links[l].cap == s.links[l].cap
  {
    match ev {
      case Signal(f) => SignalMoves(s, f);
      case Stop(f) => StopAccounted(s, f);
      case Tear(f, i) => TearMoves(s, f, i);
    }
    MovesKeepsStructure(s, Step(s, ev), ev.f);
  }

  lemma StepKeepsInv(s: System, ev: Event)
    requires Inv(s) && Possible(s, ev) && Proper(s, ev)
    ensures Inv(Step(s, ev))
  {
    assert Punctual(s, ev.f);
    match ev {
      case Signal(f) => SignalMoves(s, f);
      case Stop(f) => StopAccounted(s, f);
      case Tear(f, i) => TearAccounted(s, f, i);
    }
    AccountedKeepsInv(s, Step(s, ev), ev.f);
  }

  // ---------- Runs ----------

  lemma {:induction false} NothingHeld(s: System, l: nat, n: nat)
    requires Initial(s) && l < |s.links| && n <= |s.flows|
    ensures Held(s, l, n) == 0.0
    decreases n
  {
    if n > 0 { NothingHeld(s, l, n - 1); }
  }

  lemma InitialIsConserved(s: System)
    requires Initial(s)
    ensures Inv(s)
  {
    forall l | 0 <= l < |s.links| ensures s.links[l].resv == Held(s, l, |s.flows|) {
      NothingHeld(s, l, |s.flows|);
    }
  }

  lemma {:induction false} RunKeepsStructure(s: System, evs: seq<Event>)
    requires Initial(s)
    ensures Structured(Run(s, evs)) && SameShape(s, Run(s, evs))
    ensures forall l :: 0 <= l < |s.links| ==> Run(s, evs).links[l].cap == s.links[l].cap
    decreases |evs|
  {
    if evs == [] {
      InitialIsConserved(s);
    } else {
      var s' := Run(s, evs[..|evs| - 1]);
      RunKeepsStructure(s, evs[..|evs| - 1]);
      if Possible(s', evs[|evs| - 1]) { StepKeepsStructure(s', evs[|evs| - 1]); }
    }
  }

  /** The accounts were right at every moment. */
  ghost predicate AlwaysConserved(s: System, evs: seq<Event>)
    decreases |evs|
  {
    Conserved(Run(s, evs)) && (evs != [] ==> AlwaysConserved(s, evs[..|evs| - 1]))
  }

  /** Teardowns only passed links where their flow held its rate by an acceptance. */
  predicate OnlyProper(s: System, evs: seq<Event>)
    decreases |evs|
  {
    evs != [] ==>
      var before, ev := evs[..|evs| - 1], evs[|evs| - 1];
      OnlyProper(s, before) && (Possible(Run(s, before), ev) ==> Proper(Run(s, before), ev))
  }

  lemma {:induction false} RunKeepsInv(s: System, evs: seq<Event>)
    requires Initial(s) && OnlyProper(s, evs)
    ensures Inv(Run(s, evs))
    decreases |evs|
  {
    if evs == [] {
      InitialIsConserved(s);
    } else {
      var s' := Run(s, evs[..|evs| - 1]);
      RunKeepsInv(s, evs[..|evs| - 1]);
      if Possible(s', evs[|evs| - 1]) { StepKeepsInv(s', evs[|evs| - 1]); }
    }
  }

  // ---------- Conservation ----------

  /** Over any interleaving of any number of flows, as long as all teardowns are proper, the
      rate reserved on a link is the sum of the rates of its pending and accepted flows, and
      never exceeds what may be reserved. */
  lemma ReservedIsHeld(s: System, evs: seq<Event>, l: nat)
    requires Initial(s) && l < |s.links| && OnlyProper(s, evs)
    ensures SameShape(s, Run(s, evs))
    ensures Run(s, evs).links[l].resv == Held(Run(s, evs), l, |s.flows|)
    ensures Run(s, evs).links[l].resv <= s.links[l].cap
  {
    RunKeepsStructure(s, evs);
    RunKeepsInv(s, evs);
  }

  /** For all runs: the accounts of all links are right at every moment if and only if no flow
      with a rate is torn down on a link where it was rejected, where its outcome is not known
      yet, or where it was torn down before. */
  lemma {:induction false} ConservedExactly(s: System, evs: seq<Event>)
    requires Initial(s)
    ensures AlwaysConserved(s, evs) <==> OnlyProper(s, evs)
    decreases |evs|
  {
    if evs == [] {
      InitialIsConserved(s);
    } else {
      var before, ev := evs[..|evs| - 1], evs[|evs| - 1];
      ConservedExactly(s, before);
      if OnlyProper(s, before) {
        RunKeepsInv(s, before);
        if Possible(Run(s, before), ev) {
          if Proper(Run(s, before), ev) {
            StepKeepsInv(Run(s, before), ev);
          } else {
            ImproperTeardownBreaks(Run(s, before), ev.f, ev.i);
          }
        }
      }
    }
  }

  /** In every run, whoever is stopped, when and how often: a flow rejected anywhere holds
      nothing on any link once its confirmation has passed; an accepted one that is not stopped
      holds its rate on exactly the links of its path; once a teardown has passed them all,
      nothing. */
  lemma OutcomeReachesAllLinks(s: System, evs: seq<Event>, f: nat, ok: bool, l: nat)
    requires Initial(s) && f < |s.flows| && l < |s.links|
    requires f < |Run(s, evs).phases| && Run(s, evs).phases[f] == Settling(ok, |s.flows[f].path|)
    ensures SameShape(s, Run(s, evs))
    ensures f !in Run(s, evs).links[l].pending
    ensures !ok ==> !Holds(Run(s, evs), f, l)
    ensures ok && Run(s, evs).tears[f] == [] ==> (Holds(Run(s, evs), f, l) <==> l in s.flows[f].path)
    ensures |s.flows[f].path| in Run(s, evs).tears[f] ==> !Holds(Run(s, evs), f, l)
  {
    RunKeepsStructure(s, evs);
    assert Tracked(Run(s, evs), f);
    assert s.flows[f].path[0..|s.flows[f].path|] == s.flows[f].path;
  }

  // ---------- Who is admitted ----------

  /** A link admits a flow if and only if what its flows hold leaves room for its rate. It then
      reserves that rate and keeps a slot for the flow until the outcome is known; otherwise it
      stays as it is, and the flow will be rejected. */
  lemma AdmittedExactly(s: System, f: nat, at: nat, ok: bool)
    requires Inv(s) && Possible(s, Signal(f)) && s.phases[f] == Asking(at, ok) && at < |s.flows[f].path|
    ensures var s', l, rate := Step(s, Signal(f)), s.flows[f].path[at], s.flows[f].rate;
            var fits := Held(s, l, |s.flows|) + rate <= s.links[l].cap;
            && s'.flows == s.flows && s'.tears == s.tears && |s'.links| == |s.links|
            && s'.phases == s.phases[f := Asking(at + 1, ok && fits)]
            && (forall m :: 0 <= m < |s.links| && m != l ==> s'.links[m] == s.links[m])
            && if fits then s'.links[l].resv == Held(s, l, |s.flows|) + rate && f in s'.links[l].pending
               else s'.links[l] == s.links[l]
  {
    assert Tracked(s, f);
    var l := s.flows[f].path[at];
    if Admits(s.links[l], s.flows[f].rate) {
      assert Request(s.links[l], f, s.flows[f].rate).pending[Slot(s.links[l].pending, FREE)] == f;
    }
  }

  /** At the end of the path the outcome is known: the flow is accepted if and only if no link
      had to refuse it. */
  lemma OutcomeKnown(s: System, f: nat, ok: bool)
    requires Possible(s, Signal(f)) && s.phases[f] == Asking(|s.flows[f].path|, ok)
    ensures Step(s, Signal(f)) == s.(phases := s.phases[f := Settling(ok, 0)])
  {
  }

  /** The confirmation frees the slot of its flow on each link of the path, and a rejection also
      gives back the rate where the flow had a slot. */
  lemma ConfirmationPasses(s: System, f: nat, ok: bool, c: nat)
    requires Structured(s) && Possible(s, Signal(f)) && s.phases[f] == Settling(ok, c)
    ensures var s', l := Step(s, Signal(f)), s.flows[f].path[c];
            && s'.flows == s.flows && s'.tears == s.tears && |s'.links| == |s.links|
            && s'.phases == s.phases[f := Settling(ok, c + 1)]
            && (forall m :: 0 <= m < |s.links| && m != l ==> s'.links[m] == s.links[m])
            && f !in s'.links[l].pending
            && (forall g: nat :: g != f ==> (g in s'.links[l].pending <==> g in s.links[l].pending))
            && s'.links[l].resv == s.links[l].resv - if !ok && f in s.links[l].pending then s.flows[f].rate else 0.0
  {
    ConfirmMembers(s.links[s.flows[f].path[c]], f, s.flows[f].rate, ok);
  }

  // ---------- Flows that are stopped when they should not be ----------

  /** A link that may reserve 5, one that may reserve 10, and two flows that each ask for 10. */
  const SMALL: Link := Link(5.0, 0.0, seq(NFLOWS, _ => FREE))
  const ROOMY: Link := Link(10.0, 0.0, seq(NFLOWS, _ => FREE))
  const TWO: seq<Flow> := [Flow([0], 10.0), Flow([0], 10.0)]

  /** The phase and teardowns of the first flow, the phase of the second, and the link. */
  function At(first: Phase, tears: seq<nat>, second: Phase, link: Link): System {
    System(TWO, [first, second], [tears, []], [link])
  }

  lemma RunMore(s: System, evs: seq<Event>, before: System, ev: Event, after: System)
    requires Run(s, evs) == before && Possible(before, ev) && Step(before, ev) == after
    ensures Run(s, evs + [ev]) == after
  {
    assert (evs + [ev])[..|evs|] == evs;
  }

  /** The first flow is stopped, and its teardown passes the link. */
  lemma FirstIsStopped(phase: Phase, link: Link)
    ensures var s, sent := At(phase, [], Idle, link), At(phase, [0], Idle, link);
            && Possible(s, Stop(0)) && Step(s, Stop(0)) == sent
            && Possible(sent, Tear(0, 0))
            && Step(sent, Tear(0, 0)) == At(phase, [1], Idle, Teardown(link, 10.0))
  {
    assert [] + [0] == [0];
    assert [0][0 := 1] == [1];
  }

  const ASKED: seq<Event> := [] + [Signal(0)] + [Signal(0)]
  const SETTLED: seq<Event> := ASKED + [Signal(0)] + [Signal(0)]

  lemma AskedRun(link: Link)
    requires !Exits(link, 10.0)
    ensures Run(At(Idle, [], Idle, link), ASKED) == At(Asking(1, Admits(link, 10.0)), [], Idle, Request(link, 0, 10.0))
  {
    var s, sent := At(Idle, [], Idle, link), At(Asking(0, true), [], Idle, link);
    RunMore(s, [], s, Signal(0), sent);
    RunMore(s, [] + [Signal(0)], sent, Signal(0), At(Asking(1, Admits(link, 10.0)), [], Idle, Request(link, 0, 10.0)));
  }

  lemma SettledRun(link: Link)
    requires !Exits(link, 10.0)
    ensures Run(At(Idle, [], Idle, link), SETTLED) ==
            At(Settling(Admits(link, 10.0), 1), [], Idle, Confirm(Request(link, 0, 10.0), 0, 10.0, Admits(link, 10.0)))
  {
    var s, ok, asked := At(Idle, [], Idle, link), Admits(link, 10.0), Request(link, 0, 10.0);
    AskedRun(link);
    RunMore(s, ASKED, At(Asking(1, ok), [], Idle, asked), Signal(0), At(Settling(ok, 0), [], Idle, asked));
    RunMore(s, ASKED + [Signal(0)], At(Settling(ok, 0), [], Idle, asked), Signal(0),
            At(Settling(ok, 1), [], Idle, Confirm(asked, 0, 10.0, ok)));
  }

  lemma StoppedRun(link: Link, evs: seq<Event>, phase: Phase, now: Link)
    requires Run(At(Idle, [], Idle, link), evs) == At(phase, [], Idle, now)
    ensures Run(At(Idle, [], Idle, link), evs + [Stop(0)] + [Tear(0, 0)]) == At(phase, [1], Idle, Teardown(now, 10.0))
  {
    var s := At(Idle, [], Idle, link);
    FirstIsStopped(phase, now);
    RunMore(s, evs, At(phase, [], Idle, now), Stop(0), At(phase, [0], Idle, now));
    RunMore(s, evs + [Stop(0)], At(phase, [0], Idle, now), Tear(0, 0), At(phase, [1], Idle, Teardown(now, 10.0)));
  }

  /** What is held on the link, if the second flow does not hold anything. */
  lemma HeldByFirst(first: Phase, tears: seq<nat>, link: Link)
    requires 1 !in link.pending
    ensures var s := At(first, tears, Idle, link); Held(s, 0, 2) == if Holds(s, 0, 0) then 10.0 else 0.0
  {
    assert Held(At(first, tears, Idle, link), 0, 1) == if Holds(At(first, tears, Idle, link), 0, 0) then 10.0 else 0.0;
  }

  /** The link after a rejected flow is stopped: it owes 10. */
  const OWING: Link := SMALL.(resv := -10.0)

  /** It then lets the second flow in. */
  lemma SecondIsAdmitted()
    ensures !Exits(OWING, 10.0)
    ensures var s, sent := At(Settling(false, 1), [1], Idle, OWING), At(Settling(false, 1), [1], Asking(0, true), OWING);
            && Possible(s, Signal(1)) && Step(s, Signal(1)) == sent
            && Possible(sent, Signal(1))
            && Step(sent, Signal(1)) == At(Settling(false, 1), [1], Asking(1, true), Request(OWING, 1, 10.0))
  {
    assert OWING.pending[0] == FREE;
  }

  lemma SecondHolds()
    requires !Exits(OWING, 10.0)
    ensures Held(At(Settling(false, 1), [1], Asking(1, true), Request(OWING, 1, 10.0)), 0, 2) == 10.0
  {
    var s := At(Settling(false, 1), [1], Asking(1, true), Request(OWING, 1, 10.0));
    RequestMembers(OWING, 1, 10.0);
    assert Holds(s, 1, 0) && !Holds(s, 0, 0);
    assert Held(s, 0, 1) == 0.0;
  }

  lemma StoppedReject()
    ensures var s := At(Idle, [], Idle, SMALL);
            Run(s, SETTLED + [Stop(0)] + [Tear(0, 0)]) == At(Settling(false, 1), [1], Idle, OWING)
  {
    assert !Admits(SMALL, 10.0) && 0 !in SMALL.pending;
    SettledRun(SMALL);
    StoppedRun(SMALL, SETTLED, Settling(false, 1), SMALL);
  }

  lemma SecondRun(s: System, evs: seq<Event>)
    requires Run(s, evs) == At(Settling(false, 1), [1], Idle, OWING)
    ensures !Exits(OWING, 10.0)
    ensures Run(s, evs + [Signal(1)] + [Signal(1)])
         == At(Settling(false, 1), [1], Asking(1, true), Request(OWING, 1, 10.0))
  {
    SecondIsAdmitted();
    var sent := At(Settling(false, 1), [1], Asking(0, true), OWING);
    RunMore(s, evs, At(Settling(false, 1), [1], Idle, OWING), Signal(1), sent);
    RunMore(s, evs + [Signal(1)], sent, Signal(1),
            At(Settling(false, 1), [1], Asking(1, true), Request(OWING, 1, 10.0)));
  }

  /** A rejected flow is stopped, and in the end the link holds twice what it may reserve. */
  lemma StoppedRejectOvercommits()
    ensures var s, stopped := At(Idle, [], Idle, SMALL), SETTLED + [Stop(0)] + [Tear(0, 0)];
            && Initial(s) && !Conserved(Run(s, stopped))
            && var s' := Run(s, stopped + [Signal(1)] + [Signal(1)]);
               SameShape(s, s') && Held(s', 0, 2) == 10.0 > s.links[0].cap
  {
    StoppedReject();
    HeldByFirst(Settling(false, 1), [1], OWING);
    SecondRun(At(Idle, [], Idle, SMALL), SETTLED + [Stop(0)] + [Tear(0, 0)]);
    SecondHolds();
  }

  /** A flow is stopped while its answer is on the way back: its link has nothing reserved,
      and the flow is still to be accepted. */
  lemma StoppedEarlyBreaks()
    ensures var s, evs := At(Idle, [], Idle, ROOMY), ASKED + [Stop(0)] + [Tear(0, 0)];
            && Initial(s) && SameShape(s, Run(s, evs))
            && Run(s, evs).phases[0] == Asking(1, true)
            && Run(s, evs).links[0].resv == 0.0 && Held(Run(s, evs), 0, 2) == 10.0
  {
    assert ROOMY.pending[0] == FREE;
    var asked := Request(ROOMY, 0, 10.0);
    AskedRun(ROOMY);
    StoppedRun(ROOMY, ASKED, Asking(1, true), asked);
    RequestMembers(ROOMY, 0, 10.0);
    HeldByFirst(Asking(1, true), [1], Teardown(asked, 10.0));
  }

  /** The link after its only flow was accepted. */
  const TAKEN: Link := ROOMY.(resv := 10.0)

  lemma FirstIsAccepted()
    ensures !Exits(ROOMY, 10.0) && Confirm(Request(ROOMY, 0, 10.0), 0, 10.0, true) == TAKEN
  {
    assert ROOMY.pending[0] == FREE;
    assert ROOMY.pending[0 := 0][0 := FREE] == ROOMY.pending;
  }

  /** An accepted flow is stopped, and holds nothing any more. */
  lemma StoppedOnce()
    ensures var s := At(Idle, [], Idle, ROOMY);
            Run(s, SETTLED + [Stop(0)] + [Tear(0, 0)]) == At(Settling(true, 1), [1], Idle, ROOMY)
  {
    FirstIsAccepted();
    SettledRun(ROOMY);
    StoppedRun(ROOMY, SETTLED, Settling(true, 1), TAKEN);
  }

  lemma StoppedAgain(s: System, evs: seq<Event>)
    requires Run(s, evs) == At(Settling(true, 1), [1], Idle, ROOMY)
    ensures Run(s, evs + [Stop(0)] + [Tear(0, 1)]) == At(Settling(true, 1), [1, 1], Idle, Teardown(ROOMY, 10.0))
  {
    assert [1] + [0] == [1, 0] && [1, 0][1 := 1] == [1, 1];
    RunMore(s, evs, At(Settling(true, 1), [1], Idle, ROOMY), Stop(0), At(Settling(true, 1), [1, 0], Idle, ROOMY));
    RunMore(s, evs + [Stop(0)], At(Settling(true, 1), [1, 0], Idle, ROOMY), Tear(0, 1),
            At(Settling(true, 1), [1, 1], Idle, Teardown(ROOMY, 10.0)));
  }

  /** An accepted flow is stopped twice: the accounts are right after the first teardown, and
      after the second the link owes the rate of the flow. */
  lemma StoppedTwiceBreaks()
    ensures var s, once := At(Idle, [], Idle, ROOMY), SETTLED + [Stop(0)] + [Tear(0, 0)];
            && Initial(s) && Conserved(Run(s, once)) && Run(s, once).phases == [Settling(true, 1), Idle]
            && var s' := Run(s, once + [Stop(0)] + [Tear(0, 1)]);
               SameShape(s, s') && s'.links[0].resv == -10.0 && Held(s', 0, 2) == 0.0
  {
    StoppedOnce();
    HeldByFirst(Settling(true, 1), [1], ROOMY);
    StoppedAgain(At(Idle, [], Idle, ROOMY), SETTLED + [Stop(0)] + [Tear(0, 0)]);
    HeldByFirst(Settling(true, 1), [1, 1], Teardown(ROOMY, 10.0));
  }
}
