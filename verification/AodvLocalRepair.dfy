/**
 Local repair and loops.  An abandoned repair takes a route down under its old, even
 sequence number, so the node may accept a route that leads back through itself.  The run
 below shows that happening; together with `LoopFreedom` it decides which builds are loop
 free.
 */
module AodvLocalRepair {
  import opened AodvModel
  import opened AodvLoopFreedom

  const NODES: set<Addr> := {0, 1, 2, 3}

  // Node 3 looks for node 0 along the chain 3 - 2 - 1 - 0.
  const ASK3: Msg := Rreq(3, 30, 3, 4, 1, 0, 0, 1)
  const ASK2: Msg := Rreq(2, 29, 3, 4, 2, 0, 0, 1)
  const ASK1: Msg := Rreq(1, 28, 3, 4, 3, 0, 0, 1)
  const TELL0: Msg := Rrep(0, 30, 3, 1, 0, 4, 1)
  const TELL1: Msg := Rrep(1, 29, 3, 2, 0, 4, 2)
  // Node 1 tries to repair its route and is answered by node 2, which relies on node 1.
  const REPAIR1: Msg := Rreq(1, 30, 1, 4, 1, 0, 4, 1)
  const TELL2: Msg := Rrep(2, 30, 1, 1, 0, 4, 3)

  // What the nodes go through.
  const ASKING3: Node := Node(4, 2, map[0 := Entry(0, 255, 0, Down, 255, 30, 1, {})], {}, {})
  const HEARD2: Node := Node(2, 1, map[3 := Entry(4, 1, 3, Up, 255, 0, 0, {})], {(3, 1)}, {})
  const HEARD1: Node := Node(2, 1, map[3 := Entry(4, 2, 2, Up, 255, 0, 0, {})], {(3, 1)}, {})
  const HEARD0: Node := Node(4, 1, map[3 := Entry(4, 3, 1, Up, 255, 0, 0, {})], {(3, 1)}, {})
  const ROUTED1: Node := HEARD1.(table := HEARD1.table[0 := Entry(4, 1, 0, Up, 255, 1, 0, {2})])
  const ROUTED2: Node := HEARD2.(table := HEARD2.table[0 := Entry(4, 2, 1, Up, 255, 2, 0, {3})])
  const REPAIRING1: Node :=
    Node(4, 2, HEARD1.table[0 := Entry(4, 1, 0, InRepair, 255, 30, 1, {2})], {(3, 1)}, {})
  const ABANDONED1: Node := REPAIRING1.(table := HEARD1.table[0 := Entry(4, 255, 0, Down, 1, 30, 1, {2})])
  const HELPING2: Node :=
    Node(2, 1,
         map[3 := Entry(4, 1, 3, Up, 255, 0, 0, {}),
             0 := Entry(4, 2, 1, Up, 255, 2, 0, {3, 1}),
             1 := Entry(4, 1, 1, Up, 255, 0, 0, {1})],
         {(3, 1), (1, 1)}, {})
  const LOOPING1: Node := REPAIRING1.(table := HEARD1.table[0 := Entry(4, 3, 2, Up, 1, 3, 0, {2})])

  lemma Discovery()
    ensures React(INITIAL_NODE, Resolve(3, 0, true, false)) == Outcome(ASKING3, {ASK3})
    ensures React(INITIAL_NODE, Deliver(2, ASK3, false)) == Outcome(HEARD2, {ASK2})
    ensures React(INITIAL_NODE, Deliver(1, ASK2, false)) == Outcome(HEARD1, {ASK1})
    ensures React(INITIAL_NODE, Deliver(0, ASK1, false)) == Outcome(HEARD0, {TELL0})
    ensures React(HEARD1, Deliver(1, TELL0, false)) == Outcome(ROUTED1, {TELL1})
    ensures React(HEARD2, Deliver(2, TELL1, false)).node == ROUTED2
  {
    assert {} + {2} == {2} && {} + {3} == {3};
    assert React(HEARD1, Deliver(1, TELL0, false)).node.table == ROUTED1.table;
    assert React(HEARD2, Deliver(2, TELL1, false)).node.table == ROUTED2.table;
  }

  lemma RepairAttempt()
    ensures React(ROUTED1, Repair(1, 0, 0, 2, false)) == Outcome(REPAIRING1, {REPAIR1})
    ensures React(REPAIRING1, RepairExpires(1, 0)) == Outcome(ABANDONED1, {})
  {
  }

  lemma RepairAnswered()
    ensures React(ROUTED2, Deliver(2, REPAIR1, false)) == Outcome(HELPING2, {TELL2})
  {
    assert {} + {1} == {1} && {3} + {1} == {3, 1};
    assert React(ROUTED2, Deliver(2, REPAIR1, false)).node.table == HELPING2.table;
  }

  lemma AnswerBelieved()
    ensures React(ABANDONED1, Deliver(1, TELL2, false)) == Outcome(LOOPING1, {})
  {
  }

  lemma Advance(evs: seq<Event>, ev: Event, s: System, n: Node, o: Outcome) returns (s': System)
    requires Run(NODES, evs) == s && Enabled(s, ev)
    requires s.nodes[ev.at] == n && React(n, ev) == o
    ensures s' == Apply(s, ev.at, o) && s' == Run(NODES, evs + [ev])
  {
    s' := Step(s, ev);
  }

  /** Node 3 has found its way to node 0 through nodes 2 and 1. */
  lemma DiscoveryRun() returns (evs: seq<Event>, s: System)
    ensures s == Run(NODES, evs)
    ensures 1 in s.nodes && s.nodes[1] == ROUTED1 && 2 in s.nodes && s.nodes[2] == ROUTED2
  {
    Discovery();
    evs := [];
    s := Init(NODES);
    s := Advance(evs, Resolve(3, 0, true, false), s, INITIAL_NODE, Outcome(ASKING3, {ASK3}));
    evs := evs + [Resolve(3, 0, true, false)];
    s := Advance(evs, Deliver(2, ASK3, false), s, INITIAL_NODE, Outcome(HEARD2, {ASK2}));
    evs := evs + [Deliver(2, ASK3, false)];
    s := Advance(evs, Deliver(1, ASK2, false), s, INITIAL_NODE, Outcome(HEARD1, {ASK1}));
    evs := evs + [Deliver(1, ASK2, false)];
    s := Advance(evs, Deliver(0, ASK1, false), s, INITIAL_NODE, Outcome(HEARD0, {TELL0}));
    evs := evs + [Deliver(0, ASK1, false)];
    s := Advance(evs, Deliver(1, TELL0, false), s, HEARD1, Outcome(ROUTED1, {TELL1}));
    evs := evs + [Deliver(1, TELL0, false)];
    s := Advance(evs, Deliver(2, TELL1, false), s, HEARD2, React(HEARD2, Deliver(2, TELL1, false)));
    evs := evs + [Deliver(2, TELL1, false)];
  }

  lemma MutualForwarding(s: System, d: Addr, a: Addr, b: Addr)
    requires Forwards(s.nodes, d, a, b) && Forwards(s.nodes, d, b, a)
    ensures !LoopFree(s)
  {
    assert Cycle(s.nodes, d, [a, b, a]);
  }

  /** Node 1 abandons its repair, and nodes 1 and 2 end up forwarding packets for node 0 to
      each other. */
  lemma AbandonedRepairLoops() returns (evs: seq<Event>)
    ensures !LoopFree(Run(NODES, evs))
  {
    var s;
    evs, s := DiscoveryRun();
    RepairAttempt();
    RepairAnswered();
    AnswerBelieved();
    s := Advance(evs, Repair(1, 0, 0, 2, false), s, ROUTED1, Outcome(REPAIRING1, {REPAIR1}));
    evs := evs + [Repair(1, 0, 0, 2, false)];
    s := Advance(evs, RepairExpires(1, 0), s, REPAIRING1, Outcome(ABANDONED1, {}));
    evs := evs + [RepairExpires(1, 0)];
    s := Advance(evs, Deliver(2, REPAIR1, false), s, ROUTED2, Outcome(HELPING2, {TELL2}));
    evs := evs + [Deliver(2, REPAIR1, false)];
    s := Advance(evs, Deliver(1, TELL2, false), s, ABANDONED1, Outcome(LOOPING1, {}));
    evs := evs + [Deliver(1, TELL2, false)];
    MutualForwarding(s, 0, 1, 2);
  }

  /** The runs a build allows: `localRepair` is the switch AODV_LOCAL_REPAIR. */
  predicate Allowed(localRepair: bool, evs: seq<Event>) {
    localRepair || RepairOff(evs)
  }

  ghost predicate AlwaysLoopFree(localRepair: bool) {
    forall addrs, evs :: Allowed(localRepair, evs) ==> LoopFree(Run(addrs, evs))
  }

  /** Exactly the build without local repair is free of routing loops. */
  lemma LoopFreeExactlyWithoutLocalRepair(localRepair: bool)
    ensures AlwaysLoopFree(localRepair) <==> !localRepair
  {
    if localRepair {
      var evs := AbandonedRepairLoops();
      assert Allowed(localRepair, evs);
    } else {
      forall addrs, evs | Allowed(localRepair, evs)
        ensures LoopFree(Run(addrs, evs))
      {
        RepairOffNeverAbandons(addrs, evs);
        LoopFreedom(addrs, evs);
      }
    }
  }
}
