/**
 How long an AODV route can claim to be, and what follows for the 8-bit hop count fields
 and for the assertions that a usable route never shows the value `INFINITY2`.

 A request spreads at most `NETWORK_DIAMETER` hops.  A reply lengthens a claim by one hop
 at a node that did not have an entry as good before, so every further hop is paid for by
 one more node in the set `Reached`, which never shrinks.
 */
module AodvHopBound {
  import opened AodvModel
  import opened AodvLoopFreedom

  /** The nodes whose entry for `d` is at least as good as (`seqno`, `hops`). */
  ghost function Reached(nodes: map<Addr, Node>, d: Addr, seqno: nat, hops: int): set<Addr> {
    set i | i in nodes && AtLeast(EntryOf(nodes, i, d), seqno, hops)
  }

  ghost predicate InUse(e: Entry) {
    e.hops != INFINITY2 || e.flag == Up
  }

  /** The claim (`seqno`, `hops`) is paid for. */
  ghost predicate Paid(nodes: map<Addr, Node>, d: Addr, seqno: nat, hops: int) {
    hops <= NETWORK_DIAMETER + |Reached(nodes, d, seqno, hops)|
  }

  ghost predicate RoutesPaid(nodes: map<Addr, Node>) {
    forall i, d :: i in nodes && d in nodes[i].table && InUse(nodes[i].table[d]) ==>
      Paid(nodes, d, nodes[i].table[d].seqno, nodes[i].table[d].hops)
  }

  ghost predicate AdvertsPaid(s: System) {
    forall m, a :: m in s.msgs && a in AdvertsOf(m) ==> Paid(s.nodes, a.dst, a.seqno, a.hops - 1)
  }

  ghost predicate HopInv(s: System) {
    Inv(s) && RoutesPaid(s.nodes) && AdvertsPaid(s)
  }

  lemma SubsetSize<T>(a: set<T>, b: set<T>)
    requires a <= b
    ensures |a| <= |b|
  {
    assert b == a + (b - a);
  }

  lemma ReachedGrows(s: System, at: Addr, o: Outcome, heard: set<Advert>, d: Addr, seqno: nat, hops: int)
    requires at in s.nodes && Legal(at, s.nodes[at], o, heard)
    ensures Reached(s.nodes, d, seqno, hops) <= Reached(Apply(s, at, o).nodes, d, seqno, hops)
  {
    forall i | i in Reached(s.nodes, d, seqno, hops)
      ensures i in Reached(Apply(s, at, o).nodes, d, seqno, hops)
    {
      EntriesImprove(s, at, o, heard, i, d);
    }
  }

  lemma PaidStays(s: System, at: Addr, o: Outcome, heard: set<Advert>, d: Addr, seqno: nat, hops: int)
    requires at in s.nodes && Legal(at, s.nodes[at], o, heard) && Paid(s.nodes, d, seqno, hops)
    ensures Paid(Apply(s, at, o).nodes, d, seqno, hops)
  {
    ReachedGrows(s, at, o, heard, d, seqno, hops);
    SubsetSize(Reached(s.nodes, d, seqno, hops), Reached(Apply(s, at, o).nodes, d, seqno, hops));
  }

  /** The node that adopts a claim is new among those that reach it. */
  lemma AdoptionPays(s: System, at: Addr, o: Outcome, heard: set<Advert>, d: Addr)
    requires at in s.nodes && Legal(at, s.nodes[at], o, heard) && d in o.node.table
    requires Adopted(Lookup(s.nodes[at].table, d), o.node.table[d], d, heard)
    requires Paid(s.nodes, d, o.node.table[d].seqno, o.node.table[d].hops - 1)
    ensures Paid(Apply(s, at, o).nodes, d, o.node.table[d].seqno, o.node.table[d].hops)
  {
    var e, nodes' := o.node.table[d], Apply(s, at, o).nodes;
    var before := Reached(s.nodes, d, e.seqno, e.hops - 1);
    var after := Reached(nodes', d, e.seqno, e.hops);
    ReachedGrows(s, at, o, heard, d, e.seqno, e.hops - 1);
    assert at in after && at !in before;
    SubsetSize(before + {at}, after);
  }

  lemma LegalKeepsRoutesPaid(s: System, at: Addr, o: Outcome, heard: set<Advert>)
    requires RoutesPaid(s.nodes) && at in s.nodes && Legal(at, s.nodes[at], o, heard)
    requires forall a :: a in heard ==> Paid(s.nodes, a.dst, a.seqno, a.hops - 1)
    ensures RoutesPaid(Apply(s, at, o).nodes)
  {
    var nodes' := Apply(s, at, o).nodes;
    forall i, d | i in nodes' && d in nodes'[i].table && InUse(nodes'[i].table[d])
      ensures Paid(nodes', d, nodes'[i].table[d].seqno, nodes'[i].table[d].hops)
    {
      var e := nodes'[i].table[d];
      var e0 := EntryOf(s.nodes, i, d);
      if i == at && !Kept(e0, e) {
        assert Adopted(e0, e, d, heard) || Dropped(e0, e);
        assert Advert(e.nexthop, d, e.seqno, e.hops) in heard;
        AdoptionPays(s, at, o, heard, d);
      } else {
        assert InUse(e0) && e0.seqno == e.seqno && e0.hops == e.hops;
        PaidStays(s, at, o, heard, d, e.seqno, e.hops);
      }
    }
  }

  lemma LegalKeepsHopInv(s: System, at: Addr, o: Outcome, heard: set<Advert>)
    requires HopInv(s) && at in s.nodes && Legal(at, s.nodes[at], o, heard)
    requires forall a :: a in heard ==> Backed(s.nodes, a) && Paid(s.nodes, a.dst, a.seqno, a.hops - 1)
    ensures HopInv(Apply(s, at, o))
  {
    LegalKeepsInv(s, at, o, heard);
    LegalKeepsRoutesPaid(s, at, o, heard);
    var s' := Apply(s, at, o);
    forall m, a | m in s'.msgs && a in AdvertsOf(m)
      ensures Paid(s'.nodes, a.dst, a.seqno, a.hops - 1)
    {
      if m in s.msgs {
        PaidStays(s, at, o, heard, a.dst, a.seqno, a.hops - 1);
      } else {
        NewAdvertPaid(s', at, o, a);
      }
    }
  }

  lemma NewAdvertPaid(s': System, at: Addr, o: Outcome, a: Advert)
    requires RoutesPaid(s'.nodes) && at in s'.nodes && s'.nodes[at] == o.node
    requires LegalAdvert(at, o.node.table, a)
    ensures Paid(s'.nodes, a.dst, a.seqno, a.hops - 1)
  {
    if a.hops > NETWORK_DIAMETER + 1 {
      assert a.dst in o.node.table;
    }
  }

  lemma {:induction false} RunKeepsHopInv(addrs: set<Addr>, evs: seq<Event>)
    requires NeverAbandons(addrs, evs)
    ensures HopInv(Run(addrs, evs))
    ensures Run(addrs, evs).nodes.Keys == addrs
  {
    if evs != [] {
      var s, ev := Run(addrs, evs[..|evs| - 1]), evs[|evs| - 1];
      RunKeepsHopInv(addrs, evs[..|evs| - 1]);
      if Enabled(s, ev) {
        ReactIsLegal(s.nodes[ev.at], ev);
        LegalKeepsHopInv(s, ev.at, React(s.nodes[ev.at], ev), Heard(ev));
      }
    }
  }

  /** No route in use is longer than the diameter plus the number of nodes, and no packet
      claims more than one hop beyond that. */
  lemma HopCountBound(addrs: set<Addr>, evs: seq<Event>)
    requires NeverAbandons(addrs, evs)
    ensures
      var s := Run(addrs, evs);
      && (forall i, d :: i in s.nodes && d in s.nodes[i].table && InUse(s.nodes[i].table[d]) ==>
            s.nodes[i].table[d].hops <= NETWORK_DIAMETER + |addrs|)
      && (forall m, a :: m in s.msgs && a in AdvertsOf(m) ==> a.hops <= NETWORK_DIAMETER + |addrs| + 1)
  {
    RunKeepsHopInv(addrs, evs);
    var s := Run(addrs, evs);
    forall d, seqno: nat, hops: int | Paid(s.nodes, d, seqno, hops)
      ensures hops <= NETWORK_DIAMETER + |addrs|
    {
      SubsetSize(Reached(s.nodes, d, seqno, hops), addrs);
    }
  }

  /** With at most 223 nodes no hop count field reaches 255: the 8-bit fields never wrap,
      and a route is up or under repair exactly when its hop count is below `INFINITY2`
      (a repair that started from a route already down keeps `INFINITY2`). */
  lemma SmallNetworksNeverOverflow(addrs: set<Addr>, evs: seq<Event>)
    requires NeverAbandons(addrs, evs)
    requires |addrs| + NETWORK_DIAMETER + 1 < INFINITY2
    ensures
      var s := Run(addrs, evs);
      && (forall m, a :: m in s.msgs && a in AdvertsOf(m) ==> a.hops < INFINITY2)
      && (forall i, d :: i in s.nodes && d in s.nodes[i].table ==>
            var e := s.nodes[i].table[d];
            && (e.flag == Up ==> e.hops < INFINITY2)
            && (e.flag == Down ==> e.hops == INFINITY2)
            && e.hops <= INFINITY2)
  {
    HopCountBound(addrs, evs);
    RunKeepsHopInv(addrs, evs);
    var s := Run(addrs, evs);
    forall i, d | i in s.nodes && d in s.nodes[i].table
      ensures
        var e := s.nodes[i].table[d];
        (e.flag == Up ==> e.hops < INFINITY2) && (e.flag == Down ==> e.hops == INFINITY2) && e.hops <= INFINITY2
    {
      assert Disciplined(s.nodes[i].table[d]);
    }
  }
}
