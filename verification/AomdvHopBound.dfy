/**
 How long an AOMDV path can be.  Because advertised hop counts never change under one
 sequence number, the claims that support a claim of `h` hops come from `h` further nodes,
 all different; so hop counts stay below the number of nodes.
 */
module AomdvHopBound {
  import opened Basics
  import opened AomdvModel
  import opened AomdvLoopFreedom

  ghost predicate SendersKnown(s: System) {
    forall a :: a in AllAdverts(s.msgs) ==> a.sender in s.nodes && Even(a.seqno)
  }

  lemma LegalKeepsSendersKnown(cfg: Config, s: System, at: Addr, o: Outcome, heard: set<Advert>)
    requires SendersKnown(s) && at in s.nodes && Legal(cfg, at, s.nodes[at], o, heard)
    ensures SendersKnown(Apply(s, at, o))
  {
    forall a | a in AllAdverts(s.msgs + o.sent)
      ensures a.sender in s.nodes && Even(a.seqno)
    {
      if a !in AllAdverts(s.msgs) {
        assert LegalAdvert(at, o.node.table, a);
      }
    }
  }

  lemma {:induction false} RunKeepsSendersKnown(cfg: Config, addrs: set<Addr>, evs: seq<Event>)
    ensures SendersKnown(Run(cfg, addrs, evs)) && Run(cfg, addrs, evs).nodes.Keys == addrs
  {
    if evs != [] {
      var s, ev := Run(cfg, addrs, evs[..|evs| - 1]), evs[|evs| - 1];
      RunKeepsSendersKnown(cfg, addrs, evs[..|evs| - 1]);
      RunKeepsInv(cfg, addrs, evs[..|evs| - 1]);
      if Enabled(s, ev) {
        ReactIsLegal(cfg, s.nodes[ev.at], ev);
        LegalKeepsSendersKnown(cfg, s, ev.at, React(cfg, s.nodes[ev.at], ev), Heard(ev));
      }
    }
  }

  /** The nodes behind a claim: one for every hop count from 0 up to the claimed one. */
  lemma {:induction false} Supporters(nodes: map<Addr, Node>, adverts: set<Advert>, a: Advert) returns (behind: set<Addr>)
    requires Stable(adverts) && AdvertsStand(nodes, adverts) && a in adverts
    ensures |behind| == a.hops + 1
    ensures forall n :: n in behind ==>
      exists b :: b in adverts && b.sender == n && b.dst == a.dst && b.seqno == a.seqno && b.hops <= a.hops
    decreases a.hops
  {
    if a.hops == 0 {
      behind := {a.sender};
    } else {
      assert Supported(adverts, a.dst, a.seqno, a.hops);
      var b :| b in adverts && b.dst == a.dst && b.seqno == a.seqno && b.hops == a.hops - 1;
      var rest := Supporters(nodes, adverts, b);
      assert a.sender !in rest;
      behind := rest + {a.sender};
    }
  }

  lemma ClaimsStayBelow(cfg: Config, addrs: set<Addr>, evs: seq<Event>, a: Advert)
    requires a in AllAdverts(Run(cfg, addrs, evs).msgs)
    ensures a.hops < |addrs|
  {
    var s := Run(cfg, addrs, evs);
    RunKeepsInv(cfg, addrs, evs);
    RunKeepsSendersKnown(cfg, addrs, evs);
    var behind := Supporters(s.nodes, AllAdverts(s.msgs), a);
    assert behind <= addrs;
    assert addrs == behind + (addrs - behind);
  }

  /** No stored path is longer than the number of nodes, and every hop count on the air is
      smaller; with at most 254 nodes the 8-bit fields never wrap. */
  lemma HopCountBound(cfg: Config, addrs: set<Addr>, evs: seq<Event>)
    ensures
      var s := Run(cfg, addrs, evs);
      && (forall a :: a in AllAdverts(s.msgs) ==> a.hops < |addrs|)
      && (forall i, d, p :: i in s.nodes && d in s.nodes[i].table && p in s.nodes[i].table[d].paths ==>
            1 <= p.hopcount <= |addrs|)
  {
    var s := Run(cfg, addrs, evs);
    RunKeepsInv(cfg, addrs, evs);
    forall a | a in AllAdverts(s.msgs) ensures a.hops < |addrs| {
      ClaimsStayBelow(cfg, addrs, evs, a);
    }
    forall i, d, p | i in s.nodes && d in s.nodes[i].table && p in s.nodes[i].table[d].paths
      ensures 1 <= p.hopcount <= |addrs|
    {
      ClaimsStayBelow(cfg, addrs, evs, Advert(p.nexthop, d, s.nodes[i].table[d].seqno, p.hopcount - 1));
    }
  }
}
