/**
 The object `asim` of `asim/asim.cc`: one array per field of its links and flows, and the
 loops that update them in place.
 */
module AsimSim {
  import opened AsimModel
  import opened AsimFilling

  // ---------- Incidence of links and flows ----------

  function Repeat(f: nat, c: nat): (s: seq<nat>)
    ensures |s| == c
    ensures forall k :: 0 <= k < |s| ==> s[k] == f
  {
    seq(c, _ => f)
  }

  /** The flows through a link in order, each as often as it crosses. */
  function FlowsOn(routes: seq<seq<nat>>, l: nat): seq<nat> {
    if routes == [] then []
    else
      var n := |routes| - 1;
      FlowsOn(routes[..n], l) + Repeat(n, Count(routes[n], l))
  }

  lemma {:induction false} FlowsOnContains(routes: seq<seq<nat>>, l: nat)
    ensures forall f: nat :: f in FlowsOn(routes, l) <==> f < |routes| && Count(routes[f], l) > 0
  {
    if routes != [] {
      var n := |routes| - 1;
      FlowsOnContains(routes[..n], l);
      var here := Repeat(n, Count(routes[n], l));
      assert here != [] ==> here[0] == n;
      assert FlowsOn(routes, l) == FlowsOn(routes[..n], l) + here;
    }
  }

  class Asim {
    const net: Net
    const uc: array<real>
    const utput: array<real>
    const tlambda: array<real>
    const lambda: array<real>
    const plambda: array<real>
    const tput: array<real>
    const scaled: array<bool>
    var theflows: seq<seq<nat>>

    ghost predicate Shape()
    {
      && ValidNet(net)
      && uc.Length == utput.Length == tlambda.Length == lambda.Length == plambda.Length == |net.mu|
      && tput.Length == scaled.Length == |net.routes|
      && uc != utput && uc != tlambda && uc != lambda && uc != plambda && uc != tput
      && utput != tlambda && utput != lambda && utput != plambda && utput != tput
      && tlambda != lambda && tlambda != plambda && tlambda != tput
      && lambda != plambda && lambda != tput && plambda != tput
    }

    ghost predicate Valid()
      reads this
    {
      && Shape()
      && |theflows| == |net.mu|
      && forall l :: 0 <= l < |net.mu| ==> theflows[l] == FlowsOn(net.routes, l)
    }

    ghost function State(): Fill
      reads uc, utput, tput, scaled
    {
      Fill(uc[..], utput[..], tput[..], scaled[..])
    }

    /** The links, flows and routes as read; the incidence is built at the end of
        `GetInputs`, together with the rates of the short flows. */
    constructor (n: Net, rates: seq<real>, shortRates: seq<real>)
      requires ValidNet(n) && |rates| == |shortRates| == |n.routes|
      ensures Valid() && net == n && tput[..] == rates
      ensures forall l :: 0 <= l < |n.mu| ==> lambda[l] == Load(n.routes, Part(shortRates, n.short), l)
      ensures fresh(uc) && fresh(utput) && fresh(tlambda) && fresh(lambda) && fresh(plambda) && fresh(tput) && fresh(scaled)
    {
      net := n;
      uc := new real[|n.mu|](_ => 0.0);
      utput := new real[|n.mu|](_ => 0.0);
      tlambda := new real[|n.mu|](_ => 0.0);
      lambda := new real[|n.mu|](_ => 0.0);
      plambda := new real[|n.mu|](_ => 0.0);
      tput := new real[|rates|](f requires 0 <= f < |rates| => rates[f]);
      scaled := new bool[|rates|](_ => false);
      theflows := seq(|n.mu|, _ => []);
      new;
      for i := 0 to |net.mu|
        invariant Shape() && |theflows| == |net.mu| && tput[..] == rates
        invariant forall l :: 0 <= l < i ==> theflows[l] == FlowsOn(net.routes, l)
        invariant forall l :: 0 <= l < i ==> lambda[l] == Load(net.routes, Part(shortRates, net.short), l)
        invariant fresh(lambda)
      {
        var flows, sum := Incidence(i, shortRates);
        theflows := theflows[i := flows];
        lambda[i] := sum;
      }
    }

    /** The flows through one link, and the arrival rate of the short ones among them. */
    method Incidence(l: nat, shortRates: seq<real>) returns (flows: seq<nat>, sum: real)
      requires |net.short| == |net.routes| == |shortRates|
      ensures flows == FlowsOn(net.routes, l)
      ensures sum == Load(net.routes, Part(shortRates, net.short), l)
    {
      flows, sum := [], 0.0;
      ghost var xs := Part(shortRates, net.short);
      for j := 0 to |net.routes|
        invariant flows == FlowsOn(net.routes[..j], l)
        invariant sum == Load(net.routes[..j], xs[..j], l)
      {
        var route := net.routes[j];
        ghost var flows0, sum0 := flows, sum;
        for k := 0 to |route|
          invariant flows == flows0 + Repeat(j, Count(route[..k], l))
          invariant sum == sum0 + Times(Count(route[..k], l), xs[j])
        {
          assert route[..k + 1][..k] == route[..k];
          if route[k] == l {
            if net.short[j] {
              sum := sum + shortRates[j];
            }
            flows := flows + [j];
          }
        }
        assert route[..|route|] == route;
        assert net.routes[..j + 1][..j] == net.routes[..j];
        LoadStep(net.routes, xs, j, l);
      }
      assert net.routes[..|net.routes|] == net.routes && xs[..|xs|] == xs;
    }

    /** Choose the most congested link among those with capacity left. */
    method Choose() returns (bneck: int, maxgamma: real)
      requires Valid()
      ensures Chosen(net, State(), bneck, maxgamma)
    {
      bneck, maxgamma := -1, 0.0;
      for i := 0 to |net.mu|
        invariant maxgamma >= 0.0 && -1 <= bneck < |net.mu|
        invariant bneck == -1 ==> maxgamma == 0.0
        invariant bneck >= 0 ==> maxgamma > 0.0 && uc[bneck] != 0.0 && maxgamma == utput[bneck] / uc[bneck]
        invariant forall l :: 0 <= l < i && uc[l] != 0.0 ==> utput[l] / uc[l] <= maxgamma
      {
        if uc[i] != 0.0 {
          var t := utput[i] / uc[i];
          if t > maxgamma {
            bneck, maxgamma := i, t;
          }
        }
      }
    }

    /** Take rate `x` out of the capacities, and `y` out of the throughputs, of the links of
        a route, once per crossing. */
    method TakeOut(route: seq<nat>, x: real, y: real)
      requires Valid() && forall j :: 0 <= j < |route| ==> route[j] < |net.mu|
      modifies uc, utput
      ensures forall l :: 0 <= l < |net.mu| ==> uc[l] == old(uc[l]) - Times(Count(route, l), x)
      ensures forall l :: 0 <= l < |net.mu| ==> utput[l] == old(utput[l]) - Times(Count(route, l), y)
    {
      for j := 0 to |route|
        invariant forall l :: 0 <= l < |net.mu| ==> uc[l] == old(uc[l]) - Times(Count(route[..j], l), x)
        invariant forall l :: 0 <= l < |net.mu| ==> utput[l] == old(utput[l]) - Times(Count(route[..j], l), y)
      {
        var i := route[j];
        assert route[..j + 1][..j] == route[..j];
        uc[i] := uc[i] - x;
        utput[i] := utput[i] - y;
      }
      assert route[..|route|] == route;
    }

    /** Scale one flow and take it out of the accounts of its links. */
    method FixFlow(t: nat, gamma: real)
      requires Valid() && t < |net.routes| && gamma != 0.0
      modifies uc, utput, tput, scaled
      ensures State() == AsimFilling.FixFlow(net, old(State()), t, gamma)
    {
      ghost var becomes := AsimFilling.FixFlow(net, State(), t, gamma);
      ghost var rate := tput[t];
      var x := tput[t] / gamma;
      var y := x * gamma;
      assert y == rate by { Exact(rate, gamma); }
      tput[t] := x;
      scaled[t] := true;
      TakeOut(net.routes[t], x, y);
      assert uc[..] == becomes.uc;
      assert utput[..] == becomes.utput;
    }

    /** Scale a flow of the link if it is an open bulk flow. */
    method FixOnce(t: nat, b: nat, gamma: real, ghost r: seq<real>, ghost before: Fill)
      requires Valid() && t < |net.routes| && Crosses(net, t, b) && gamma > 0.0
      requires Round(net, r, before, State(), gamma, b)
      modifies uc, utput, tput, scaled
      ensures Round(net, r, before, State(), gamma, b)
      ensures scaled[t] || net.short[t]
      ensures forall f :: 0 <= f < |net.routes| && old(scaled[f]) ==> scaled[f]
    {
      if !net.short[t] && !scaled[t] {
        ghost var st := State();
        RoundStep(net, r, before, st, gamma, b, t);
        FixFlow(t, gamma);
        assert scaled[..] == st.scaled[t := true];
      }
    }

    /** Scale all open bulk flows of one link. */
    method FixLink(b: nat, gamma: real, ghost r: seq<real>)
      requires Valid() && b < |net.mu| && gamma > 0.0
      requires Accounts(net, r, State())
      modifies uc, utput, tput, scaled
      ensures Round(net, r, old(State()), State(), gamma, b)
      ensures forall f: nat :: Bulk(net, f) && Crosses(net, f, b) ==> scaled[f]
    {
      ghost var before := State();
      var flows := theflows[b];
      FlowsOnContains(net.routes, b);
      assert forall k :: 0 <= k < |flows| ==> flows[k] in flows;
      for i := 0 to |flows|
        invariant Round(net, r, before, State(), gamma, b)
        invariant forall k :: 0 <= k < i ==> scaled[flows[k]] || net.short[flows[k]]
      {
        FixOnce(flows[i], b, gamma, r, before);
      }
      forall f: nat | Bulk(net, f) && Crosses(net, f, b)
        ensures scaled[f]
      {
        assert f in FlowsOn(net.routes, b);
      }
    }
  
    /** Add `x` to the entries of the links of a route, once per crossing. */
    method Spread(a: array<real>, route: seq<nat>, x: real)
      requires forall j :: 0 <= j < |route| ==> route[j] < a.Length
      modifies a
      ensures forall l :: 0 <= l < a.Length ==> a[l] == old(a[l]) + Times(Count(route, l), x)
    {
      for j := 0 to |route|
        invariant forall l :: 0 <= l < a.Length ==> a[l] == old(a[l]) + Times(Count(route[..j], l), x)
      {
        assert route[..j + 1][..j] == route[..j];
        a[route[j]] := a[route[j]] + x;
      }
      assert route[..|route|] == route;
    }

    /** Every link starts with its capacity and no throughput. */
    method ClearAccounts()
      requires Valid()
      modifies uc, utput
      ensures forall l :: 0 <= l < |net.mu| ==> uc[l] == Capacity(net, l) && utput[l] == 0.0
    {
      for i := 0 to |net.mu|
        invariant forall l :: 0 <= l < i ==> uc[l] == Capacity(net, l) && utput[l] == 0.0
      {
        uc[i] := net.mu[i] * 1.05;
        utput[i] := 0.0;
      }
    }

    /** The books after the first `i` flows. */
    ghost predicate Entered(r: seq<real>, i: nat)
      requires Shape() && i <= |net.routes| == |r|
      reads uc, utput
    {
      && (forall l :: 0 <= l < |net.mu| ==>
            uc[l] == Capacity(net, l) - Load(net.routes[..i], Part(r, net.short)[..i], l))
      && (forall l :: 0 <= l < |net.mu| ==>
            utput[l] == Load(net.routes[..i], Part(r, Open(net.short))[..i], l))
    }

    /** Flow `i` enters the books, on the side of the fixed or of the open flows. */
    method Enter(i: nat, ghost r: seq<real>)
      requires Valid() && tput[..] == r && i < |net.routes| && Entered(r, i)
      modifies uc, utput, scaled
      ensures Entered(r, i + 1)
      ensures scaled[..] == old(scaled[..])[i := net.short[i]]
    {
      scaled[i] := net.short[i];
      if net.short[i] {
        Spread(uc, net.routes[i], -tput[i]);
      } else {
        Spread(utput, net.routes[i], tput[i]);
      }
      forall l | 0 <= l < |net.mu|
        ensures uc[l] == Capacity(net, l) - Load(net.routes[..i + 1], Part(r, net.short)[..i + 1], l)
        ensures utput[l] == Load(net.routes[..i + 1], Part(r, Open(net.short))[..i + 1], l)
      {
        AccountStep(net, r, i, l);
      }
    }

    /** Open the books: all short flows are fixed, all bulk flows are open. */
    method InitAccounts()
      requires Valid() && Demanding(net, tput[..])
      modifies uc, utput, scaled
      ensures Accounts(net, tput[..], State()) && scaled[..] == net.short
    {
      ClearAccounts();
      ghost var r := tput[..];
      ghost var fixed, open := Part(r, net.short), Part(r, Open(net.short));
      for i := 0 to |net.routes|
        invariant tput[..] == r && Entered(r, i)
        invariant forall f :: 0 <= f < i ==> scaled[f] == net.short[f]
      {
        ghost var was := scaled[..];
        Enter(i, r);
        assert forall f :: 0 <= f < i ==> scaled[f] == was[f];
      }
      assert scaled[..] == net.short;
      assert net.routes[..|r|] == net.routes && fixed[..|r|] == fixed && open[..|r|] == open;
    }

    method UpdateHelper()
      requires Valid()
      modifies tlambda
      ensures forall l :: 0 <= l < |net.mu| ==> tlambda[l] == Load(net.routes, tput[..], l)
    {
      for i := 0 to |net.mu|
        invariant forall l :: 0 <= l < i ==> tlambda[l] == 0.0
      {
        tlambda[i] := 0.0;
      }
      ghost var x := tput[..];
      for i := 0 to |net.routes|
        invariant tput[..] == x
        invariant forall l :: 0 <= l < |net.mu| ==> tlambda[l] == Load(net.routes[..i], x[..i], l)
      {
        Spread(tlambda, net.routes[i], tput[i]);
        forall l | 0 <= l < |net.mu|
          ensures tlambda[l] == Load(net.routes[..i + 1], x[..i + 1], l)
        {
          LoadStep(net.routes, x, i, l);
        }
      }
      assert net.routes[..|x|] == net.routes && x[..|x|] == x;
    }

    method Update(niter: int)
      requires Valid()
      modifies tlambda, lambda, plambda
      ensures forall l :: 0 <= l < |net.mu| ==> plambda[l] == old(lambda[l])
      ensures forall l :: 0 <= l < |net.mu| ==>
        lambda[l] == NextLambda(niter, net.mu[l], old(lambda[l]), Load(net.routes, tput[..], l))
    {
      UpdateHelper();
      for i := 0 to |net.mu|
        invariant forall l :: 0 <= l < |net.mu| ==> tlambda[l] == Load(net.routes, tput[..], l)
        invariant forall l :: i <= l < |net.mu| ==> lambda[l] == old(lambda[l])
        invariant forall l :: 0 <= l < i ==> plambda[l] == old(lambda[l])
        invariant forall l :: 0 <= l < i ==>
          lambda[l] == NextLambda(niter, net.mu[l], old(lambda[l]), Load(net.routes, tput[..], l))
      {
        plambda[i] := lambda[i];
        var tk, t := net.mu[i] * 1.1, 0.0;
        if niter != 0 {
          if tlambda[i] > tk {
            t := (lambda[i] + tk) / 2.0;
          } else {
            t := (tlambda[i] + lambda[i]) / 2.0;
          }
        } else {
          t := tlambda[i];
        }
        lambda[i] := t;
      }
    }

    /** One round of the loop: fix the flows of the chosen link, close it, and choose again. */
    method FillRound(b: nat, gamma: real, ghost r: seq<real>) returns (b': int, gamma': real)
      requires Valid() && Running(net, r, State(), b, gamma)
      modifies uc, utput, tput, scaled
      ensures Running(net, r, State(), b', gamma')
      ensures OpenFlows(scaled[..]) < old(OpenFlows(scaled[..]))
      ensures b' >= 0 ==> gamma' <= gamma
      ensures Turn(net, r, Pick(old(State()), b, gamma), State())
      ensures Exhausted(net, State(), b)
      ensures forall l: nat :: old(Exhausted(net, State(), l)) ==> Exhausted(net, State(), l)
      ensures forall f :: 0 <= f < |r| && scaled[f] && !old(scaled[f]) ==> Crosses(net, f, b)
    {
      ghost var before := State();
      ChoiceIsGood(net, r, before, b, gamma);
      FixLink(b, gamma, r);
      ghost var st := State();
      RoundDone(net, r, before, st, gamma, b);
      RoundFixesSome(net, r, before, st, gamma, b);
      forall l: nat | Exhausted(net, before, l) ensures Exhausted(net, st, l) {
        ExhaustedStays(net, r, before, st, gamma, b, l);
      }
      uc[b] := 0.0;
      assert uc[..] == st.uc;
      SettledIsSolvent(net, r, st, gamma);
      b', gamma' := Choose();
      if b' >= 0 {
        RatiosFall(net, r, st, gamma, b', gamma');
        NextIsSettled(net, r, st, gamma, b', gamma');
      }
    }

    /** Progressive filling: repeatedly scale the flows of the most congested link. `picks`
        are the choices of the loop. Every chosen link ends with exactly its capacity, also as
        its arrival rate without damping, and every bulk flow for which some link has room
        crosses one of them. */
    method NewUpdate(niter: int) returns (ghost picks: seq<Pick>)
      requires Valid() && Demanding(net, tput[..])
      modifies uc, utput, tput, scaled, tlambda, lambda, plambda
      ensures Filled(net, old(tput[..]), tput[..])
      ensures forall l :: 0 <= l < |net.mu| ==>
        lambda[l] == NextLambda(niter, net.mu[l], old(lambda[l]), Load(net.routes, tput[..], l))
      ensures Filling(net, old(tput[..]), picks, State()) && Chosen(net, State(), -1, 0.0)
      ensures AllServed(net, old(tput[..]), Links(picks))
      ensures forall l :: l in Links(picks) ==> l < |net.mu| && Load(net.routes, tput[..], l) == Capacity(net, l)
      ensures niter == 0 ==> forall l :: l in Links(picks) ==> l < |net.mu| && lambda[l] == Capacity(net, l)
    {
      ghost var r := tput[..];
      picks := RunFilling(r);
      Update(niter);
    }

    method RunFilling(ghost r: seq<real>) returns (ghost picks: seq<Pick>)
      requires Valid() && Demanding(net, r) && tput[..] == r
      modifies uc, utput, tput, scaled
      ensures Filled(net, r, tput[..])
      ensures Filling(net, r, picks, State()) && Chosen(net, State(), -1, 0.0)
      ensures AllServed(net, r, Links(picks))
      ensures forall l :: l in Links(picks) ==> l < |net.mu| && Load(net.routes, tput[..], l) == Capacity(net, l)
    {
      InitAccounts();
      picks := [];
      var bneck, maxgamma := Choose();
      while bneck != -1
        invariant Underway(net, r, State(), picks, bneck, maxgamma)
        decreases OpenFlows(scaled[..])
      {
        bneck, maxgamma, picks := FillNext(bneck, maxgamma, r, picks);
      }
      FillingEnds(net, r, State(), picks);
    }

    /** One turn of the loop, with the choice it made on record. */
    method FillNext(b: nat, gamma: real, ghost r: seq<real>, ghost picks: seq<Pick>)
      returns (b': int, gamma': real, ghost picks': seq<Pick>)
      requires Valid() && Underway(net, r, State(), picks, b, gamma)
      modifies uc, utput, tput, scaled
      ensures Underway(net, r, State(), picks', b', gamma')
      ensures picks' == picks + [Pick(old(State()), b, gamma)]
      ensures OpenFlows(scaled[..]) < old(OpenFlows(scaled[..]))
    {
      ghost var pick := Pick(State(), b, gamma);
      b', gamma' := FillRound(b, gamma, r);
      OnePickMore(net, r, picks, State(), pick);
      FilledByOneMore(net, pick.st, State(), Links(picks), b);
      picks' := picks + [pick];
    }
  }

  /** What holds at the head of the loop, with the choices made so far. */
  ghost predicate Underway(net: Net, r: seq<real>, st: Fill, picks: seq<Pick>, b: int, gamma: real) {
    && Running(net, r, st, b, gamma)
    && FilledBy(net, st, Links(picks))
    && Filling(net, r, picks, st)
    && (b >= 0 && picks != [] ==> gamma <= picks[|picks| - 1].gamma)
  }

  lemma FillingEnds(net: Net, r: seq<real>, st: Fill, picks: seq<Pick>)
    requires ValidNet(net) && Demanding(net, r) && Underway(net, r, st, picks, -1, 0.0)
    ensures Filled(net, r, st.tput) && AllServed(net, r, Links(picks))
    ensures forall l :: l in Links(picks) ==> l < |net.mu| && Load(net.routes, st.tput, l) == Capacity(net, l)
  {
    LoopEnd(net, r, st);
    ChosenAreFull(net, r, st, Links(picks));
  }

  /** The links are exhausted, and each fixed bulk flow crosses one of them. */
  ghost predicate FilledBy(net: Net, st: Fill, chosen: set<nat>)
    requires ValidNet(net) && |st.uc| == |net.mu| && |st.scaled| == |net.routes|
  {
    && (forall l :: l in chosen ==> Exhausted(net, st, l))
    && (forall f: nat :: Bulk(net, f) && st.scaled[f] ==> Served(net, f, chosen))
  }

  lemma FilledByOneMore(net: Net, before: Fill, st: Fill, chosen: set<nat>, b: nat)
    requires ValidNet(net) && |before.uc| == |st.uc| == |net.mu|
    requires |before.scaled| == |st.scaled| == |net.routes|
    requires FilledBy(net, before, chosen) && Exhausted(net, st, b)
    requires forall l: nat :: Exhausted(net, before, l) ==> Exhausted(net, st, l)
    requires forall f: nat :: f < |net.routes| && st.scaled[f] && !before.scaled[f] ==> Crosses(net, f, b)
    ensures FilledBy(net, st, chosen + {b})
  {
  }

  lemma ChosenAreFull(net: Net, r: seq<real>, st: Fill, chosen: set<nat>)
    requires Accounts(net, r, st) && Solvent(net, r, st) && Chosen(net, st, -1, 0.0) && FilledBy(net, st, chosen)
    ensures AllServed(net, r, chosen)
    ensures forall l :: l in chosen ==> l < |net.mu| && Load(net.routes, st.tput, l) == Capacity(net, l)
  {
    forall l | l in chosen ensures l < |net.mu| && Load(net.routes, st.tput, l) == Capacity(net, l) {
      ExhaustedIsFull(net, r, st, l);
    }
    forall f: nat, l: nat | Bulk(net, f) && Good(net, r, l) && Crosses(net, f, l) ensures Served(net, f, chosen) {
      NothingLeft(net, r, st, l);
    }
  }

  /** The flow crosses one of the links. */
  ghost predicate Served(net: Net, f: nat, chosen: set<nat>)
    requires f < |net.routes|
  {
    exists l: nat :: l in chosen && Crosses(net, f, l)
  }

  /** Every bulk flow for which some link has room crosses one of the links. */
  ghost predicate AllServed(net: Net, r: seq<real>, chosen: set<nat>)
    requires ValidNet(net) && |r| == |net.routes|
  {
    forall f: nat, l: nat :: Bulk(net, f) && Good(net, r, l) && Crosses(net, f, l) ==> Served(net, f, chosen)
  }

  /** What holds at the head of the loop. */
  ghost predicate Running(net: Net, r: seq<real>, st: Fill, b: int, gamma: real) {
    && Accounts(net, r, st) && Solvent(net, r, st) && AllStuck(net, r, st)
    && Chosen(net, st, b, gamma)
    && (b >= 0 ==> Settled(net, r, st, gamma))
  }

  /** The damped update of the arrival rate of a link; none when `niter` is 0. */
  function NextLambda(niter: int, mu: real, before: real, offered: real): real {
    if niter == 0 then offered
    else if offered > mu * 1.1 then (before + mu * 1.1) / 2.0
    else (offered + before) / 2.0
  }

  /** What the arrival rate of a link tends to: the rate offered, up to 1.1 times `mu`. */
  function Target(mu: real, offered: real): real {
    if offered < mu * 1.1 then offered else mu * 1.1
  }

  /** Iteration 0 takes the offered rate; any later one goes half the way to the target. */
  lemma UpdateGoesHalfway(niter: int, mu: real, before: real, offered: real)
    ensures niter == 0 ==> NextLambda(niter, mu, before, offered) == offered
    ensures niter != 0 ==>
      2.0 * (NextLambda(niter, mu, before, offered) - Target(mu, offered)) == before - Target(mu, offered)
  {
  }

  /** The arrival rate after `n` iterations in which the same rate is offered. */
  function Damped(mu: real, before: real, offered: real, n: nat): real {
    if n == 0 then before else NextLambda(n, mu, Damped(mu, before, offered, n - 1), offered)
  }

  function Doubled(x: real, n: nat): real {
    if n == 0 then x else 2.0 * Doubled(x, n - 1)
  }

  /** So the distance to the target is halved each time. */
  lemma {:induction false} DampingConverges(mu: real, before: real, offered: real, n: nat)
    ensures Doubled(Damped(mu, before, offered, n) - Target(mu, offered), n) == before - Target(mu, offered)
  {
    if n > 0 {
      DampingConverges(mu, before, offered, n - 1);
      UpdateGoesHalfway(n, mu, Damped(mu, before, offered, n - 1), offered);
      DoubledTwice(Damped(mu, before, offered, n) - Target(mu, offered), n - 1);
    }
  }

  lemma {:induction false} DoubledTwice(x: real, n: nat)
    ensures Doubled(x, n + 1) == Doubled(2.0 * x, n)
  {
    if n > 0 { DoubledTwice(x, n - 1); }
  }

  ghost function OpenFlows(scaled: seq<bool>): set<nat> {
    set f: nat | f < |scaled| && !scaled[f]
  }

  /** A round fixes at least one more flow. */
  lemma RoundFixesSome(net: Net, r: seq<real>, before: Fill, st: Fill, gamma: real, b: nat)
    requires Round(net, r, before, st, gamma, b)
    requires exists f: nat :: Bulk(net, f) && Crosses(net, f, b) && !before.scaled[f]
    requires forall f: nat :: Bulk(net, f) && Crosses(net, f, b) ==> st.scaled[f]
    ensures OpenFlows(st.scaled) < OpenFlows(before.scaled)
  {
    var f: nat :| Bulk(net, f) && Crosses(net, f, b) && !before.scaled[f];
    assert f in OpenFlows(before.scaled) && f !in OpenFlows(st.scaled);
  }

  lemma LoadStep(routes: seq<seq<nat>>, xs: seq<real>, i: nat, l: nat)
    requires |xs| == |routes| && i < |xs|
    ensures Load(routes[..i + 1], xs[..i + 1], l) == Load(routes[..i], xs[..i], l) + Times(Count(routes[i], l), xs[i])
  {
    assert routes[..i + 1][..i] == routes[..i] && xs[..i + 1][..i] == xs[..i];
  }

  /** One more flow enters the books, on the side of the fixed or of the open ones. */
  lemma AccountStep(net: Net, r: seq<real>, i: nat, l: nat)
    requires |net.short| == |net.routes| == |r| && i < |r|
    ensures
      var fixed, open, t := Part(r, net.short), Part(r, Open(net.short)), Times(Count(net.routes[i], l), r[i]);
      && Load(net.routes[..i + 1], fixed[..i + 1], l) == Load(net.routes[..i], fixed[..i], l) + (if net.short[i] then t else 0.0)
      && Load(net.routes[..i + 1], open[..i + 1], l) == Load(net.routes[..i], open[..i], l) + (if net.short[i] then 0.0 else t)
    ensures Times(Count(net.routes[i], l), -r[i]) == -Times(Count(net.routes[i], l), r[i])
  {
    LoadStep(net.routes, Part(r, net.short), i, l);
    LoadStep(net.routes, Part(r, Open(net.short)), i, l);
    TimesNegated(Count(net.routes[i], l), r[i]);
  }
}
