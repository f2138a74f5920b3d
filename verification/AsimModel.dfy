/**
 The analytical simulator of `asim/asim.cc`: links, flows with fixed routes, and what it
 means for an allocation of rates to be weighted max-min fair.  Arithmetic is exact.
 */
module AsimModel {
  import opened Basics

  /** Routes list link numbers, possibly repeated; short flows keep their rate. */
  datatype Net = Net(routes: seq<seq<nat>>, short: seq<bool>, mu: seq<real>)

  ghost predicate ValidNet(net: Net) {
    && |net.short| == |net.routes|
    && forall f, j :: 0 <= f < |net.routes| && 0 <= j < |net.routes[f]| ==> net.routes[f][j] < |net.mu|
  }

  /** How often a route crosses a link. */
  function Count(route: seq<nat>, l: nat): nat {
    if route == [] then 0
    else Count(route[..|route| - 1], l) + if route[|route| - 1] == l then 1 else 0
  }

  predicate Crosses(net: Net, f: nat, l: nat)
    requires f < |net.routes|
  {
    Count(net.routes[f], l) > 0
  }

  /** `c` times `x`, by adding up. */
  function Times(c: nat, x: real): real {
    if c == 0 then 0.0 else Times(c - 1, x) + x
  }

  /** The traffic that rates `xs` put on link `l`. */
  function Load(routes: seq<seq<nat>>, xs: seq<real>, l: nat): real
    requires |xs| == |routes|
  {
    if routes == [] then 0.0
    else
      var n := |routes| - 1;
      Load(routes[..n], xs[..n], l) + Times(Count(routes[n], l), xs[n])
  }

  /** The share of a link that may be used: `mu * 1.05`. */
  function Capacity(net: Net, l: nat): real
    requires l < |net.mu|
  {
    net.mu[l] * 1.05
  }

  predicate Bulk(net: Net, f: nat)
    requires |net.short| == |net.routes|
  {
    f < |net.routes| && !net.short[f]
  }

  /** Some bulk flow crosses the link. */
  ghost predicate BulkOn(net: Net, l: nat)
    requires |net.short| == |net.routes|
  {
    exists f: nat :: Bulk(net, f) && Crosses(net, f, l)
  }

  /** The rates of the selected flows, and 0 for the others. */
  function Part(xs: seq<real>, chosen: seq<bool>): (r: seq<real>)
    requires |xs| == |chosen|
    ensures |r| == |xs|
  {
    seq(|xs|, f requires 0 <= f < |xs| => if chosen[f] then xs[f] else 0.0)
  }

  // ---------- Sums ----------

  lemma {:induction false} TimesOrder(c: nat, x: real, y: real)
    ensures x <= y ==> Times(c, x) <= Times(c, y)
    ensures x < y && c > 0 ==> Times(c, x) < Times(c, y)
  {
    if c > 0 {
      TimesOrder(c - 1, x, y);
    }
  }

  lemma {:induction false} TimesNegated(c: nat, x: real)
    ensures Times(c, -x) == -Times(c, x) && Times(c, 0.0) == 0.0
  {
    if c > 0 {
      TimesNegated(c - 1, x);
    }
  }

  lemma {:induction false} LoadUpdate(routes: seq<seq<nat>>, xs: seq<real>, f: nat, v: real, l: nat)
    requires |xs| == |routes| && f < |xs|
    ensures
      Load(routes, xs[f := v], l) == Load(routes, xs, l) - Times(Count(routes[f], l), xs[f]) + Times(Count(routes[f], l), v)
  {
    var n := |routes| - 1;
    if f == n {
      assert xs[f := v][..n] == xs[..n];
    } else {
      assert xs[f := v][..n] == xs[..n][f := v];
      LoadUpdate(routes[..n], xs[..n], f, v, l);
    }
  }

  lemma {:induction false} LoadZero(routes: seq<seq<nat>>, xs: seq<real>, l: nat)
    requires |xs| == |routes|
    requires forall f :: 0 <= f < |xs| ==> xs[f] == 0.0 || Count(routes[f], l) == 0
    ensures Load(routes, xs, l) == 0.0
  {
    if routes != [] {
      var n := |routes| - 1;
      LoadZero(routes[..n], xs[..n], l);
      TimesNegated(Count(routes[n], l), 0.0);
    }
  }

  /** More rate, at least as much load. */
  lemma {:induction false} LoadMonotone(routes: seq<seq<nat>>, xs: seq<real>, ys: seq<real>, l: nat)
    requires |xs| == |routes| == |ys|
    requires forall f :: 0 <= f < |xs| && Count(routes[f], l) > 0 ==> xs[f] <= ys[f]
    ensures Load(routes, xs, l) <= Load(routes, ys, l)
  {
    if routes != [] {
      var n := |routes| - 1;
      LoadMonotone(routes[..n], xs[..n], ys[..n], l);
      TimesOrder(Count(routes[n], l), xs[n], ys[n]);
    }
  }

  /** More rate, and strictly more on a flow that crosses the link: strictly more load. */
  lemma {:induction false} LoadStrict(routes: seq<seq<nat>>, xs: seq<real>, ys: seq<real>, f: nat, l: nat)
    requires |xs| == |routes| == |ys| && f < |xs|
    requires forall g :: 0 <= g < |xs| && Count(routes[g], l) > 0 ==> xs[g] <= ys[g]
    requires Count(routes[f], l) > 0 && xs[f] < ys[f]
    ensures Load(routes, xs, l) < Load(routes, ys, l)
  {
    var n := |routes| - 1;
    if f < n {
      LoadStrict(routes[..n], xs[..n], ys[..n], f, l);
    } else {
      LoadMonotone(routes[..n], xs[..n], ys[..n], l);
    }
    TimesOrder(Count(routes[n], l), xs[n], ys[n]);
  }

  /** Chosen and left-out flows together make up the load. */
  lemma {:induction false} LoadSplit(routes: seq<seq<nat>>, xs: seq<real>, chosen: seq<bool>, rest: seq<bool>, l: nat)
    requires |xs| == |routes| == |chosen| == |rest|
    requires forall f :: 0 <= f < |xs| ==> rest[f] == !chosen[f]
    ensures Load(routes, xs, l) == Load(routes, Part(xs, chosen), l) + Load(routes, Part(xs, rest), l)
  {
    if routes != [] {
      var n := |routes| - 1;
      assert Part(xs, chosen)[..n] == Part(xs[..n], chosen[..n]);
      assert Part(xs, rest)[..n] == Part(xs[..n], rest[..n]);
      LoadSplit(routes[..n], xs[..n], chosen[..n], rest[..n], l);
      TimesNegated(Count(routes[n], l), 0.0);
    }
  }

  // ---------- Products ----------

  lemma MulMonotone(c: real, x: real, y: real)
    requires c >= 0.0 && x <= y
    ensures c * x <= c * y
  {
    assert c * (y - x) >= 0.0;
    assert c * (y - x) == c * y - c * x;
  }

  lemma MulStrict(c: real, x: real, y: real)
    requires c > 0.0 && x < y
    ensures c * x < c * y
  {
    assert c * (y - x) > 0.0;
    assert c * (y - x) == c * y - c * x;
  }

  // ---------- Fairness ----------

  /** Short flows have their given rates, bulk flows have some rate, and no link that
      carries bulk flows is loaded beyond its capacity. */
  ghost predicate Feasible(net: Net, r: seq<real>, x: seq<real>)
    requires ValidNet(net)
  {
    && |r| == |x| == |net.routes|
    && (forall f :: 0 <= f < |x| ==> if net.short[f] then x[f] == r[f] else x[f] >= 0.0)
    && forall l: nat :: l < |net.mu| && BulkOn(net, l) ==> Load(net.routes, x, l) <= Capacity(net, l)
  }

  /** The bulk flows ask for something. */
  ghost predicate Demanding(net: Net, r: seq<real>)
    requires ValidNet(net)
  {
    |r| == |net.routes| && forall f :: 0 <= f < |r| && !net.short[f] ==> r[f] > 0.0
  }

  /** The scaling factor of each bulk flow. */
  function Factors(net: Net, r: seq<real>, x: seq<real>): (s: seq<real>)
    requires ValidNet(net) && Demanding(net, r) && |x| == |r|
    ensures |s| == |r|
  {
    seq(|r|, f requires 0 <= f < |r| => if net.short[f] then 0.0 else x[f] / r[f])
  }

  /** Bulk flow `f` has more in `y` than in `x`. */
  predicate Gains(net: Net, x: seq<real>, y: seq<real>, f: nat)
    requires ValidNet(net)
  {
    Bulk(net, f) && f < |x| && f < |y| && y[f] > x[f]
  }

  predicate Loses(net: Net, x: seq<real>, y: seq<real>, f: nat)
    requires ValidNet(net)
  {
    Bulk(net, f) && f < |x| && f < |y| && y[f] < x[f]
  }

  /** Whoever gains over `x` does so at the expense of a bulk flow no better off. */
  ghost predicate MaxMinFair(net: Net, r: seq<real>, x: seq<real>)
    requires ValidNet(net) && Demanding(net, r)
  {
    && Feasible(net, r, x)
    && forall y: seq<real>, f: nat :: Feasible(net, r, y) && Gains(net, x, y, f) ==>
        exists g: nat :: Loses(net, x, y, g) && Factors(net, r, x)[g] <= Factors(net, r, x)[f]
  }

  /** Flow `f` crosses the full link `l`, and no bulk flow on `l` has a larger factor. */
  ghost predicate IsBottleneck(net: Net, r: seq<real>, x: seq<real>, f: nat, l: nat)
    requires ValidNet(net) && Demanding(net, r) && |r| == |x| && f < |x|
  {
    && l < |net.mu| && Crosses(net, f, l)
    && Load(net.routes, x, l) == Capacity(net, l)
    && forall g: nat :: Bulk(net, g) && Crosses(net, g, l) ==> Factors(net, r, x)[g] <= Factors(net, r, x)[f]
  }

  ghost predicate HasBottleneck(net: Net, r: seq<real>, x: seq<real>, f: nat)
    requires ValidNet(net) && Demanding(net, r) && |r| == |x| && f < |x|
  {
    exists l :: IsBottleneck(net, r, x, f, l)
  }

  /** Feasible, and every bulk flow has a bottleneck. */
  ghost predicate Bottlenecked(net: Net, r: seq<real>, x: seq<real>)
    requires ValidNet(net) && Demanding(net, r)
  {
    && Feasible(net, r, x)
    && forall f: nat {:trigger HasBottleneck(net, r, x, f)} :: Bulk(net, f) ==> HasBottleneck(net, r, x, f)
  }

  /** The bottleneck criterion is sufficient for fairness. */
  lemma BottleneckedIsFair(net: Net, r: seq<real>, x: seq<real>)
    requires ValidNet(net) && Demanding(net, r) && Bottlenecked(net, r, x)
    ensures MaxMinFair(net, r, x)
  {
    forall y: seq<real>, f: nat | Feasible(net, r, y) && Gains(net, x, y, f)
      ensures exists g: nat :: Loses(net, x, y, g) && Factors(net, r, x)[g] <= Factors(net, r, x)[f]
    {
      assert HasBottleneck(net, r, x, f);
      var l :| IsBottleneck(net, r, x, f, l);
      if forall g: nat :: Bulk(net, g) && Crosses(net, g, l) ==> x[g] <= y[g] {
        LoadStrict(net.routes, x, y, f, l);
        assert false;
      }
      var g: nat :| Bulk(net, g) && Crosses(net, g, l) && x[g] > y[g];
      assert Loses(net, x, y, g);
    }
  }

  lemma QuotientOrder(a: real, b: real, r: real)
    requires r > 0.0
    ensures a < b <==> a / r < b / r
  {
    assert a / r * r == a && b / r * r == b;
    if a / r <= b / r { MulMonotone(r, a / r, b / r); }
    if b / r <= a / r { MulMonotone(r, b / r, a / r); }
  }

  lemma FactorOrder(net: Net, r: seq<real>, x: seq<real>, y: seq<real>, f: nat)
    requires ValidNet(net) && Demanding(net, r) && |x| == |y| == |r| && Bulk(net, f)
    ensures x[f] < y[f] <==> Factors(net, r, x)[f] < Factors(net, r, y)[f]
  {
    QuotientOrder(x[f], y[f], r[f]);
  }

  /** Among the places where two sequences differ, one where the smaller value is least. */
  lemma LeastDifference(s: seq<real>, t: seq<real>) returns (f: nat)
    requires |s| == |t| && s != t
    ensures f < |s| && s[f] != t[f]
    ensures forall g :: 0 <= g < |s| && s[g] != t[g] ==> MinReal(s[f], t[f]) <= MinReal(s[g], t[g])
  {
    f :| 0 <= f < |s| && s[f] != t[f];
    for n := 0 to |s|
      invariant f < |s| && s[f] != t[f]
      invariant forall g :: 0 <= g < n && s[g] != t[g] ==> MinReal(s[f], t[f]) <= MinReal(s[g], t[g])
    {
      if s[n] != t[n] && MinReal(s[n], t[n]) < MinReal(s[f], t[f]) {
        f := n;
      }
    }
  }

  /** Nobody can gain at the place where the smaller factor is least. */
  lemma NoGainAtLeast(net: Net, r: seq<real>, x: seq<real>, y: seq<real>, f: nat)
    requires ValidNet(net) && Demanding(net, r) && MaxMinFair(net, r, x) && Feasible(net, r, y) && Bulk(net, f)
    requires
      var s, t := Factors(net, r, x), Factors(net, r, y);
      forall g :: 0 <= g < |s| && s[g] != t[g] ==> MinReal(s[f], t[f]) <= MinReal(s[g], t[g])
    ensures y[f] <= x[f]
  {
    if y[f] > x[f] {
      assert Gains(net, x, y, f);
      var g: nat :| Loses(net, x, y, g) && Factors(net, r, x)[g] <= Factors(net, r, x)[f];
      FactorOrder(net, r, x, y, f);
      FactorOrder(net, r, y, x, g);
      assert false;
    }
  }

  /** There is only one weighted max-min fair allocation, so fairness says what is computed. */
  lemma FairIsUnique(net: Net, r: seq<real>, x: seq<real>, y: seq<real>)
    requires ValidNet(net) && Demanding(net, r)
    requires MaxMinFair(net, r, x) && MaxMinFair(net, r, y)
    ensures x == y
  {
    if Factors(net, r, x) != Factors(net, r, y) {
      var f := LeastDifference(Factors(net, r, x), Factors(net, r, y));
      NoGainAtLeast(net, r, x, y, f);
      NoGainAtLeast(net, r, y, x, f);
      SameFactor(net, r, x, y, f);
      assert false;
    }
    SameFactors(net, r, x, y);
  }

  lemma SameFactor(net: Net, r: seq<real>, x: seq<real>, y: seq<real>, f: nat)
    requires ValidNet(net) && Demanding(net, r) && |x| == |y| == |r| && f < |x|
    requires x[f] == y[f]
    ensures Factors(net, r, x)[f] == Factors(net, r, y)[f]
  {
  }

  lemma SameFactors(net: Net, r: seq<real>, x: seq<real>, y: seq<real>)
    requires ValidNet(net) && Demanding(net, r) && Feasible(net, r, x) && Feasible(net, r, y)
    requires Factors(net, r, x) == Factors(net, r, y)
    ensures x == y
  {
    forall f | 0 <= f < |x|
      ensures x[f] == y[f]
    {
      if Bulk(net, f) {
        assert Factors(net, r, x)[f] == Factors(net, r, y)[f];
        FactorOrder(net, r, x, y, f);
        FactorOrder(net, r, y, x, f);
      }
    }
  }
}
