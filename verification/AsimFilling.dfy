/**
 Progressive filling, the loop of `newupdate` in `asim/asim.cc`, on values: what holds
 between the accounts of links and flows, and why each round keeps it.
 */
module AsimFilling {
  import opened Basics
  import opened AsimModel

  /** Per link the unscaled capacity and throughput; per flow its rate and whether it has
      been fixed. */
  datatype Fill = Fill(uc: seq<real>, utput: seq<real>, tput: seq<real>, scaled: seq<bool>)

  function Open(scaled: seq<bool>): (r: seq<bool>)
    ensures |r| == |scaled|
  {
    seq(|scaled|, f requires 0 <= f < |scaled| => !scaled[f])
  }

  ghost predicate Shaped(net: Net, r: seq<real>, st: Fill) {
    && ValidNet(net) && Demanding(net, r)
    && |st.uc| == |st.utput| == |net.mu|
    && |st.tput| == |st.scaled| == |r|
  }

  /** The books balance: fixed flows are taken out of the capacity, open ones make up the
      throughput still to be scaled. */
  ghost predicate Accounts(net: Net, r: seq<real>, st: Fill) {
    && Shaped(net, r, st)
    && (forall f :: 0 <= f < |r| && net.short[f] ==> st.scaled[f] && st.tput[f] == r[f])
    && (forall f :: 0 <= f < |r| && !st.scaled[f] ==> st.tput[f] == r[f])
    && (forall f :: 0 <= f < |r| && !net.short[f] ==> st.tput[f] > 0.0)
    && (forall l :: 0 <= l < |net.mu| ==>
          st.uc[l] == Capacity(net, l) - Load(net.routes, Part(st.tput, st.scaled), l))
    && (forall l :: 0 <= l < |net.mu| ==>
          st.utput[l] == Load(net.routes, Part(st.tput, Open(st.scaled)), l))
  }

  /** What the short flows leave of a link. */
  function Room(net: Net, r: seq<real>, l: nat): real
    requires ValidNet(net) && |r| == |net.routes| && l < |net.mu|
  {
    Capacity(net, l) - Load(net.routes, Part(r, net.short), l)
  }

  /** Bulk flows cross the link, and there is room for them. */
  ghost predicate Good(net: Net, r: seq<real>, l: nat)
    requires ValidNet(net) && |r| == |net.routes|
  {
    l < |net.mu| && BulkOn(net, l) && Room(net, r, l) > 0.0
  }

  /** Flow `f` was fixed on link `l`, which is full, and nobody there has a larger factor. */
  ghost predicate Stuck(net: Net, r: seq<real>, st: Fill, f: nat, l: nat)
    requires Shaped(net, r, st) && Bulk(net, f)
  {
    && Good(net, r, l) && Crosses(net, f, l) && st.uc[l] == 0.0
    && forall g: nat :: Bulk(net, g) && Crosses(net, g, l) ==>
        st.scaled[g] && Factors(net, r, st.tput)[g] <= Factors(net, r, st.tput)[f]
  }

  ghost predicate StuckSomewhere(net: Net, r: seq<real>, st: Fill, f: nat)
    requires Shaped(net, r, st) && Bulk(net, f)
  {
    exists l :: Stuck(net, r, st, f, l)
  }

  ghost predicate AllStuck(net: Net, r: seq<real>, st: Fill)
    requires Shaped(net, r, st)
  {
    forall f: nat {:trigger StuckSomewhere(net, r, st, f)} :: Bulk(net, f) && st.scaled[f] ==> StuckSomewhere(net, r, st, f)
  }

  /** No good link is asked for more than `gamma` times what it has left, and every fixed
      flow was divided by at least `gamma`. */
  ghost predicate Settled(net: Net, r: seq<real>, st: Fill, gamma: real)
    requires Shaped(net, r, st)
  {
    && gamma > 0.0
    && (forall l: nat :: Good(net, r, l) ==> st.utput[l] <= gamma * st.uc[l])
    && (forall f: nat :: Bulk(net, f) && st.scaled[f] ==> Factors(net, r, st.tput)[f] <= 1.0 / gamma)
  }

  // ---------- Loads of open and fixed flows ----------

  lemma OpenLoad(net: Net, r: seq<real>, st: Fill, l: nat)
    requires Accounts(net, r, st) && l < |net.mu|
    ensures st.utput[l] >= 0.0
    ensures st.utput[l] > 0.0 <==> exists f: nat :: Bulk(net, f) && Crosses(net, f, l) && !st.scaled[f]
  {
    var open := Part(st.tput, Open(st.scaled));
    var zero := seq(|r|, _ => 0.0);
    LoadZero(net.routes, zero, l);
    LoadMonotone(net.routes, zero, open, l);
    if f: nat :| Bulk(net, f) && Crosses(net, f, l) && !st.scaled[f] {
      LoadStrict(net.routes, zero, open, f, l);
    } else {
      assert forall f: nat :: Bulk(net, f) && !st.scaled[f] ==> !Crosses(net, f, l);
      LoadZero(net.routes, open, l);
    }
  }

  /** A link without room has no capacity left, whatever was fixed. */
  lemma BadLinksAreFull(net: Net, r: seq<real>, st: Fill, l: nat)
    requires Accounts(net, r, st) && l < |net.mu|
    ensures st.uc[l] <= Room(net, r, l)
  {
    LoadMonotone(net.routes, Part(r, net.short), Part(st.tput, st.scaled), l);
  }

  lemma TotalLoad(net: Net, r: seq<real>, st: Fill, l: nat)
    requires Accounts(net, r, st) && l < |net.mu|
    ensures Load(net.routes, st.tput, l) == Capacity(net, l) - st.uc[l] + st.utput[l]
  {
    LoadSplit(net.routes, st.tput, st.scaled, Open(st.scaled), l);
  }

  // ---------- Fixing one flow ----------

  /** Divide the rate of flow `t` by `gamma` and take it out of the accounts of its links:
      the scaled rate out of the capacity, the unscaled one out of the throughput. */
  function FixFlow(net: Net, st: Fill, t: nat, gamma: real): Fill
    requires ValidNet(net) && t < |net.routes| && gamma != 0.0
    requires |st.uc| == |st.utput| == |net.mu| && |st.tput| == |st.scaled| == |net.routes|
  {
    var x := st.tput[t] / gamma;
    Fill(
      seq(|st.uc|, l requires 0 <= l < |st.uc| => st.uc[l] - Times(Count(net.routes[t], l), x)),
      seq(|st.utput|, l requires 0 <= l < |st.utput| => st.utput[l] - Times(Count(net.routes[t], l), st.tput[t])),
      st.tput[t := x],
      st.scaled[t := true])
  }

  lemma FixFlowTakesCapacity(net: Net, r: seq<real>, st: Fill, t: nat, gamma: real, l: nat)
    requires Accounts(net, r, st) && t < |r| && !st.scaled[t] && gamma > 0.0 && l < |net.mu|
    ensures
      var st' := FixFlow(net, st, t, gamma);
      st'.uc[l] == Capacity(net, l) - Load(net.routes, Part(st'.tput, st'.scaled), l)
  {
    var st', x, fixed := FixFlow(net, st, t, gamma), st.tput[t] / gamma, Part(st.tput, st.scaled);
    assert Part(st'.tput, st'.scaled) == fixed[t := x];
    LoadUpdate(net.routes, fixed, t, x, l);
    TimesNegated(Count(net.routes[t], l), 0.0);
  }

  lemma FixFlowTakesThroughput(net: Net, r: seq<real>, st: Fill, t: nat, gamma: real, l: nat)
    requires Accounts(net, r, st) && t < |r| && !st.scaled[t] && gamma > 0.0 && l < |net.mu|
    ensures
      var st' := FixFlow(net, st, t, gamma);
      st'.utput[l] == Load(net.routes, Part(st'.tput, Open(st'.scaled)), l)
  {
    var st', open := FixFlow(net, st, t, gamma), Part(st.tput, Open(st.scaled));
    assert Part(st'.tput, Open(st'.scaled)) == open[t := 0.0];
    LoadUpdate(net.routes, open, t, 0.0, l);
    TimesNegated(Count(net.routes[t], l), 0.0);
  }

  lemma FixFlowKeepsAccounts(net: Net, r: seq<real>, st: Fill, t: nat, gamma: real)
    requires Accounts(net, r, st) && t < |r| && !st.scaled[t] && gamma > 0.0
    ensures Accounts(net, r, FixFlow(net, st, t, gamma))
  {
    Quotient(st.tput[t], gamma);
    forall l | 0 <= l < |net.mu|
      ensures
        var st' := FixFlow(net, st, t, gamma);
        && st'.uc[l] == Capacity(net, l) - Load(net.routes, Part(st'.tput, st'.scaled), l)
        && st'.utput[l] == Load(net.routes, Part(st'.tput, Open(st'.scaled)), l)
    {
      FixFlowTakesCapacity(net, r, st, t, gamma, l);
      FixFlowTakesThroughput(net, r, st, t, gamma, l);
    }
  }

  /** Fixing a flow changes capacity and throughput in the ratio 1 : gamma. */
  lemma FixFlowKeepsSlack(net: Net, st: Fill, t: nat, gamma: real, l: nat)
    requires ValidNet(net) && t < |net.routes| && gamma != 0.0 && l < |net.mu|
    requires |st.uc| == |st.utput| == |net.mu| && |st.tput| == |st.scaled| == |net.routes|
    ensures
      var st' := FixFlow(net, st, t, gamma);
      gamma * st'.uc[l] - st'.utput[l] == gamma * st.uc[l] - st.utput[l]
  {
    var c, x := Count(net.routes[t], l), st.tput[t] / gamma;
    Exact(st.tput[t], gamma);
    TimesScaled(c, x, gamma, st.tput[t]);
    Subtract(gamma, st.uc[l], Times(c, x));
  }

  lemma Exact(a: real, b: real)
    requires b != 0.0
    ensures a / b * b == a && b * (a / b) == a
  {
  }

  lemma Subtract(a: real, b: real, c: real)
    ensures a * (b - c) == a * b - a * c
  {
  }

  lemma {:induction false} TimesScaled(c: nat, x: real, gamma: real, y: real)
    requires y == gamma * x
    ensures Times(c, y) == gamma * Times(c, x)
  {
    if c > 0 {
      TimesScaled(c - 1, x, gamma, y);
      Distribute(Times(c - 1, x), x, gamma);
    }
  }

  // ---------- One round ----------

  /** Part of the flows of link `b` have been fixed since `before`. */
  ghost predicate Round(net: Net, r: seq<real>, before: Fill, st: Fill, gamma: real, b: nat) {
    && Shaped(net, r, before) && Accounts(net, r, st) && gamma > 0.0
    && (forall l :: 0 <= l < |net.mu| ==>
          gamma * st.uc[l] - st.utput[l] == gamma * before.uc[l] - before.utput[l])
    && (forall f :: 0 <= f < |r| && before.scaled[f] ==> st.scaled[f] && st.tput[f] == before.tput[f])
    && (forall f :: 0 <= f < |r| && !before.scaled[f] && st.scaled[f] ==>
          Crosses(net, f, b) && st.tput[f] == r[f] / gamma)
  }

  lemma RoundStep(net: Net, r: seq<real>, before: Fill, st: Fill, gamma: real, b: nat, t: nat)
    requires Round(net, r, before, st, gamma, b) && t < |r| && !st.scaled[t] && Crosses(net, t, b)
    ensures Round(net, r, before, FixFlow(net, st, t, gamma), gamma, b)
  {
    FixFlowKeepsAccounts(net, r, st, t, gamma);
    forall l | 0 <= l < |net.mu|
      ensures
        var st' := FixFlow(net, st, t, gamma);
        gamma * st'.uc[l] - st'.utput[l] == gamma * before.uc[l] - before.utput[l]
    {
      FixFlowKeepsSlack(net, st, t, gamma, l);
    }
  }

  /** The factor of a flow fixed in this round. */
  lemma NewFactor(net: Net, r: seq<real>, st: Fill, gamma: real, f: nat)
    requires Shaped(net, r, st) && Bulk(net, f) && gamma > 0.0 && st.tput[f] == r[f] / gamma
    ensures Factors(net, r, st.tput)[f] == 1.0 / gamma
  {
    assert r[f] / gamma / r[f] == 1.0 / gamma;
  }

  /** The link whose flows are all fixed now is exactly full. */
  lemma BottleneckIsFull(net: Net, r: seq<real>, before: Fill, st: Fill, gamma: real, b: nat)
    requires Round(net, r, before, st, gamma, b) && b < |net.mu|
    requires before.utput[b] == gamma * before.uc[b]
    requires forall f: nat :: Bulk(net, f) && Crosses(net, f, b) ==> st.scaled[f]
    ensures st.uc[b] == 0.0 && st.utput[b] == 0.0
  {
    OpenLoad(net, r, st, b);
    assert gamma * st.uc[b] == 0.0;
  }

  /** Nothing changes on a full link whose bulk flows were all fixed before. */
  lemma FullLinkStays(net: Net, r: seq<real>, before: Fill, st: Fill, gamma: real, b: nat, l: nat)
    requires Round(net, r, before, st, gamma, b) && Accounts(net, r, before) && l < |net.mu|
    requires forall g: nat :: Bulk(net, g) && Crosses(net, g, l) ==> before.scaled[g]
    ensures st.uc[l] == before.uc[l]
  {
    var was, now := Part(before.tput, before.scaled), Part(st.tput, st.scaled);
    forall f | 0 <= f < |r| && Count(net.routes[f], l) > 0
      ensures was[f] == now[f]
    {
      if !net.short[f] { assert Bulk(net, f) && Crosses(net, f, l); }
    }
    LoadMonotone(net.routes, was, now, l);
    LoadMonotone(net.routes, now, was, l);
  }

  /** The link has no capacity left, and all its bulk flows are fixed. */
  ghost predicate Exhausted(net: Net, st: Fill, l: nat)
    requires ValidNet(net) && |st.uc| == |net.mu| && |st.scaled| == |net.routes|
  {
    && l < |net.mu| && st.uc[l] == 0.0
    && forall g: nat :: Bulk(net, g) && Crosses(net, g, l) ==> st.scaled[g]
  }

  /** An exhausted link carries exactly its capacity. */
  lemma ExhaustedIsFull(net: Net, r: seq<real>, st: Fill, l: nat)
    requires Accounts(net, r, st) && Exhausted(net, st, l)
    ensures Load(net.routes, st.tput, l) == Capacity(net, l)
  {
    OpenLoad(net, r, st, l);
    TotalLoad(net, r, st, l);
  }

  /** And it stays exhausted, whatever link is filled later. */
  lemma ExhaustedStays(net: Net, r: seq<real>, before: Fill, st: Fill, gamma: real, b: nat, l: nat)
    requires Round(net, r, before, st, gamma, b) && Accounts(net, r, before)
    requires Exhausted(net, before, l)
    ensures Exhausted(net, st, l)
  {
    FullLinkStays(net, r, before, st, gamma, b, l);
  }

  lemma StuckStays(net: Net, r: seq<real>, before: Fill, st: Fill, gamma: real, b: nat, f: nat, l: nat)
    requires Round(net, r, before, st, gamma, b) && Accounts(net, r, before)
    requires Bulk(net, f) && before.scaled[f] && Stuck(net, r, before, f, l)
    ensures Stuck(net, r, st, f, l)
  {
    FullLinkStays(net, r, before, st, gamma, b, l);
    forall g: nat | Bulk(net, g) && Crosses(net, g, l)
      ensures Factors(net, r, st.tput)[g] == Factors(net, r, before.tput)[g]
    {
      SameFactor(net, r, before.tput, st.tput, g);
    }
    SameFactor(net, r, before.tput, st.tput, f);
  }

  lemma RoundFactors(net: Net, r: seq<real>, before: Fill, st: Fill, gamma: real, b: nat, f: nat)
    requires Round(net, r, before, st, gamma, b) && Bulk(net, f) && st.scaled[f]
    requires Settled(net, r, before, gamma)
    ensures Factors(net, r, st.tput)[f] <= 1.0 / gamma
    ensures !before.scaled[f] ==> Factors(net, r, st.tput)[f] == 1.0 / gamma
  {
    if before.scaled[f] { SameFactor(net, r, before.tput, st.tput, f); }
    else { NewFactor(net, r, st, gamma, f); }
  }

  lemma RoundKeepsSettled(net: Net, r: seq<real>, before: Fill, st: Fill, gamma: real, b: nat)
    requires Round(net, r, before, st, gamma, b) && Settled(net, r, before, gamma)
    ensures Settled(net, r, st, gamma)
  {
    forall f: nat | Bulk(net, f) && st.scaled[f]
      ensures Factors(net, r, st.tput)[f] <= 1.0 / gamma
    {
      RoundFactors(net, r, before, st, gamma, b, f);
    }
  }

  /** A complete round keeps everything, and leaves its link full. */
  lemma RoundDone(net: Net, r: seq<real>, before: Fill, st: Fill, gamma: real, b: nat)
    requires Round(net, r, before, st, gamma, b) && Accounts(net, r, before)
    requires Good(net, r, b) && before.utput[b] == gamma * before.uc[b]
    requires Settled(net, r, before, gamma) && AllStuck(net, r, before)
    requires forall f: nat :: Bulk(net, f) && Crosses(net, f, b) ==> st.scaled[f]
    ensures st.uc[b] == 0.0 && Settled(net, r, st, gamma) && AllStuck(net, r, st)
  {
    BottleneckIsFull(net, r, before, st, gamma, b);
    RoundKeepsSettled(net, r, before, st, gamma, b);
    forall f: nat | Bulk(net, f) && st.scaled[f]
      ensures StuckSomewhere(net, r, st, f)
    {
      if before.scaled[f] {
        assert StuckSomewhere(net, r, before, f);
        var l :| Stuck(net, r, before, f, l);
        StuckStays(net, r, before, st, gamma, b, f, l);
      } else {
        NewIsStuck(net, r, before, st, gamma, b, f);
      }
    }
  }

  /** A flow fixed in this round is stuck on the link of the round. */
  lemma NewIsStuck(net: Net, r: seq<real>, before: Fill, st: Fill, gamma: real, b: nat, f: nat)
    requires Round(net, r, before, st, gamma, b) && Settled(net, r, before, gamma)
    requires Good(net, r, b) && st.uc[b] == 0.0
    requires forall g: nat :: Bulk(net, g) && Crosses(net, g, b) ==> st.scaled[g]
    requires Bulk(net, f) && !before.scaled[f] && st.scaled[f]
    ensures Stuck(net, r, st, f, b)
  {
    RoundFactors(net, r, before, st, gamma, b, f);
    forall g: nat | Bulk(net, g) && Crosses(net, g, b)
      ensures Factors(net, r, st.tput)[g] <= Factors(net, r, st.tput)[f]
    {
      RoundFactors(net, r, before, st, gamma, b, g);
    }
  }

  // ---------- Choosing the next link ----------

  /** The scan over all links with capacity left ended with this choice. */
  ghost predicate Chosen(net: Net, st: Fill, b: int, gamma: real)
    requires |st.uc| == |st.utput| == |net.mu|
  {
    && gamma >= 0.0 && -1 <= b < |net.mu|
    && (b == -1 ==> gamma == 0.0)
    && (b >= 0 ==> gamma > 0.0 && st.uc[b] != 0.0 && gamma == st.utput[b] / st.uc[b])
    && forall l :: 0 <= l < |net.mu| && st.uc[l] != 0.0 ==> st.utput[l] / st.uc[l] <= gamma
  }

  // ---------- The course of the loop ----------

  /** A choice of the loop: the books at the time, the link and its ratio. */
  datatype Pick = Pick(st: Fill, link: nat, gamma: real)

  /** The choice was made by the scan, and `now` are the books once all flows of the link are
      fixed. */
  ghost predicate Turn(net: Net, r: seq<real>, p: Pick, now: Fill) {
    && Accounts(net, r, p.st) && Chosen(net, p.st, p.link, p.gamma)
    && Round(net, r, p.st, now, p.gamma, p.link)
    && forall f: nat :: Bulk(net, f) && Crosses(net, f, p.link) ==> now.scaled[f]
  }

  /** From the opened books, these choices in turn lead to `now`, with ratios that never
      increase. */
  ghost predicate Filling(net: Net, r: seq<real>, picks: seq<Pick>, now: Fill) {
    if picks == [] then Accounts(net, r, now) && now.scaled == net.short && now.tput == r
    else
      var before, p := picks[..|picks| - 1], picks[|picks| - 1];
      && Filling(net, r, before, p.st) && Turn(net, r, p, now)
      && (before != [] ==> p.gamma <= before[|before| - 1].gamma)
  }

  function Links(picks: seq<Pick>): set<nat> {
    set p | p in picks :: p.link
  }

  lemma OnePickMore(net: Net, r: seq<real>, picks: seq<Pick>, now: Fill, p: Pick)
    requires Filling(net, r, picks, p.st) && Turn(net, r, p, now)
    requires picks != [] ==> p.gamma <= picks[|picks| - 1].gamma
    ensures Filling(net, r, picks + [p], now)
    ensures Links(picks + [p]) == Links(picks) + {p.link}
  {
    assert (picks + [p])[..|picks|] == picks;
  }

  /** Good links are never overdrawn, and one that is exhausted has nothing left to scale. */
  ghost predicate Solvent(net: Net, r: seq<real>, st: Fill)
    requires Shaped(net, r, st)
  {
    forall l: nat :: Good(net, r, l) ==> st.uc[l] >= 0.0 && (st.utput[l] > 0.0 ==> st.uc[l] > 0.0)
  }

  lemma DividedSign(g: real, u: real, a: real)
    requires g > 0.0 && 0.0 <= a <= g * u
    ensures u >= 0.0 && (a > 0.0 ==> u > 0.0)
  {
    if u < 0.0 { MulStrict(g, u, 0.0); }
  }

  lemma SettledIsSolvent(net: Net, r: seq<real>, st: Fill, gamma: real)
    requires Accounts(net, r, st) && Settled(net, r, st, gamma)
    ensures Solvent(net, r, st)
  {
    forall l: nat | Good(net, r, l)
      ensures st.uc[l] >= 0.0 && (st.utput[l] > 0.0 ==> st.uc[l] > 0.0)
    {
      OpenLoad(net, r, st, l);
      DividedSign(gamma, st.uc[l], st.utput[l]);
    }
  }

  /** A quotient of a non-negative by a non-zero number is positive only if both are. */
  lemma PositiveQuotient(a: real, c: real)
    requires a >= 0.0 && c != 0.0 && a / c > 0.0
    ensures a > 0.0 && c > 0.0
  {
    assert a / c * c == a;
    PositiveProduct(a / c, c, a);
  }

  lemma PositiveProduct(q: real, c: real, a: real)
    requires q > 0.0 && c != 0.0 && a >= 0.0 && q * c == a
    ensures a > 0.0 && c > 0.0
  {
    if c < 0.0 { MulStrict(q, c, 0.0); }
  }

  lemma QuotientBound(a: real, c: real, q: real)
    requires c > 0.0 && a / c <= q
    ensures a <= q * c
  {
    MulMonotone(c, a / c, q);
    assert c * (a / c) == a && c * q == q * c;
  }

  /** The chosen link is good, some open flow crosses it, and its ratio bounds all others. */
  lemma ChoiceIsGood(net: Net, r: seq<real>, st: Fill, b: int, gamma: real)
    requires Accounts(net, r, st) && Solvent(net, r, st) && Chosen(net, st, b, gamma) && b >= 0
    ensures Good(net, r, b) && st.uc[b] > 0.0 && st.utput[b] == gamma * st.uc[b]
    ensures exists f: nat :: Bulk(net, f) && Crosses(net, f, b) && !st.scaled[f]
    ensures forall l: nat :: Good(net, r, l) ==> st.utput[l] <= gamma * st.uc[l]
  {
    OpenLoad(net, r, st, b);
    PositiveQuotient(st.utput[b], st.uc[b]);
    BadLinksAreFull(net, r, st, b);
    forall l: nat | Good(net, r, l)
      ensures st.utput[l] <= gamma * st.uc[l]
    {
      OpenLoad(net, r, st, l);
      if st.uc[l] > 0.0 { QuotientBound(st.utput[l], st.uc[l], gamma); }
    }
  }

  /** Successive ratios never increase. */
  lemma RatiosFall(net: Net, r: seq<real>, st: Fill, gamma: real, b: int, gamma': real)
    requires Accounts(net, r, st) && Settled(net, r, st, gamma) && Chosen(net, st, b, gamma') && b >= 0
    ensures gamma' <= gamma
  {
    SettledIsSolvent(net, r, st, gamma);
    ChoiceIsGood(net, r, st, b, gamma');
    BoundedRatio(gamma', gamma, st.uc[b], st.utput[b]);
  }

  lemma BoundedRatio(x: real, y: real, c: real, a: real)
    requires c > 0.0 && a == x * c && a <= y * c
    ensures x <= y
  {
    CancelBound(c, x, y);
  }

  lemma CancelBound(c: real, x: real, y: real)
    requires c > 0.0 && x * c <= y * c
    ensures x <= y
  {
    if x > y { MulStrict(c, y, x); }
  }

  lemma InverseOrder(a: real, b: real)
    requires 0.0 < a <= b
    ensures 1.0 / b <= 1.0 / a
  {
    var p, q := 1.0 / a, 1.0 / b;
    Quotient(1.0, a);
    Quotient(1.0, b);
    MulMonotone(q, a, b);
    CancelBound(a, q, p);
  }

  lemma NextIsSettled(net: Net, r: seq<real>, st: Fill, gamma: real, b: int, gamma': real)
    requires Accounts(net, r, st) && Settled(net, r, st, gamma) && Chosen(net, st, b, gamma') && b >= 0
    ensures Settled(net, r, st, gamma')
  {
    SettledIsSolvent(net, r, st, gamma);
    ChoiceIsGood(net, r, st, b, gamma');
    RatiosFall(net, r, st, gamma, b, gamma');
    InverseOrder(gamma', gamma);
  }

  // ---------- The end of the loop ----------

  /** What the loop leaves behind, for any capacities. */
  ghost predicate Filled(net: Net, r: seq<real>, x: seq<real>)
    requires ValidNet(net) && Demanding(net, r)
  {
    && |x| == |r|
    && (forall f :: 0 <= f < |r| ==> if net.short[f] then x[f] == r[f] else x[f] > 0.0)
    && (forall l: nat :: Good(net, r, l) ==> Load(net.routes, x, l) <= Capacity(net, l))
    && (forall l: nat :: l < |net.mu| && BulkOn(net, l) && !Good(net, r, l) ==> Load(net.routes, x, l) > Capacity(net, l))
    && (forall f: nat, l: nat :: Bulk(net, f) && Good(net, r, l) && Crosses(net, f, l) ==> HasBottleneck(net, r, x, f))
  }

  lemma NothingLeft(net: Net, r: seq<real>, st: Fill, l: nat)
    requires Accounts(net, r, st) && Solvent(net, r, st) && Chosen(net, st, -1, 0.0) && Good(net, r, l)
    ensures st.utput[l] == 0.0
    ensures forall f: nat :: Bulk(net, f) && Crosses(net, f, l) ==> st.scaled[f]
  {
    OpenLoad(net, r, st, l);
    if st.utput[l] > 0.0 {
      QuotientBound(st.utput[l], st.uc[l], 0.0);
    }
  }

  lemma OverloadedLink(net: Net, r: seq<real>, st: Fill, l: nat)
    requires Accounts(net, r, st) && l < |net.mu| && BulkOn(net, l) && !Good(net, r, l)
    ensures Load(net.routes, st.tput, l) > Capacity(net, l)
  {
    var f: nat :| Bulk(net, f) && Crosses(net, f, l);
    LoadStrict(net.routes, Part(r, net.short), st.tput, f, l);
  }

  lemma LoopEnd(net: Net, r: seq<real>, st: Fill)
    requires Accounts(net, r, st) && Solvent(net, r, st) && Chosen(net, st, -1, 0.0) && AllStuck(net, r, st)
    ensures Filled(net, r, st.tput)
  {
    forall l: nat | Good(net, r, l)
      ensures Load(net.routes, st.tput, l) <= Capacity(net, l)
    {
      NothingLeft(net, r, st, l);
      TotalLoad(net, r, st, l);
    }
    forall l: nat | l < |net.mu| && BulkOn(net, l) && !Good(net, r, l)
      ensures Load(net.routes, st.tput, l) > Capacity(net, l)
    {
      OverloadedLink(net, r, st, l);
    }
    forall f: nat, l: nat | Bulk(net, f) && Good(net, r, l) && Crosses(net, f, l)
      ensures HasBottleneck(net, r, st.tput, f)
    {
      NothingLeft(net, r, st, l);
      assert StuckSomewhere(net, r, st, f);
      var l' :| Stuck(net, r, st, f, l');
      StuckIsBottleneck(net, r, st, f, l');
    }
  }

  lemma StuckIsBottleneck(net: Net, r: seq<real>, st: Fill, f: nat, l: nat)
    requires Accounts(net, r, st) && Solvent(net, r, st) && Chosen(net, st, -1, 0.0)
    requires Bulk(net, f) && Stuck(net, r, st, f, l)
    ensures IsBottleneck(net, r, st.tput, f, l)
  {
    NothingLeft(net, r, st, l);
    TotalLoad(net, r, st, l);
  }

  // ---------- What that means ----------

  /** Every link that carries bulk flows has room for them. */
  ghost predicate AllGood(net: Net, r: seq<real>)
    requires ValidNet(net) && |r| == |net.routes|
  {
    forall l: nat :: l < |net.mu| && BulkOn(net, l) ==> Good(net, r, l)
  }

  /** The result respects the capacities exactly when the short flows leave room on every
      link that bulk flows use. */
  lemma FeasibleExactlyWithRoom(net: Net, r: seq<real>, x: seq<real>)
    requires ValidNet(net) && Demanding(net, r) && Filled(net, r, x)
    ensures Feasible(net, r, x) <==> AllGood(net, r)
  {
  }

  /** With room everywhere and no empty route, the result is the weighted max-min fair
      allocation: it is fair, and every fair allocation equals it. */
  lemma FilledIsFair(net: Net, r: seq<real>, x: seq<real>)
    requires ValidNet(net) && Demanding(net, r) && Filled(net, r, x) && AllGood(net, r)
    requires forall f :: 0 <= f < |net.routes| ==> net.routes[f] != []
    ensures MaxMinFair(net, r, x)
    ensures forall y :: MaxMinFair(net, r, y) ==> y == x
  {
    forall f: nat | Bulk(net, f)
      ensures HasBottleneck(net, r, x, f)
    {
      var route := net.routes[f];
      var l := route[|route| - 1];
      assert Crosses(net, f, l);
      assert BulkOn(net, l);
    }
    BottleneckedIsFair(net, r, x);
    forall y | MaxMinFair(net, r, y) ensures y == x {
      FairIsUnique(net, r, x, y);
    }
  }
}
