/**
 The operating point of a RED queue, `asim/asim.h`: for an arrival rate, relative to the
 capacity, the drop probability at which the queue that builds up is the one that RED maps to
 that probability. Arithmetic is exact; the square root is a parameter.
 */
module RedRouter {
  import opened Basics

  /** The thresholds and the largest drop probability on the RED line. */
  datatype Red = Red(minTh: real, maxTh: real, maxP: real)

  ghost predicate ValidRed(r: Red) {
    0.0 <= r.minTh < r.maxTh && 0.0 < r.maxP <= 1.0
  }

  function Slope(r: Red): real
    requires r.maxP != 0.0
  {
    (r.maxTh - r.minTh) / r.maxP
  }

  /** The queue length to which RED assigns drop probability `p`. */
  function Line(r: Red, p: real): real
    requires r.maxP != 0.0
  {
    r.minTh + p * Slope(r)
  }

  /** `q` is the mean queue length for load `u`. */
  ghost predicate QueueFor(u: real, q: real) {
    0.0 <= u < 1.0 && q == u / (1.0 - u)
  }

  method QueueLength(u: real) returns (q: real)
    requires 0.0 <= u < 1.0
    ensures QueueFor(u, q)
  {
    q := u / (1.0 - u);
  }

  /** With drop probability `p` the queue lies on the RED line. */
  ghost predicate Operates(r: Red, rate: real, p: real)
    requires r.maxP != 0.0
  {
    QueueFor(rate * (1.0 - p), Line(r, p))
  }

  // ---------- Quadratic equations ----------

  function Quadratic(a: real, b: real, c: real, x: real): real {
    a * x * x + b * x + c
  }

  /** The square root of the discriminant. */
  predicate RootOf(a: real, b: real, c: real, root: real) {
    root >= 0.0 && root * root == b * b - 4.0 * a * c
  }

  lemma WholeShare(x: real, p: real)
    requires x > 0.0
    ensures (x - x * (1.0 - p)) / x == p
  {
    assert x - x * (1.0 - p) == x * p;
  }

  lemma Monotone(x: real, y: real, w: real)
    requires x <= y && w >= 0.0
    ensures x * w <= y * w
  {
  }

  lemma Cancel(x: real, y: real)
    requires x > 0.0 && x * y == 0.0
    ensures y == 0.0
  {
  }

  lemma FormulaSolves(a: real, b: real, c: real, root: real, x: real)
    requires a > 0.0 && root * root == b * b - 4.0 * a * c && x == (-b + root) / (2.0 * a)
    ensures Quadratic(a, b, c, x) == 0.0
  {
    var t := a * x;
    assert 2.0 * t + b == root by { assert x * (2.0 * a) == -b + root; }
    assert (2.0 * t + b) * (2.0 * t + b) == 4.0 * (t * t) + 4.0 * (b * t) + b * b;
    assert t * t == a * (a * x * x) && b * t == a * (b * x);
    assert a * Quadratic(a, b, c, x) == a * (a * x * x) + a * (b * x) + a * c;
    assert 4.0 * (a * Quadratic(a, b, c, x)) == 0.0;
    Cancel(a, Quadratic(a, b, c, x));
  }

  lemma FormulaIsPositive(a: real, b: real, c: real, root: real, x: real)
    requires a > 0.0 && c < 0.0 && root >= 0.0
    requires root * root == b * b - 4.0 * a * c && x == (-b + root) / (2.0 * a)
    ensures x > 0.0
  {
    Product(a, -c);
    assert root * root > b * b;
    assert (b - root) * (b + root) == b * b - root * root;
    if root <= b {
      Product(b - root, b + root);
    }
    assert x * (2.0 * a) > 0.0;
    if x <= 0.0 {
      Product(-x, 2.0 * a);
    }
  }

  /** The positive solution of a quadratic equation. */
  method Solve(a: real, b: real, c: real, root: real) returns (x: real)
    requires a > 0.0 && c < 0.0 && RootOf(a, b, c, root)
    ensures x > 0.0 && Quadratic(a, b, c, x) == 0.0
  {
    x := (-b + root) / (2.0 * a);
    FormulaSolves(a, b, c, root, x);
    FormulaIsPositive(a, b, c, root, x);
  }

  lemma Cross(a: real, b: real, c: real, x: real, y: real)
    ensures x * Quadratic(a, b, c, y) - y * Quadratic(a, b, c, x) == (y - x) * (a * (x * y) - c)
  {
    assert x * Quadratic(a, b, c, y) == a * (x * y) * y + b * (x * y) + c * x;
    assert y * Quadratic(a, b, c, x) == a * (x * y) * x + b * (x * y) + c * y;
    assert (y - x) * (a * (x * y) - c) == a * (x * y) * y - a * (x * y) * x - c * y + c * x;
  }

  /** If `x` times `q` is `d` times `s`, with `x` and `s` positive, then `q` has the sign of
      `d`. */
  lemma SameSign(x: real, q: real, d: real, s: real)
    requires x > 0.0 && s > 0.0 && x * q == d * s
    ensures q > 0.0 <==> d > 0.0
    ensures q < 0.0 <==> d < 0.0
  {
    Sign(x, q);
    Sign(s, d);
    assert s * d == d * s;
  }

  lemma Sign(x: real, q: real)
    requires x > 0.0
    ensures q > 0.0 ==> x * q > 0.0
    ensures q < 0.0 ==> x * q < 0.0
    ensures q == 0.0 ==> x * q == 0.0
  {
    if q > 0.0 { Product(x, q); }
    if q < 0.0 { Product(x, -q); assert x * -q == -(x * q); }
  }

  /** Above its positive root the quadratic is positive, below it negative. */
  lemma SignAroundRoot(a: real, b: real, c: real, x: real, y: real)
    requires a > 0.0 && c < 0.0 && x > 0.0 && y > 0.0 && Quadratic(a, b, c, x) == 0.0
    ensures Quadratic(a, b, c, y) >= 0.0 <==> y >= x
    ensures Quadratic(a, b, c, y) == 0.0 <==> y == x
  {
    RootFactor(a, b, c, x, y);
    var s := a * (x * y) - c;
    Product(x, y);
    Product(a, x * y);
    SameSign(x, Quadratic(a, b, c, y), y - x, s);
  }

  lemma RootFactor(a: real, b: real, c: real, x: real, y: real)
    requires Quadratic(a, b, c, x) == 0.0
    ensures x * Quadratic(a, b, c, y) == (y - x) * (a * (x * y) - c)
  {
    Cross(a, b, c, x, y);
    Nothing(y, Quadratic(a, b, c, x));
  }

  lemma Nothing(y: real, q: real)
    requires q == 0.0
    ensures y * q == 0.0
  {
  }

  // ---------- The quadratic of RED ----------

  function A(r: Red, rate: real): real
    requires r.maxP != 0.0
  {
    rate * (r.maxTh - r.minTh) / r.maxP
  }

  function B(r: Red, rate: real): real
    requires r.maxP != 0.0
  {
    (r.maxTh - r.minTh) * (1.0 - rate) / r.maxP + r.minTh * rate + rate
  }

  function C(r: Red, rate: real): real {
    r.minTh * (1.0 - rate) - rate
  }

  /** How far the point on the RED line is from the queue that forms there. */
  function Excess(r: Red, rate: real, p: real): real
    requires r.maxP != 0.0
  {
    Line(r, p) * (1.0 - rate * (1.0 - p)) - rate * (1.0 - p)
  }

  lemma ExcessIsQuadratic(r: Red, rate: real, p: real)
    requires ValidRed(r)
    ensures Excess(r, rate, p) == Quadratic(A(r, rate), B(r, rate), C(r, rate), p)
  {
    var k, m := Slope(r), r.minTh;
    assert A(r, rate) == rate * k;
    assert B(r, rate) == k * (1.0 - rate) + m * rate + rate;
    var u := rate * p;
    assert rate * (1.0 - p) == rate - u;
    assert (m + p * k) * (1.0 - rate + u) == m * (1.0 - rate) + m * u + (p * k) * (1.0 - rate) + (p * k) * u;
    assert m * u == (m * rate) * p;
    assert (p * k) * (1.0 - rate) == (k * (1.0 - rate)) * p;
    assert (p * k) * u == (rate * k) * p * p;
  }

  /** A point is on the RED line exactly when its excess is 0. */
  lemma OperatesWhenBalanced(r: Red, rate: real, p: real)
    requires ValidRed(r) && rate > 0.0 && 0.0 < p <= 1.0
    ensures Operates(r, rate, p) <==> Excess(r, rate, p) == 0.0
  {
    var u, q := rate * (1.0 - p), Line(r, p);
    Product(rate, 1.0 - p);
    Product(p, Slope(r));
    assert q > 0.0;
    if u < 1.0 {
      assert q == u / (1.0 - u) <==> q * (1.0 - u) == u;
    } else {
      Product(q, u - 1.0);
      assert q * (1.0 - u) == -(q * (u - 1.0));
    }
  }

  /** A positive solution operates, and lies on the line if the line ends above the queue. */
  lemma RootOperates(r: Red, rate: real, p: real)
    requires ValidRed(r) && rate > 0.0 && A(r, rate) > 0.0 && C(r, rate) < 0.0
    requires p > 0.0 && Quadratic(A(r, rate), B(r, rate), C(r, rate), p) == 0.0
    requires Excess(r, rate, r.maxP) >= 0.0
    ensures p <= r.maxP && Operates(r, rate, p)
  {
    ExcessIsQuadratic(r, rate, r.maxP);
    SignAroundRoot(A(r, rate), B(r, rate), C(r, rate), p, r.maxP);
    ExcessIsQuadratic(r, rate, p);
    OperatesWhenBalanced(r, rate, p);
  }

  /** No other drop probability would do. */
  lemma OperatingPointIsUnique(r: Red, rate: real, p: real, p': real)
    requires ValidRed(r) && rate > 0.0 && r.minTh < rate * (1.0 + r.minTh)
    requires 0.0 < p <= 1.0 && 0.0 < p' <= 1.0
    ensures Operates(r, rate, p) && Operates(r, rate, p') ==> p == p'
  {
    OperatesWhenBalanced(r, rate, p);
    OperatesWhenBalanced(r, rate, p');
    ExcessIsQuadratic(r, rate, p);
    ExcessIsQuadratic(r, rate, p');
    Signs(r, rate);
    if Operates(r, rate, p) {
      SignAroundRoot(A(r, rate), B(r, rate), C(r, rate), p, p');
    }
  }

  lemma Signs(r: Red, rate: real)
    requires ValidRed(r) && rate > 0.0
    ensures A(r, rate) > 0.0
    ensures C(r, rate) < 0.0 <==> r.minTh < rate * (1.0 + r.minTh)
  {
    Product(rate, Slope(r));
    assert A(r, rate) == rate * Slope(r);
    assert r.minTh * (1.0 - rate) - rate == r.minTh - rate * (1.0 + r.minTh);
  }

  lemma EndOfLineIs(r: Red)
    requires ValidRed(r)
    ensures Line(r, r.maxP) == r.maxTh
  {
    assert r.maxP * ((r.maxTh - r.minTh) / r.maxP) == r.maxTh - r.minTh;
  }

  lemma ExcessAtEnd(r: Red, rate: real)
    requires ValidRed(r)
    ensures Excess(r, rate, r.maxP) == r.maxTh - rate * ((1.0 - r.maxP) * (1.0 + r.maxTh))
  {
    EndOfLineIs(r);
    Expand(r.maxTh, rate, 1.0 - r.maxP);
  }

  lemma Expand(m: real, x: real, y: real)
    ensures m * (1.0 - x * y) - x * y == m - x * (y * (1.0 + m))
  {
    assert m * (1.0 - x * y) == m - m * (x * y);
    assert x * (y * (1.0 + m)) == x * y + m * (x * y);
  }

  // ---------- The three regions ----------

  class RedRouter {
    const red: Red
    const rateL: real
    const rateH: real

    /** The rates at which the drop probability leaves 0 and reaches its largest value. */
    ghost predicate Valid() {
      && ValidRed(red)
      && rateL * (1.0 + red.minTh) == red.minTh
      && (red.maxP < 1.0 ==> rateH * (1.0 - red.maxP) * (1.0 + red.maxTh) == red.maxTh)
    }

    /** `Populate`. */
    constructor (r: Red)
      requires ValidRed(r)
      ensures Valid() && red == r
    {
      red := r;
      rateL := r.minTh / (1.0 + r.minTh);
      rateH := if r.maxP < 1.0 then r.maxTh / (1.0 + r.maxTh) / (1.0 - r.maxP) else 0.0;
    }

    ghost predicate Low(rate: real)
      requires Valid()
    {
      rate <= rateL
    }

    ghost predicate High(rate: real)
      requires Valid()
    {
      !Low(rate) && red.maxP < 1.0 && rate > rateH
    }

    /** The square root that the middle region needs. */
    ghost predicate IsRoot(rate: real, root: real)
      requires Valid()
    {
      RootOf(A(red, rate), B(red, rate), C(red, rate), root)
    }

    /** In the middle region a positive solution lies on the line. */
    lemma MiddleOperates(rate: real, p: real)
      requires Valid() && !Low(rate) && !High(rate) && p > 0.0
      requires Quadratic(A(red, rate), B(red, rate), C(red, rate), p) == 0.0
      ensures p <= red.maxP && Operates(red, rate, p)
    {
      AIsPositive(rate);
      EndOfLine(rate);
      Positive(rate);
      RootOperates(red, rate, p);
    }

    lemma Positive(rate: real)
      requires Valid() && !Low(rate)
      ensures rate > 0.0 && red.minTh < rate * (1.0 + red.minTh)
    {
      if rateL < 0.0 { Product(-rateL, 1.0 + red.minTh); }
      Product(rate - rateL, 1.0 + red.minTh);
    }

    /** At the end of the line the queue has not formed yet. */
    lemma EndOfLine(rate: real)
      requires Valid() && !Low(rate) && !High(rate)
      ensures Excess(red, rate, red.maxP) >= 0.0
    {
      ExcessAtEnd(red, rate);
      if red.maxP < 1.0 {
        var w := (1.0 - red.maxP) * (1.0 + red.maxTh);
        Product(1.0 - red.maxP, 1.0 + red.maxTh);
        assert rateH * w == red.maxTh;
        Monotone(rate, rateH, w);
      }
    }

    /** At the thresholds the branches agree: at the first the queue of a drop-free link has
        just reached the start of the line, at the second the line has reached its end. */
    lemma AgreesAtThresholds()
      requires Valid()
      ensures QueueFor(rateL, Line(red, 0.0))
      ensures red.maxP < 1.0 ==>
                && rateH > 0.0
                && Operates(red, rateH, red.maxP)
                && (rateH - rateH * (1.0 - red.maxP)) / rateH == red.maxP
    {
      AtLow();
      if red.maxP < 1.0 { AtHigh(); }
    }

    lemma AtHigh()
      requires Valid() && red.maxP < 1.0
      ensures rateH > 0.0 && Operates(red, rateH, red.maxP)
      ensures (rateH - rateH * (1.0 - red.maxP)) / rateH == red.maxP
    {
      HighIsPositive();
      ExcessAtEnd(red, rateH);
      OperatesWhenBalanced(red, rateH, red.maxP);
      WholeShare(rateH, red.maxP);
    }

    lemma HighIsPositive()
      requires Valid() && red.maxP < 1.0
      ensures rateH > 0.0 && rateH * ((1.0 - red.maxP) * (1.0 + red.maxTh)) == red.maxTh
    {
      var w := (1.0 - red.maxP) * (1.0 + red.maxTh);
      assert rateH * w == red.maxTh;
      Product(1.0 - red.maxP, 1.0 + red.maxTh);
      if rateH <= 0.0 { Product(-rateH, w); }
    }

    lemma AtLow()
      requires Valid()
      ensures QueueFor(rateL, Line(red, 0.0))
    {
      var m := red.minTh;
      if rateL < 0.0 { Product(-rateL, 1.0 + m); }
      if rateL >= 1.0 { Product(rateL - 1.0, 1.0 + m); }
      assert Line(red, 0.0) == m by { assert 0.0 * Slope(red) == 0.0; }
      assert m * (1.0 - rateL) == rateL;
    }

    /** The drop probability and the queue length, in each region. */
    method ComputeProbability(rate: real, root: real) returns (p: real, delay: real)
      requires Valid() && rate >= 0.0
      requires !Low(rate) && !High(rate) ==> IsRoot(rate, root)
      ensures Low(rate) ==> p == 0.0 && QueueFor(rate, delay) && delay <= red.minTh
      ensures High(rate) ==> red.maxP < p < 1.0 && QueueFor(rate * (1.0 - p), delay) && delay == red.maxTh
      ensures !Low(rate) && !High(rate) ==>
                0.0 < p <= red.maxP && Operates(red, rate, p) && delay == Line(red, p)
    {
      if rate <= rateL {
        LowQueue(rate);
        delay := rate / (1.0 - rate);
        return 0.0, delay;
      }
      Positive(rate);
      if red.maxP < 1.0 && rate > rateH {
        delay := red.maxTh;
        p := (rate - rateH * (1.0 - red.maxP)) / rate;
        HighQueue(rate, p);
        return;
      }
      p, delay := Middle(rate, root);
    }

    /** The positive solution of the quadratic. */
    method Middle(rate: real, root: real) returns (p: real, delay: real)
      requires Valid() && !Low(rate) && !High(rate) && IsRoot(rate, root)
      ensures 0.0 < p <= red.maxP && Operates(red, rate, p) && delay == Line(red, p)
    {
      p := Solution(rate, root);
      MiddleOperates(rate, p);
      delay := QueueLength(rate * (1.0 - p));
    }

    method Solution(rate: real, root: real) returns (p: real)
      requires Valid() && !Low(rate) && IsRoot(rate, root)
      ensures p > 0.0 && Quadratic(A(red, rate), B(red, rate), C(red, rate), p) == 0.0
    {
      AIsPositive(rate);
      p := Solve(A(red, rate), B(red, rate), C(red, rate), root);
    }

    lemma AIsPositive(rate: real)
      requires Valid() && !Low(rate)
      ensures A(red, rate) > 0.0 && C(red, rate) < 0.0
    {
      Positive(rate);
      Signs(red, rate);
    }

    lemma LowQueue(rate: real)
      requires Valid() && 0.0 <= rate <= rateL
      ensures rate < 1.0 && rate / (1.0 - rate) <= red.minTh
    {
      var m := red.minTh;
      Product(rateL - rate, 1.0 + m);
      assert rate + rate * m <= m;
      if rate >= 1.0 { Product(rate - 1.0, 1.0 + m); }
      var q := rate / (1.0 - rate);
      assert q * (1.0 - rate) == rate <= m * (1.0 - rate);
      if q > m { Product(q - m, 1.0 - rate); }
    }

    lemma HighQueue(rate: real, p: real)
      requires Valid() && High(rate) && rate > 0.0
      requires p == (rate - rateH * (1.0 - red.maxP)) / rate
      ensures red.maxP < p < 1.0 && QueueFor(rate * (1.0 - p), red.maxTh)
    {
      var m, u := red.maxTh, rateH * (1.0 - red.maxP);
      assert p * rate == rate - u;
      assert rate * (1.0 - p) == u;
      assert u * (1.0 + m) == m;
      assert 0.0 < u < 1.0 by {
        if u <= 0.0 { Product(-u, 1.0 + m); }
        if u >= 1.0 { Product(u - 1.0, 1.0 + m); }
      }
      assert m * (1.0 - u) == u;
      if p >= 1.0 { Product(rate, p - 1.0); }
      AboveMaxP(rate, p);
    }

    lemma AboveMaxP(rate: real, p: real)
      requires Valid() && High(rate) && rate > 0.0
      requires rate * (1.0 - p) == rateH * (1.0 - red.maxP)
      ensures p > red.maxP
    {
      Product(rate - rateH, 1.0 - red.maxP);
      assert (rate - rateH) * (1.0 - red.maxP) == rate * (1.0 - red.maxP) - rateH * (1.0 - red.maxP);
      if p <= red.maxP { Monotone(1.0 - red.maxP, 1.0 - p, rate); }
    }
  }
}
