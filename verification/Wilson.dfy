/** The Wilson score interval of the effectiveness figure, over the reals.
  *
  * The square root is a parameter: a non-negative number whose square is the radicand.
  */
module Wilson {
  import opened Wrappers

  const Z_95: real := 1.959963984540054

  predicate IsRoot(s: real, x: real) { s >= 0.0 && s * s == x }

  // ---------------------------------------------------------------- rounding

  /** The nearest multiple of 1/10000, the larger one on a tie, of a non-negative number. */
  function RoundUpward(x: real): real { (x * 10000.0 + 0.5).Floor as real / 10000.0 }

  /** `Number(x.toFixed(4))` (section 21.1.3.3 of ECMA-262). */
  function Round4(x: real): real {
    if x < 0.0 then -RoundUpward(-x) else RoundUpward(x)
  }

  lemma FloorMonotone(x: real, y: real)
    requires x <= y
    ensures x.Floor <= y.Floor
  {
  }

  lemma RoundMonotone(x: real, y: real)
    requires 0.0 <= x <= y
    ensures Round4(x) <= Round4(y)
  {
    FloorMonotone(x * 10000.0 + 0.5, y * 10000.0 + 0.5);
    var m, n := (x * 10000.0 + 0.5).Floor, (y * 10000.0 + 0.5).Floor;
    assert (m as real) <= (n as real);
    DivideMonotone(m as real, n as real, 10000.0);
  }

  lemma DivideMonotone(a: real, b: real, c: real)
    requires a <= b && c > 0.0
    ensures a / c <= b / c
  {
  }

  lemma RoundIsNear(x: real)
    requires 0.0 <= x
    ensures -0.00005 < Round4(x) - x <= 0.00005
    ensures Round4(0.0) == 0.0 && Round4(1.0) == 1.0
  {
    var n := (x * 10000.0 + 0.5).Floor as real;
    assert n <= x * 10000.0 + 0.5 < n + 1.0;
    assert Round4(x) * 10000.0 == n;
    assert (0.5 as real).Floor == 0;
    assert (10000.5 as real).Floor == 10000;
  }

  // ---------------------------------------------------------------- the interval

  datatype Interval = Interval(low: real, high: real)

  function Radicand(n: real, d: real): real
    requires d > 0.0
  {
    (n / d * (1.0 - n / d)) / d + Z_95 * Z_95 / (4.0 * d * d)
  }

  function Term(d: real): (a: real)
    requires d > 0.0
    ensures a > 1.0
  {
    1.0 + Z_95 * Z_95 / d
  }

  function Centre(n: real, d: real): real
    requires d > 0.0
  {
    (n / d + Z_95 * Z_95 / (2.0 * d)) / Term(d)
  }

  function Spread(d: real, root: real): real
    requires d > 0.0
  {
    Z_95 * root / Term(d)
  }

  /** The bounds before clamping and rounding. */
  function Exact(n: real, d: real, root: real): Interval
    requires d > 0.0
  {
    Interval(Centre(n, d) - Spread(d, root), Centre(n, d) + Spread(d, root))
  }

  function Clamped(i: Interval): Interval {
    Interval(if i.low < 0.0 then 0.0 else i.low, if i.high > 1.0 then 1.0 else i.high)
  }

  function WilsonInterval(n: real, d: real, root: real): Option<Interval>
    requires d > 0.0 ==> IsRoot(root, Radicand(n, d))
  {
    if d <= 0.0 then None
    else
      var c := Clamped(Exact(n, d, root));
      Some(Interval(Round4(c.low), Round4(c.high)))
  }

  // ---------------------------------------------------------------- what the interval means

  /** The score test accepts `t` as the true proportion behind the observed proportion `p`. */
  predicate Accepts(p: real, k: real, t: real) { (p - t) * (p - t) <= k * t * (1.0 - t) }

  /** The test's threshold: the squared quantile over the sample size. */
  function Tightness(d: real): (k: real)
    requires d > 0.0
    ensures k > 0.0
  {
    Z_95 * Z_95 / d
  }

  lemma SquareBetween(u: real, r: real)
    requires r >= 0.0
    ensures -r <= u <= r <==> u * u <= r * r
  {
    DifferenceOfSquares(r, u);
    if -r <= u <= r {
      NonNegativeProduct(r - u, r + u);
    } else if u > r {
      SquareGrows(r, u);
    } else {
      SquareGrows(r, -u);
      SquareOfOpposite(u, -u);
    }
  }

  lemma DifferenceOfSquares(a: real, b: real)
    ensures (a - b) * (a + b) == a * a - b * b
  {
  }

  lemma SquareGrows(r: real, v: real)
    requires 0.0 <= r < v
    ensures r * r < v * v
  {
    var a, b := v - r, v + r;
    PositiveProduct(a, b);
    DifferenceOfSquares(v, r);
    assert a * b == v * v - r * r;
  }

  lemma SquareOfOpposite(u: real, v: real)
    requires v == -u
    ensures v * v == u * u
  {
  }

  lemma SquareIsNonNegative(x: real)
    ensures x * x >= 0.0
  {
    if x < 0.0 { PositiveProduct(-x, -x); }
  }

  lemma Cancel(a: real, b: real, d: real)
    requires d > 0.0 && a * d == b * d
    ensures a == b
  {
    assert (a - b) * d == 0.0;
  }

  lemma PositiveProduct(a: real, b: real)
    requires a > 0.0 && b > 0.0
    ensures a * b > 0.0
  {
  }

  /** The quadratic whose roots are the bounds. */
  lemma Quadratic(p: real, k: real, t: real)
    ensures var u := (1.0 + k) * t - (p + k / 2.0);
            u * u - (k * p * (1.0 - p) + k * k / 4.0) == (1.0 + k) * ((p - t) * (p - t) - k * t * (1.0 - t))
  {
  }

  lemma SignOfProduct(a: real, x: real)
    requires a > 0.0
    ensures a * x <= 0.0 <==> x <= 0.0
  {
  }

  /** The bounds, cleared of denominators. */
  lemma BoundsCleared(a: real, b: real, r: real, t: real)
    requires a > 0.0
    ensures b / a - r / a <= t <= b / a + r / a <==> -r <= a * t - b <= r
  {
    assert b / a * a == b && r / a * a == r;
    SignOfProduct(a, b / a - r / a - t);
    SignOfProduct(a, t - (b / a + r / a));
    assert a * (b / a - r / a - t) == b - r - a * t;
    assert a * (t - (b / a + r / a)) == a * t - b - r;
  }

  lemma TightnessForms(n: real, d: real)
    requires d > 0.0
    ensures var k, p := Tightness(d), n / d;
            && Term(d) == 1.0 + k && Centre(n, d) == (p + k / 2.0) / (1.0 + k)
            && Z_95 * Z_95 * Radicand(n, d) == k * p * (1.0 - p) + k * k / 4.0
  {
    var z2, p := Z_95 * Z_95, n / d;
    var k := Tightness(d);
    assert k * d == z2;
    assert z2 / (2.0 * d) == k / 2.0 by { HalfOf(z2, d, k); }
    var x, y := (p * (1.0 - p)) / d, z2 / (4.0 * d * d);
    assert z2 * x == k * p * (1.0 - p) by { FirstTerm(z2, d, k, p * (1.0 - p)); }
    assert z2 * y == k * k / 4.0 by { SecondTerm(z2, d, k); }
  }

  lemma HalfOf(z2: real, d: real, k: real)
    requires d > 0.0 && k * d == z2
    ensures z2 / (2.0 * d) == k / 2.0
  {
    assert k / 2.0 * (2.0 * d) == z2;
  }

  lemma FirstTerm(z2: real, d: real, k: real, v: real)
    requires d > 0.0 && k * d == z2
    ensures z2 * (v / d) == k * v
  {
    assert v / d * d == v;
  }

  lemma SecondTerm(z2: real, d: real, k: real)
    requires d > 0.0 && k * d == z2
    ensures z2 * (z2 / (4.0 * d * d)) == k * k / 4.0
  {
    var y := z2 / (4.0 * d * d);
    assert y * (4.0 * d * d) == z2;
    assert z2 * y * 4.0 == k * k by {
      assert z2 * y * 4.0 == k * d * y * 4.0;
      assert d * y * 4.0 * d == z2;
      assert d * y * 4.0 == k by { assert (d * y * 4.0 - k) * d == 0.0; }
    }
  }

  /** The two roots enclose exactly the accepted proportions. */
  lemma ScoreRoots(p: real, k: real, r: real, t: real)
    requires k > 0.0 && r >= 0.0 && r * r == k * p * (1.0 - p) + k * k / 4.0
    ensures var a, b := 1.0 + k, p + k / 2.0; b / a - r / a <= t <= b / a + r / a <==> Accepts(p, k, t)
  {
    var a, b := 1.0 + k, p + k / 2.0;
    var u := a * t - b;
    BoundsCleared(a, b, r, t);
    SquareBetween(u, r);
    Quadratic(p, k, t);
    var gap := (p - t) * (p - t) - k * t * (1.0 - t);
    assert u * u - r * r == a * gap;
    SignOfProduct(a, gap);
  }

  lemma ScaledRoot(root: real, x: real)
    requires root * root == x
    ensures (Z_95 * root) * (Z_95 * root) == Z_95 * Z_95 * x
  {
  }

  /** The interval is exactly the set of proportions the score test accepts. */
  lemma IntervalInvertsTheTest(n: real, d: real, root: real, t: real)
    requires d > 0.0 && IsRoot(root, Radicand(n, d))
    ensures Exact(n, d, root).low <= t <= Exact(n, d, root).high <==> Accepts(n / d, Tightness(d), t)
  {
    TightnessForms(n, d);
    ScaledRoot(root, Radicand(n, d));
    ScoreRoots(n / d, Tightness(d), Z_95 * root, t);
  }

  // ---------------------------------------------------------------- consequences

  predicate Proportion(n: real, d: real) { d > 0.0 && 0.0 <= n <= d }

  lemma ProportionRange(n: real, d: real)
    requires Proportion(n, d)
    ensures 0.0 <= n / d <= 1.0
    ensures n == 0.0 ==> n / d == 0.0
    ensures n == d ==> n / d == 1.0
  {
  }

  /** Only proportions between 0 and 1 are accepted, and the observed one is. */
  lemma AcceptedRange(p: real, k: real, t: real)
    requires k > 0.0 && 0.0 <= p <= 1.0
    ensures Accepts(p, k, t) ==> 0.0 <= t <= 1.0
    ensures Accepts(p, k, p)
    ensures Accepts(0.0, k, 0.0) && Accepts(1.0, k, 1.0)
  {
    SquareIsNonNegative(p - t);
    VarianceSign(k, t);
    VarianceSign(k, p);
  }

  /** The right-hand side of the test is negative outside [0, 1] and not inside. */
  lemma VarianceSign(k: real, t: real)
    requires k > 0.0
    ensures k * t * (1.0 - t) < 0.0 <==> t < 0.0 || t > 1.0
  {
    var u := 1.0 - t;
    Regroup(k, t, u);
    if t < 0.0 {
      PositiveProduct(-t, u);
      OppositeProduct(t, u);
      PositiveProduct(k, -(t * u));
      OppositeProduct(t * u, k);
    } else if t > 1.0 {
      PositiveProduct(t, -u);
      OppositeProduct(u, t);
      PositiveProduct(k, -(t * u));
      OppositeProduct(t * u, k);
    } else {
      NonNegativeProduct(t, u);
      NonNegativeProduct(k, t * u);
    }
  }

  lemma Regroup(a: real, b: real, c: real)
    ensures a * b * c == a * (b * c)
  {
  }

  lemma OppositeProduct(a: real, b: real)
    ensures (-a) * b == -(a * b) && b * (-a) == -(b * a) && a * b == b * a
  {
  }

  lemma SpreadIsNonNegative(d: real, root: real)
    requires d > 0.0 && root >= 0.0
    ensures Spread(d, root) >= 0.0
  {
  }

  /** The bounds lie in [0, 1] around the observed proportion and reach its ends: clamping never changes them. */
  lemma BoundsAreOrdered(n: real, d: real, root: real)
    requires Proportion(n, d) && IsRoot(root, Radicand(n, d))
    ensures var i := Exact(n, d, root);
            && 0.0 <= i.low <= n / d <= i.high <= 1.0
            && (n == 0.0 ==> i.low == 0.0) && (n == d ==> i.high == 1.0)
            && Clamped(i) == i
  {
    var i, k, p := Exact(n, d, root), Tightness(d), n / d;
    ProportionRange(n, d);
    SpreadIsNonNegative(d, root);
    AcceptedRange(p, k, p);
    IntervalInvertsTheTest(n, d, root, p);
    IntervalInvertsTheTest(n, d, root, i.low);
    AcceptedRange(p, k, i.low);
    IntervalInvertsTheTest(n, d, root, i.high);
    AcceptedRange(p, k, i.high);
  }

  /** Successes and failures are treated alike: the interval of the complement is the mirror image. */
  lemma MirrorImage(n: real, d: real, root: real)
    requires d > 0.0 && IsRoot(root, Radicand(n, d))
    ensures IsRoot(root, Radicand(d - n, d))
    ensures Exact(d - n, d, root) == Interval(1.0 - Exact(n, d, root).high, 1.0 - Exact(n, d, root).low)
  {
    var p, k := n / d, Tightness(d);
    Complement(n, d);
    MirrorRadicand(n, d);
    MirrorCentre(p, k);
    assert Centre(d - n, d) == 1.0 - Centre(n, d) by {
      TightnessForms(n, d);
      TightnessForms(d - n, d);
    }
  }

  lemma MirrorRadicand(n: real, d: real)
    requires d > 0.0
    ensures Radicand(d - n, d) == Radicand(n, d)
  {
    var p := n / d;
    Complement(n, d);
    assert (1.0 - p) * (1.0 - (1.0 - p)) == p * (1.0 - p);
  }

  lemma Complement(n: real, d: real)
    requires d > 0.0
    ensures (d - n) / d == 1.0 - n / d
  {
    assert (d - n) / d * d == d - n && n / d * d == n;
    Cancel((d - n) / d, 1.0 - n / d, d);
  }

  lemma MirrorCentre(p: real, k: real)
    requires k > 0.0
    ensures (1.0 - p + k / 2.0) / (1.0 + k) == 1.0 - (p + k / 2.0) / (1.0 + k)
  {
    assert 1.0 - p + k / 2.0 == (1.0 + k) - (p + k / 2.0);
    Complement(p + k / 2.0, 1.0 + k);
  }

  lemma NonNegativeProduct(a: real, b: real)
    requires a >= 0.0 && b >= 0.0
    ensures a * b >= 0.0
  {
  }

  lemma SquareMonotone(a: real, b: real)
    requires 0.0 <= a <= b
    ensures a * a <= b * b
  {
    NonNegativeProduct(b - a, b + a);
    DifferenceOfSquares(b, a);
  }

  /** A proportion below the observed one that a larger observation accepts is accepted by the smaller one. */
  lemma AcceptsBelow(p: real, q: real, k: real, t: real)
    requires t <= p <= q && Accepts(q, k, t)
    ensures Accepts(p, k, t)
  {
    SquareMonotone(p - t, q - t);
  }

  /** One more verified removal never lowers the lower bound. */
  lemma MoreRemovalsRaiseTheLowerBound(n: real, m: real, d: real, rootN: real, rootM: real)
    requires Proportion(n, d) && Proportion(m, d) && n <= m
    requires IsRoot(rootN, Radicand(n, d)) && IsRoot(rootM, Radicand(m, d))
    ensures Exact(n, d, rootN).low <= Exact(m, d, rootM).low
  {
    BoundsAreOrdered(n, d, rootN);
    BoundsAreOrdered(m, d, rootM);
    DivideMonotone(n, m, d);
    var low := Exact(m, d, rootM).low;
    if low < n / d {
      IntervalInvertsTheTest(m, d, rootM, low);
      AcceptsBelow(n / d, m / d, Tightness(d), low);
      IntervalInvertsTheTest(n, d, rootN, low);
    }
  }

  /** Nor the upper bound. */
  lemma MoreRemovalsRaiseTheUpperBound(n: real, m: real, d: real, rootN: real, rootM: real)
    requires Proportion(n, d) && Proportion(m, d) && n <= m
    requires IsRoot(rootN, Radicand(n, d)) && IsRoot(rootM, Radicand(m, d))
    ensures Exact(n, d, rootN).high <= Exact(m, d, rootM).high
  {
    MirrorImage(n, d, rootN);
    MirrorImage(m, d, rootM);
    MoreRemovalsRaiseTheLowerBound(d - m, d - n, d, rootM, rootN);
  }

  /** Rounding keeps the order: the published interval encloses the published ratio within [0, 1]. */
  lemma PublishedInterval(n: real, d: real, root: real)
    requires Proportion(n, d) && IsRoot(root, Radicand(n, d))
    ensures WilsonInterval(n, d, root).Some?
    ensures var i := WilsonInterval(n, d, root).value;
            && 0.0 <= i.low <= Round4(n / d) <= i.high <= 1.0
            && (n == 0.0 ==> i.low == 0.0) && (n == d ==> i.high == 1.0)
  {
    var i := Exact(n, d, root);
    BoundsAreOrdered(n, d, root);
    RoundIsNear(0.0);
    RoundMonotone(0.0, i.low);
    RoundMonotone(i.low, n / d);
    RoundMonotone(n / d, i.high);
    RoundMonotone(i.high, 1.0);
  }

  /** The largest difference rounding makes. */
  const HALF_UNIT := 0.00005

  predicate Near(x: real, y: real) { -HALF_UNIT <= x - y <= HALF_UNIT }

  /** The score test accepts `t` for `n` out of `d`. */
  predicate AcceptedFor(n: real, d: real, t: real)
    requires d > 0.0
  {
    Accepts(n / d, Tightness(d), t)
  }

  /** The smallest and the largest proportion the score test accepts. */
  ghost predicate IsLeastAccepted(n: real, d: real, t: real)
    requires d > 0.0
  {
    AcceptedFor(n, d, t) && forall u :: AcceptedFor(n, d, u) ==> t <= u
  }

  ghost predicate IsGreatestAccepted(n: real, d: real, t: real)
    requires d > 0.0
  {
    AcceptedFor(n, d, t) && forall u :: AcceptedFor(n, d, u) ==> u <= t
  }

  lemma ExactIsExtreme(n: real, d: real, root: real)
    requires d > 0.0 && IsRoot(root, Radicand(n, d))
    ensures IsLeastAccepted(n, d, Exact(n, d, root).low) && IsGreatestAccepted(n, d, Exact(n, d, root).high)
  {
    var i := Exact(n, d, root);
    SpreadIsNonNegative(d, root);
    forall u | AcceptedFor(n, d, u)
      ensures i.low <= u <= i.high
    {
      IntervalInvertsTheTest(n, d, root, u);
    }
    IntervalInvertsTheTest(n, d, root, i.low);
    IntervalInvertsTheTest(n, d, root, i.high);
  }

  /** Each published bound lies within half a unit of the fourth decimal of the end of the accepted set it stands
    * for, and the published ratio within as much of the observed proportion. */
  lemma PublishedIsNear(n: real, d: real, root: real, least: real, greatest: real)
    requires Proportion(n, d) && IsRoot(root, Radicand(n, d))
    requires IsLeastAccepted(n, d, least) && IsGreatestAccepted(n, d, greatest)
    ensures WilsonInterval(n, d, root).Some?
    ensures var i := WilsonInterval(n, d, root).value;
            Near(i.low, least) && Near(i.high, greatest) && Near(Round4(n / d), n / d)
  {
    ExactIsExtreme(n, d, root);
    BoundsAreOrdered(n, d, root);
    assert Exact(n, d, root).low == least && Exact(n, d, root).high == greatest;
    RoundIsNear(least);
    RoundIsNear(greatest);
    RoundIsNear(n / d);
  }

  /** More removals out of as many never lower a published bound. */
  lemma PublishedIsMonotone(n: real, m: real, d: real, rootN: real, rootM: real)
    requires Proportion(n, d) && Proportion(m, d) && n <= m
    requires IsRoot(rootN, Radicand(n, d)) && IsRoot(rootM, Radicand(m, d))
    ensures WilsonInterval(n, d, rootN).Some? && WilsonInterval(m, d, rootM).Some?
    ensures var i, j := WilsonInterval(n, d, rootN).value, WilsonInterval(m, d, rootM).value;
            i.low <= j.low && i.high <= j.high
  {
    BoundsAreOrdered(n, d, rootN);
    BoundsAreOrdered(m, d, rootM);
    MoreRemovalsRaiseTheLowerBound(n, m, d, rootN, rootM);
    MoreRemovalsRaiseTheUpperBound(n, m, d, rootN, rootM);
    RoundMonotone(Exact(n, d, rootN).low, Exact(m, d, rootM).low);
    RoundMonotone(Exact(n, d, rootN).high, Exact(m, d, rootM).high);
  }

  /** Half way between two multiples of the fourth decimal. */
  predicate Tie(x: real) { (x * 10000.0 + 0.5).Floor as real == x * 10000.0 + 0.5 }

  lemma FloorOf(x: real, n: int)
    requires (n as real) <= x < (n as real) + 1.0
    ensures x.Floor == n
  {
  }

  /** Rounding commutes with taking the complement exactly off the ties, where both are rounded up. */
  lemma RoundOfComplement(x: real)
    requires 0.0 <= x <= 1.0
    ensures Round4(1.0 - x) == 1.0 - Round4(x) <==> !Tie(x)
    ensures Tie(x) ==> Round4(1.0 - x) == 1.0 - Round4(x) + 0.0001
  {
    var y := x * 10000.0;
    var n := (y + 0.5).Floor;
    assert (1.0 - x) * 10000.0 + 0.5 == 10000.5 - y;
    assert (n as real) <= y + 0.5 < (n as real) + 1.0;
    if Tie(x) {
      FloorOf(10000.5 - y, 10001 - n);
      assert Round4(1.0 - x) == (10001 - n) as real / 10000.0;
    } else {
      FloorOf(10000.5 - y, 10000 - n);
      assert Round4(1.0 - x) == (10000 - n) as real / 10000.0;
    }
  }

  /** So the published ratios of removals and of the rest add up to 1 exactly off the ties. */
  lemma PublishedRatiosAddUpIff(n: real, d: real)
    requires Proportion(n, d)
    ensures Round4(n / d) + Round4((d - n) / d) == 1.0 <==> !Tie(n / d)
  {
    ProportionRange(n, d);
    Complement(n, d);
    RoundOfComplement(n / d);
  }

  /** One removal out of 20000 is published as 0.0001 and the rest as 1. */
  lemma PublishedRatiosOfATie()
    ensures Round4(1.0 / 20000.0) == 0.0001 && Round4(19999.0 / 20000.0) == 1.0
  {
    FloorOf(1.0 / 20000.0 * 10000.0 + 0.5, 1);
    FloorOf(19999.0 / 20000.0 * 10000.0 + 0.5, 10000);
  }

  /** The published interval of the complement is the mirror image of the published interval exactly when neither
    * end of the accepted set is half way between two multiples of the fourth decimal. */
  lemma PublishedMirrorIff(n: real, d: real, root: real)
    requires Proportion(n, d) && IsRoot(root, Radicand(n, d))
    ensures IsRoot(root, Radicand(d - n, d))
    ensures WilsonInterval(n, d, root).Some? && WilsonInterval(d - n, d, root).Some?
    ensures var i, j, e := WilsonInterval(n, d, root).value, WilsonInterval(d - n, d, root).value, Exact(n, d, root);
            j == Interval(1.0 - i.high, 1.0 - i.low) <==> !Tie(e.low) && !Tie(e.high)
  {
    MirrorImage(n, d, root);
    BoundsAreOrdered(n, d, root);
    BoundsAreOrdered(d - n, d, root);
    RoundOfComplement(Exact(n, d, root).low);
    RoundOfComplement(Exact(n, d, root).high);
  }

  // ---------------------------------------------------------------- the effectiveness figure

  /** Counts as received: numbers, not yet known to be counts. */
  datatype Outcomes = Outcomes(
    denominator: real, numerator: real, notRemovable: real, humanRequired: real, acknowledged: real,
    requestSubmitted: real, searchDelisted: real, ambiguous: real)

  datatype Figure = Figure(noData: bool, ratio: Option<real>, interval: Option<Interval>)

  predicate IsCount(x: real) { x >= 0.0 && x == x.Floor as real }

  predicate Acceptable(o: Outcomes) {
    && IsCount(o.denominator) && IsCount(o.numerator) && o.numerator <= o.denominator
    && IsCount(o.notRemovable) && IsCount(o.humanRequired) && IsCount(o.acknowledged)
    && IsCount(o.requestSubmitted) && IsCount(o.searchDelisted) && IsCount(o.ambiguous)
  }

  /** None when a count is refused. */
  function ComputeEffectivenessFigure(o: Outcomes, root: real): Option<Figure>
    requires Acceptable(o) && o.denominator > 0.0 ==> IsRoot(root, Radicand(o.numerator, o.denominator))
  {
    if !Acceptable(o) then None
    else
      Some(Figure(o.denominator == 0.0,
                  if o.denominator == 0.0 then None else Some(Round4(o.numerator / o.denominator)),
                  WilsonInterval(o.numerator, o.denominator, root)))
  }

  function CountsOf(o: Outcomes): seq<real> {
    [o.denominator, o.numerator, o.notRemovable, o.humanRequired, o.acknowledged, o.requestSubmitted, o.searchDelisted,
     o.ambiguous]
  }

  lemma AcceptableIff(o: Outcomes)
    ensures Acceptable(o) <==>
            o.numerator <= o.denominator
            && forall i :: 0 <= i < |CountsOf(o)| ==> CountsOf(o)[i] >= 0.0 && CountsOf(o)[i] == CountsOf(o)[i].Floor as real
  {
    var counts := CountsOf(o);
    assert counts[0] == o.denominator && counts[1] == o.numerator && counts[2] == o.notRemovable
        && counts[3] == o.humanRequired && counts[4] == o.acknowledged && counts[5] == o.requestSubmitted
        && counts[6] == o.searchDelisted && counts[7] == o.ambiguous;
  }

  /** A figure is published exactly for counts of which the removals are some: without data it has no ratio and no
    * interval; with data its ratio and its bounds are near the proportion and the ends of the accepted set. */
  lemma FigureIff(o: Outcomes, root: real)
    requires Acceptable(o) && o.denominator > 0.0 ==> IsRoot(root, Radicand(o.numerator, o.denominator))
    ensures ComputeEffectivenessFigure(o, root).Some? <==>
            o.numerator <= o.denominator
            && forall i :: 0 <= i < |CountsOf(o)| ==> CountsOf(o)[i] >= 0.0 && CountsOf(o)[i] == CountsOf(o)[i].Floor as real
    ensures ComputeEffectivenessFigure(o, root).Some? ==>
              var f := ComputeEffectivenessFigure(o, root).value;
              && (o.denominator == 0.0 ==> f == Figure(true, None, None))
              && (o.denominator > 0.0 ==>
                    && !f.noData && f.ratio.Some? && f.interval.Some?
                    && Near(f.ratio.value, o.numerator / o.denominator)
                    && Near(f.interval.value.low, Exact(o.numerator, o.denominator, root).low)
                    && Near(f.interval.value.high, Exact(o.numerator, o.denominator, root).high))
  {
    AcceptableIff(o);
    if Acceptable(o) && o.denominator > 0.0 {
      ExactIsExtreme(o.numerator, o.denominator, root);
      PublishedIsNear(o.numerator, o.denominator, root,
                      Exact(o.numerator, o.denominator, root).low, Exact(o.numerator, o.denominator, root).high);
    }
  }

  /** A figure either has no data, no ratio and no interval, or a ratio inside an interval inside [0, 1]. */
  lemma FigureIsSound(o: Outcomes, root: real)
    requires Acceptable(o) && o.denominator > 0.0 ==> IsRoot(root, Radicand(o.numerator, o.denominator))
    ensures ComputeEffectivenessFigure(o, root).Some? ==>
              var f := ComputeEffectivenessFigure(o, root).value;
              if f.noData then f.ratio.None? && f.interval.None?
              else f.ratio.Some? && f.interval.Some?
                   && 0.0 <= f.interval.value.low <= f.ratio.value <= f.interval.value.high <= 1.0
  {
    if Acceptable(o) && o.denominator != 0.0 {
      PublishedInterval(o.numerator, o.denominator, root);
    }
  }
}
