/** The score interval for a proportion over real arithmetic. The square root is a parameter: any non-negative real
    whose square is the radicand. */
module Wilson {
  import opened Text

  datatype Interval = Interval(low: real, high: real)

  function Max(a: real, b: real): real { if a >= b then a else b }

  function Min(a: real, b: real): real { if a <= b then a else b }

  function Proportion(correct: int, total: int): real
    requires total > 0
  {
    correct as real / total as real
  }

  function Radicand(correct: int, total: int, z: real): real
    requires total > 0
  {
    var n, phat := total as real, Proportion(correct, total);
    phat * (1.0 - phat) / n + z * z / (4.0 * n * n)
  }

  predicate IsRoot(root: real, radicand: real) {
    root >= 0.0 && root * root == radicand
  }

  function Denominator(total: int, z: real): (r: real)
    requires total > 0
    ensures r >= 1.0
  {
    assert z * z >= 0.0;
    1.0 + z * z / total as real
  }

  /** The interval before it is clamped. */
  function Bounds(correct: int, total: int, z: real, root: real): Interval
    requires total > 0
  {
    var denominator := Denominator(total, z);
    var centre := (Proportion(correct, total) + z * z / (2.0 * total as real)) / denominator;
    var half := z * root / denominator;
    Interval(centre - half, centre + half)
  }

  /** The interval, or nothing for a count that does not lie within the total. */
  function WilsonInterval(correct: int, total: int, z: real, root: real): Option<Interval> {
    if total <= 0 then Some(Interval(0.0, 1.0))
    else if !(0 <= correct <= total) then None
    else
      var bounds := Bounds(correct, total, z, root);
      Some(Interval(Max(0.0, bounds.low), Min(1.0, bounds.high)))
  }

  /** The score test does not reject `p`: the squared deviation is within z squared variances. */
  predicate Score(correct: int, total: int, z: real, p: real)
    requires total > 0
  {
    var phat := Proportion(correct, total);
    total as real * ((p - phat) * (p - phat)) <= z * z * (p * (1.0 - p))
  }

  predicate Within(p: real, interval: Interval) {
    interval.low <= p <= interval.high
  }

  // ----- Polynomials -----

  lemma Product(a: real, b: real)
    requires a > 0.0 && b > 0.0
    ensures a * b > 0.0
  {}

  lemma ProductIs(a: real, b: real, c: real)
    requires a > 0.0 && b > 0.0 && c == a * b
    ensures c > 0.0
  {
    Product(a, b);
  }

  lemma SquareQuotient(q: real, n: real)
    requires n > 0.0
    ensures 4.0 * n * n > 0.0 && q / (4.0 * n * n) * (4.0 * n * n) == q
  {
    var w := 4.0 * n * n;
    ProductIs(4.0 * n, n, w);
    Quotient(q, w);
  }

  lemma Quotient(a: real, b: real)
    requires b > 0.0
    ensures a / b * b == a
  {}

  lemma SquareOrder(x: real, h: real)
    requires h >= 0.0
    ensures -h <= x <= h <==> x * x <= h * h
  {
    if x > h {
      Beyond(x, h);
    } else if x < -h {
      Beyond(-x, h);
    } else {
      Inside(x, h);
    }
  }

  lemma Beyond(x: real, h: real)
    requires x > h >= 0.0
    ensures x * x > h * h
  {
    var d, e := x - h, x + h;
    Product(d, e);
    assert d * e == x * x - h * h;
  }

  lemma Inside(x: real, h: real)
    requires -h <= x <= h
    ensures x * x <= h * h
  {
    var d, e := h - x, h + x;
    assert d * e >= 0.0;
    assert d * e == h * h - x * x;
  }

  /** Centre and half width times n + z squared. */
  lemma Scaled(n: real, f: real, z: real, root: real)
    requires n > 0.0 && root * root == f * (1.0 - f) / n + z * z / (4.0 * n * n)
    ensures n + z * z > 0.0 && 1.0 + z * z / n > 0.0
    ensures (f + z * z / (2.0 * n)) / (1.0 + z * z / n) * (n + z * z) == n * f + z * z / 2.0
    ensures z * root / (1.0 + z * z / n) * (n + z * z) == n * z * root
    ensures (n * z * root) * (n * z * root) == z * z * (n * (f * (1.0 - f)) + z * z / 4.0)
  {
    var q := z * z;
    assert q >= 0.0;
    var d := 1.0 + q / n;
    assert d * n == n + q by { assert q / n * n == q; }
    var c := f + q / (2.0 * n);
    assert c * n == n * f + q / 2.0 by { assert q / (2.0 * n) * n == q / 2.0; }
    Cancel(c, d, n, n + q);
    Cancel(z * root, d, n, n + q);
    RootSquared(n, f, q, root);
    assert (n * z * root) * (n * z * root) == q * (n * n * (root * root));
  }

  lemma Cancel(c: real, d: real, n: real, w: real)
    requires d > 0.0 && d * n == w
    ensures c / d * w == c * n
  {
    assert c / d * d == c;
    assert c / d * (d * n) == c / d * d * n;
  }

  lemma RootSquared(n: real, f: real, q: real, root: real)
    requires n > 0.0 && root * root == f * (1.0 - f) / n + q / (4.0 * n * n)
    ensures n * n * (root * root) == n * (f * (1.0 - f)) + q / 4.0
  {
    var v := f * (1.0 - f);
    Quotient(v, n);
    SquareQuotient(q, n);
    var r := q / (4.0 * n * n);
    assert n * n * (v / n) == n * v;
    assert n * n * r == r * (4.0 * n * n) / 4.0;
    assert n * n * (v / n + r) == n * n * (v / n) + n * n * r;
  }

  /** With w = n + q, C = nf + q/2 and H squared = q(nf(1-f) + q/4): the square around C is the score inequality. */
  lemma Completed(n: real, f: real, q: real, p: real)
    requires n > 0.0 && q >= 0.0
    ensures var x := (n + q) * p - (n * f + q / 2.0);
            x * x <= q * (n * (f * (1.0 - f)) + q / 4.0) <==> n * ((p - f) * (p - f)) <= q * (p * (1.0 - p))
  {
    var w, c := n + q, n * f + q / 2.0;
    var x := w * p - c;
    var gap := n * ((p - f) * (p - f)) - q * (p * (1.0 - p));
    assert x * x - q * (n * (f * (1.0 - f)) + q / 4.0) == w * gap;
    assert w * gap <= 0.0 <==> gap <= 0.0;
  }

  // ----- The interval is the score set -----

  lemma Reals(n: real, f: real, z: real, root: real, p: real)
    requires n > 0.0 && z >= 0.0 && root >= 0.0 && root * root == f * (1.0 - f) / n + z * z / (4.0 * n * n)
    ensures 1.0 + z * z / n > 0.0
    ensures var centre, half := (f + z * z / (2.0 * n)) / (1.0 + z * z / n), z * root / (1.0 + z * z / n);
            half >= 0.0 && (centre - half <= p <= centre + half <==> n * ((p - f) * (p - f)) <= z * z * (p * (1.0 - p)))
  {
    Scaled(n, f, z, root);
    Nonnegative(n, z, root);
    var centre, half := (f + z * z / (2.0 * n)) / (1.0 + z * z / n), z * root / (1.0 + z * z / n);
    Combine(n, f, z * z, n * z * root, centre, half, p);
  }

  lemma Combine(n: real, f: real, q: real, h: real, centre: real, half: real, p: real)
    requires n > 0.0 && q >= 0.0 && h >= 0.0 && h * h == q * (n * (f * (1.0 - f)) + q / 4.0)
    requires centre * (n + q) == n * f + q / 2.0 && half * (n + q) == h
    ensures half >= 0.0 && (centre - half <= p <= centre + half <==> n * ((p - f) * (p - f)) <= q * (p * (1.0 - p)))
  {
    var w, c := n + q, n * f + q / 2.0;
    Distribute(p, centre, w);
    Scale(p - centre, half, w);
    Factor(half, w);
    SquareOrder(w * p - c, h);
    Completed(n, f, q, p);
  }

  lemma Distribute(p: real, c: real, w: real)
    ensures (p - c) * w == w * p - c * w
  {}

  lemma Factor(x: real, w: real)
    requires w > 0.0 && x * w >= 0.0
    ensures x >= 0.0
  {}

  lemma Nonnegative(n: real, z: real, root: real)
    requires n > 0.0 && z >= 0.0 && root >= 0.0
    ensures n * z * root >= 0.0
  {}

  /** The bounds enclose exactly the proportions that the score test keeps. */
  lemma BoundsAreScoreSet(correct: int, total: int, z: real, root: real, p: real)
    requires total > 0 && z >= 0.0 && IsRoot(root, Radicand(correct, total, z))
    ensures Within(p, Bounds(correct, total, z, root)) <==> Score(correct, total, z, p)
    ensures Bounds(correct, total, z, root).low <= Bounds(correct, total, z, root).high
  {
    Reals(total as real, Proportion(correct, total), z, root, p);
  }

  lemma Scale(x: real, h: real, w: real)
    requires w > 0.0
    ensures -h <= x <= h <==> -(h * w) <= x * w <= h * w
  {}

  lemma ProportionInUnit(correct: int, total: int)
    requires total > 0 && 0 <= correct <= total
    ensures 0.0 <= Proportion(correct, total) <= 1.0
    ensures Proportion(total - correct, total) == 1.0 - Proportion(correct, total)
  {
    Fraction(correct as real, total as real);
  }

  lemma Fraction(c: real, n: real)
    requires n > 0.0 && 0.0 <= c <= n
    ensures 0.0 <= c / n <= 1.0 && (n - c) / n == 1.0 - c / n
  {
    var f, g := c / n, (n - c) / n;
    Quotient(c, n);
    Quotient(n - c, n);
    assert (1.0 - f) * n == n - f * n;
    Factor(f, n);
    Factor(1.0 - f, n);
    assert (g - (1.0 - f)) * n == g * n - (1.0 - f) * n;
    Factor(g - (1.0 - f), n);
    assert (1.0 - f - g) * n == (1.0 - f) * n - g * n;
    Factor(1.0 - f - g, n);
  }

  lemma SquareSign(x: real, y: real)
    requires y == x * x
    ensures y >= 0.0 && (x != 0.0 ==> y > 0.0)
  {
    if x > 0.0 {
      ProductIs(x, x, y);
    } else if x < 0.0 {
      ProductIs(-x, -x, y);
    }
  }

  lemma NonnegativeProduct(a: real, b: real)
    requires a > 0.0 && a * b >= 0.0
    ensures b >= 0.0
  {}

  lemma BetweenRoots(p: real, v: real)
    requires v == p * (1.0 - p) && v >= 0.0
    ensures 0.0 <= p <= 1.0
  {
    if p < 0.0 {
      ProductIs(-p, 1.0 - p, -v);
    } else if p > 1.0 {
      ProductIs(p, p - 1.0, -v);
    }
  }

  /** The score test keeps no impossible proportion. */
  lemma ScoreInUnit(correct: int, total: int, z: real, p: real)
    requires total > 0 && 0 <= correct <= total && Score(correct, total, z, p)
    ensures 0.0 <= p <= 1.0
  {
    var f := Proportion(correct, total);
    ProportionInUnit(correct, total);
    SquareSign(z, z * z);
    KeptInUnit(total as real, f, z * z, p, (p - f) * (p - f), p * (1.0 - p));
  }

  lemma KeptInUnit(n: real, f: real, q: real, p: real, square: real, v: real)
    requires n > 0.0 && q >= 0.0 && 0.0 <= f <= 1.0 && n * square <= q * v
    requires square == (p - f) * (p - f) && v == p * (1.0 - p)
    ensures 0.0 <= p <= 1.0
  {
    var scaled, bound := n * square, q * v;
    assert q == 0.0 ==> bound == 0.0;
    if p != f {
      SquareSign(p - f, square);
      ProductIs(n, square, scaled);
      if q > 0.0 {
        NonnegativeProduct(q, v);
        BetweenRoots(p, v);
      }
    }
  }

  lemma ObservedScores(correct: int, total: int, z: real)
    requires total > 0 && 0 <= correct <= total
    ensures Score(correct, total, z, Proportion(correct, total))
  {
    var f := Proportion(correct, total);
    ProportionInUnit(correct, total);
    SquareSign(z, z * z);
    assert f * (1.0 - f) >= 0.0;
    assert z * z * (f * (1.0 - f)) >= 0.0;
    assert (f - f) * (f - f) == 0.0;
  }

  /** The function returns exactly the score set: it contains the observed proportion, lies in [0, 1] by itself, and
      the clamps change nothing. */
  lemma IntervalIsScoreSet(correct: int, total: int, z: real, root: real, p: real)
    requires total > 0 && 0 <= correct <= total && z >= 0.0 && IsRoot(root, Radicand(correct, total, z))
    ensures WilsonInterval(correct, total, z, root) == Some(Bounds(correct, total, z, root))
    ensures var i := WilsonInterval(correct, total, z, root).value;
            && (Within(p, i) <==> Score(correct, total, z, p))
            && Within(Proportion(correct, total), i)
            && 0.0 <= i.low <= i.high <= 1.0
  {
    hide Score, Radicand, Bounds, Proportion;
    var i := Bounds(correct, total, z, root);
    BoundsAreScoreSet(correct, total, z, root, p);
    BoundsAreScoreSet(correct, total, z, root, i.low);
    BoundsAreScoreSet(correct, total, z, root, i.high);
    BoundsAreScoreSet(correct, total, z, root, Proportion(correct, total));
    ScoreInUnit(correct, total, z, i.low);
    ScoreInUnit(correct, total, z, i.high);
    ObservedScores(correct, total, z);
  }

  lemma ScoreReflects(correct: int, total: int, z: real, p: real)
    requires total > 0 && 0 <= correct <= total
    ensures Score(total - correct, total, z, 1.0 - p) <==> Score(correct, total, z, p)
    ensures Radicand(total - correct, total, z) == Radicand(correct, total, z)
  {
    ProportionInUnit(correct, total);
    var f := Proportion(correct, total);
    assert (1.0 - p - (1.0 - f)) * (1.0 - p - (1.0 - f)) == (p - f) * (p - f);
  }

  /** Counting the wrong answers instead of the right ones mirrors the interval. */
  lemma Reflects(correct: int, total: int, z: real, root: real)
    requires total > 0 && 0 <= correct <= total && z >= 0.0 && IsRoot(root, Radicand(correct, total, z))
    ensures var i := WilsonInterval(correct, total, z, root).value;
            WilsonInterval(total - correct, total, z, root) == Some(Interval(1.0 - i.high, 1.0 - i.low))
  {
    hide Score, Radicand, Bounds, Proportion, WilsonInterval;
    ScoreReflects(correct, total, z, 0.0);
    IntervalIsScoreSet(correct, total, z, root, 0.0);
    IntervalIsScoreSet(total - correct, total, z, root, 0.0);
    var i, j := WilsonInterval(correct, total, z, root).value, WilsonInterval(total - correct, total, z, root).value;
    Ends(correct, total, z, root, 1.0 - j.low);
    Ends(correct, total, z, root, 1.0 - j.high);
    Ends(correct, total, z, root, i.low);
    Ends(correct, total, z, root, i.high);
  }

  lemma Ends(correct: int, total: int, z: real, root: real, p: real)
    requires total > 0 && 0 <= correct <= total && z >= 0.0 && IsRoot(root, Radicand(correct, total, z))
    ensures WilsonInterval(correct, total, z, root).Some? && WilsonInterval(total - correct, total, z, root).Some?
    ensures Within(p, WilsonInterval(correct, total, z, root).value)
        <==> Within(1.0 - p, WilsonInterval(total - correct, total, z, root).value)
  {
    hide Score, Radicand, Bounds, Proportion, WilsonInterval;
    ScoreReflects(correct, total, z, p);
    IntervalIsScoreSet(correct, total, z, root, p);
    IntervalIsScoreSet(total - correct, total, z, root, 1.0 - p);
  }

  lemma Monotone(a: real, b: real, v: real)
    requires a <= b && v >= 0.0
    ensures a * v <= b * v
  {
    var d := b - a;
    var e := d * v;
    if d > 0.0 && v > 0.0 { ProductIs(d, v, e); }
    Distribute(b, a, v);
  }

  lemma ScoreGrows(correct: int, total: int, z: real, wider: real, p: real)
    requires total > 0 && 0 <= correct <= total && 0.0 <= z <= wider && Score(correct, total, z, p)
    ensures Score(correct, total, wider, p)
  {
    ScoreInUnit(correct, total, z, p);
    var v := p * (1.0 - p);
    if 0.0 < p < 1.0 { ProductIs(p, 1.0 - p, v); }
    Inside(z, wider);
    Monotone(z * z, wider * wider, v);
  }

  /** A larger z asks for more confidence and encloses the interval of a smaller one. */
  lemma LargerZEncloses(correct: int, total: int, z: real, root: real, wider: real, widerRoot: real)
    requires total > 0 && 0 <= correct <= total && 0.0 <= z <= wider
    requires IsRoot(root, Radicand(correct, total, z)) && IsRoot(widerRoot, Radicand(correct, total, wider))
    ensures var i := WilsonInterval(correct, total, z, root).value;
            var j := WilsonInterval(correct, total, wider, widerRoot).value;
            j.low <= i.low <= i.high <= j.high
  {
    hide Score, Radicand, Bounds, Proportion, WilsonInterval;
    IntervalIsScoreSet(correct, total, z, root, 0.0);
    var i := WilsonInterval(correct, total, z, root).value;
    IntervalIsScoreSet(correct, total, z, root, i.low);
    IntervalIsScoreSet(correct, total, z, root, i.high);
    ScoreGrows(correct, total, z, wider, i.low);
    ScoreGrows(correct, total, z, wider, i.high);
    IntervalIsScoreSet(correct, total, wider, widerRoot, i.low);
    IntervalIsScoreSet(correct, total, wider, widerRoot, i.high);
  }

  /** There is a root to take. */
  lemma RadicandSign(correct: int, total: int, z: real)
    requires total > 0 && 0 <= correct <= total
    ensures Radicand(correct, total, z) >= 0.0
  {
    var n, f := total as real, Proportion(correct, total);
    ProportionInUnit(correct, total);
    var v := f * (1.0 - f);
    if 0.0 < f < 1.0 { ProductIs(f, 1.0 - f, v); }
    SquareSign(z, z * z);
    var a, b := v / n, z * z / (4.0 * n * n);
    Quotient(v, n);
    Factor(a, n);
    SquareQuotient(z * z, n);
    Factor(b, 4.0 * n * n);
  }

  lemma RootSign(root: real, radicand: real)
    requires IsRoot(root, radicand)
    ensures root == 0.0 <==> radicand == 0.0
  {
    SquareSign(root, radicand);
  }

  /** Without any question every share is possible; a count outside the total, and nothing else, is refused. */
  lemma NoQuestions(correct: int, total: int, z: real, root: real, p: real)
    ensures WilsonInterval(correct, total, z, root).None? <==> total > 0 && (correct < 0 || correct > total)
    ensures total <= 0 ==> (Within(p, WilsonInterval(correct, total, z, root).value) <==> 0.0 <= p <= 1.0)
  {}
}
