/** Sums and products of lists of reals, and the two inequalities behind the analytics. */
module Sums {

  function Sum(xs: seq<real>): real {
    if xs == [] then 0.0 else Sum(xs[..|xs| - 1]) + xs[|xs| - 1]
  }

  function Dot(xs: seq<real>, ys: seq<real>): real
    requires |xs| == |ys|
  {
    if xs == [] then 0.0
    else Dot(xs[..|xs| - 1], ys[..|ys| - 1]) + xs[|xs| - 1] * ys[|ys| - 1]
  }

  function Minus(xs: seq<real>, m: real): (r: seq<real>)
    ensures |r| == |xs|
  {
    if xs == [] then [] else Minus(xs[..|xs| - 1], m) + [xs[|xs| - 1] - m]
  }

  function Mean(xs: seq<real>): real
    requires xs != []
  {
    Sum(xs) / (|xs| as real)
  }

  function Deviations(xs: seq<real>): (r: seq<real>)
    requires xs != []
    ensures |r| == |xs|
  {
    Minus(xs, Mean(xs))
  }

  lemma SquareNonNegative(a: real)
    ensures a * a >= 0.0
  {
  }

  lemma {:induction false} DotSelfNonNegative(xs: seq<real>)
    ensures Dot(xs, xs) >= 0.0
  {
    if xs != [] {
      DotSelfNonNegative(xs[..|xs| - 1]);
      SquareNonNegative(xs[|xs| - 1]);
    }
  }

  lemma {:induction false} DotCommutes(xs: seq<real>, ys: seq<real>)
    requires |xs| == |ys|
    ensures Dot(xs, ys) == Dot(ys, xs)
  {
    if xs != [] { DotCommutes(xs[..|xs| - 1], ys[..|ys| - 1]); }
  }

  // ---------- The Cauchy-Schwarz inequality ----------

  /** If c*c <= p*q then 2*a*b*c <= p*b*b + q*a*a, for non-negative p and q. */
  lemma CrossTerm(p: real, q: real, c: real, a: real, b: real)
    requires p >= 0.0 && q >= 0.0 && c * c <= p * q
    ensures 2.0 * (a * b) * c <= p * (b * b) + q * (a * a)
  {
    SquareNonNegative(a);
    SquareNonNegative(b);
    if p == 0.0 {
      ZeroSquare(c);
      Monotone(0.0, q, a * a);
    } else {
      var u, v := p * b, a * c;
      SquareNonNegative(u - v);
      Monotone(c * c, p * q, a * a);
      var gap := p * (b * b) + q * (a * a) - 2.0 * (a * b) * c;
      assert p * gap >= (u - v) * (u - v) by {
        assert (u - v) * (u - v) == u * u - 2.0 * (u * v) + v * v;
        assert u * u == p * (p * (b * b));
        assert u * v == p * ((a * b) * c);
        assert v * v == (c * c) * (a * a);
        assert p * gap == p * (p * (b * b)) + p * (q * (a * a)) - 2.0 * (p * ((a * b) * c));
        assert p * (q * (a * a)) == (p * q) * (a * a);
      }
      PositiveFactor(p, gap);
    }
  }

  lemma ZeroSquare(c: real)
    requires c * c <= 0.0
    ensures c == 0.0
  {
    if c != 0.0 { SameSign(c, c, c * c); }
  }

  lemma SameSign(a: real, b: real, product: real)
    requires product == a * b && ((a > 0.0 && b > 0.0) || (a < 0.0 && b < 0.0))
    ensures product > 0.0
  {
  }

  lemma Opposite(p: real, g: real)
    requires p > 0.0 && g < 0.0
    ensures p * g < 0.0
  {
  }

  lemma Monotone(x: real, y: real, k: real)
    requires x <= y && k >= 0.0
    ensures x * k <= y * k
  {
    assert (y - x) * k >= 0.0;
  }

  lemma PositiveFactor(p: real, g: real)
    requires p > 0.0 && p * g >= 0.0
    ensures g >= 0.0
  {
    if g < 0.0 { Opposite(p, g); }
  }

  lemma SquareGrows(b: real, a: real)
    requires 0.0 <= b < a
    ensures b * b < a * a
  {
    var gap := (a - b) * (a + b);
    SameSign(a - b, a + b, gap);
    assert gap == a * a - b * b;
  }

  lemma Scale(x: real, y: real, k: real)
    requires x < y && k > 0.0
    ensures x * k < y * k
  {
    SameSign(y - x, k, (y - x) * k);
  }

  lemma SameFactor(v: real, q: real, f: real)
    requires f > 0.0 && v * f == q * f
    ensures v == q
  {
    if v < q { Scale(v, q, f); } else if q < v { Scale(q, v, f); }
  }

  lemma NonNegative(a: real, b: real, product: real)
    requires a >= 0.0 && b >= 0.0 && product == a * b
    ensures product >= 0.0
  {
  }

  /** The square of a sum of products is at most the product of the sums of squares. */
  lemma {:induction false} CauchySchwarz(xs: seq<real>, ys: seq<real>)
    requires |xs| == |ys|
    ensures Dot(xs, ys) * Dot(xs, ys) <= Dot(xs, xs) * Dot(ys, ys)
  {
    if xs != [] {
      var n := |xs| - 1;
      var p, q, c := Dot(xs[..n], xs[..n]), Dot(ys[..n], ys[..n]), Dot(xs[..n], ys[..n]);
      var a, b := xs[n], ys[n];
      CauchySchwarz(xs[..n], ys[..n]);
      DotSelfNonNegative(xs[..n]);
      DotSelfNonNegative(ys[..n]);
      CrossTerm(p, q, c, a, b);
      Expand(p, q, c, a, b);
    }
  }

  lemma Expand(p: real, q: real, c: real, a: real, b: real)
    requires c * c <= p * q && 2.0 * (a * b) * c <= p * (b * b) + q * (a * a)
    ensures (c + a * b) * (c + a * b) <= (p + a * a) * (q + b * b)
  {
    var d := a * b;
    assert (c + d) * (c + d) == c * c + 2.0 * d * c + d * d;
    assert d * d == (a * a) * (b * b);
    assert (p + a * a) * (q + b * b) == p * q + p * (b * b) + q * (a * a) + (a * a) * (b * b);
  }

  lemma {:induction false} DotWithOnes(xs: seq<real>, ones: seq<real>)
    requires |xs| == |ones| && forall i | 0 <= i < |ones| :: ones[i] == 1.0
    ensures Dot(xs, ones) == Sum(xs)
    ensures Dot(ones, ones) == |xs| as real
  {
    if xs != [] { DotWithOnes(xs[..|xs| - 1], ones[..|ones| - 1]); }
  }

  lemma {:induction false} SumSquared(xs: seq<real>)
    ensures Sum(xs) * Sum(xs) <= Dot(xs, xs) * (|xs| as real)
  {
    var ones := seq(|xs|, _ => 1.0);
    DotWithOnes(xs, ones);
    CauchySchwarz(xs, ones);
  }

  // ---------- Deviations from the mean ----------

  lemma OneLess(n: real, m: real, taken: real)
    requires taken == n * m
    ensures taken - m == (n - 1.0) * m
  {
  }

  /** `taken` is what subtracting m from every element takes from the sum. */
  lemma {:induction false} SumMinus(xs: seq<real>, m: real, n: real, taken: real, total: real, left: real)
    requires n == |xs| as real && taken == n * m && total == Sum(xs) && left == Sum(Minus(xs, m))
    ensures left == total - taken
  {
    if xs != [] {
      var k := |xs| - 1;
      var ds := Minus(xs, m);
      OneLess(n, m, taken);
      SumMinus(xs[..k], m, n - 1.0, taken - m, Sum(xs[..k]), Sum(Minus(xs[..k], m)));
      assert ds[..k] == Minus(xs[..k], m) && ds[k] == xs[k] - m;
    }
  }

  lemma OneMore(n: nat, m: real)
    ensures ((n + 1) as real) * m == (n as real) * m + m
  {
    assert (n + 1) as real == n as real + 1.0;
  }

  lemma Undivided(a: real, b: real, q: real)
    requires b != 0.0 && q == a / b
    ensures q * b == a
  {
  }

  lemma {:induction false} MeanTimesCount(xs: seq<real>, n: real)
    requires xs != [] && n == |xs| as real
    ensures Mean(xs) * n == Sum(xs)
  {
    Undivided(Sum(xs), n, Mean(xs));
  }

  lemma DeviationsSumToZero(xs: seq<real>)
    requires xs != []
    ensures Sum(Deviations(xs)) == 0.0
  {
    var n, m := |xs| as real, Mean(xs);
    MeanTimesCount(xs, n);
    SumMinus(xs, m, n, n * m, Sum(xs), Sum(Deviations(xs)));
  }

  /** In a list that sums to zero, the last element squared is at most (n - 1) / n of the sum of
      squares. */
  lemma {:induction false} LastOfZeroSum(d: seq<real>)
    requires d != [] && Sum(d) == 0.0
    ensures (|d| as real) * (d[|d| - 1] * d[|d| - 1]) <= ((|d| - 1) as real) * Dot(d, d)
  {
    var n := |d| - 1;
    var last, rest := d[n], Dot(d[..n], d[..n]);
    SumSquared(d[..n]);
    assert Sum(d[..n]) == -last;
    assert (-last) * (-last) == last * last;
    assert last * last <= rest * (n as real);
    assert Dot(d, d) == rest + last * last;
    assert (n as real) * Dot(d, d) == rest * (n as real) + (n as real) * (last * last);
    assert (|d| as real) * (last * last) == (n as real) * (last * last) + last * last;
  }
}
