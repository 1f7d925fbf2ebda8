/** The coefficient told from the five sums of the data: no means, no deviations. */
module CorrelationMoments {
  import opened Common
  import opened Sums
  import opened Baseline
  import opened Correlation

  function Times(b: real, xs: seq<real>): (r: seq<real>)
    ensures IsScaled(b, xs, r)
  {
    seq(|xs|, i requires 0 <= i < |xs| => b * xs[i])
  }

  lemma ScaledIsAffine(b: real, xs: seq<real>, es: seq<real>)
    requires IsScaled(b, xs, es)
    ensures IsAffine(b, xs, 0.0, es)
  {
  }

  ghost predicate AddUp(ps: seq<real>, es: seq<real>, qs: seq<real>) {
    |ps| == |es| == |qs| && forall i | 0 <= i < |qs| :: ps[i] + es[i] == qs[i]
  }

  lemma {:induction false} SumsAddUp(ps: seq<real>, es: seq<real>, qs: seq<real>)
    requires AddUp(ps, es, qs)
    ensures Sum(ps) + Sum(es) == Sum(qs)
  {
    if qs != [] {
      var k := |qs| - 1;
      SumsAddUp(ps[..k], es[..k], qs[..k]);
    }
  }

  lemma ShiftedProduct(x: real, y: real, b: real, product: real, part: real)
    requires product == x * y && part == b * x
    ensures x * (y - b) + part == product
  {
  }

  lemma {:induction false} ProductAddsUp(xs: seq<real>, ys: seq<real>, ds: seq<real>, b: real, e: real, i: nat)
    requires |xs| == |ys| && i < |xs| && ds == Minus(ys, b) && e == b * xs[i]
    ensures Products(xs, ds)[i] + e == Products(xs, ys)[i]
  {
    MinusAt(ys, b, i);
    ShiftedProduct(xs[i], ys[i], b, Products(xs, ys)[i], e);
  }

  lemma {:induction false} ProductsAddUp(xs: seq<real>, ys: seq<real>, ds: seq<real>, b: real, es: seq<real>)
    requires |xs| == |ys| && ds == Minus(ys, b) && IsScaled(b, xs, es)
    ensures AddUp(Products(xs, ds), es, Products(xs, ys))
  {
    forall i | 0 <= i < |xs| ensures Products(xs, ds)[i] + es[i] == Products(xs, ys)[i] {
      ProductAddsUp(xs, ys, ds, b, es[i], i);
    }
  }

  /** Shifting one list changes the sum of products by the sum of the other. */
  lemma {:induction false} ShiftedDot(xs: seq<real>, ys: seq<real>, b: real, dot: real, sum: real, shifted: real)
    requires |xs| == |ys| && dot == Dot(xs, ys) && sum == Sum(xs) && shifted == Dot(xs, Minus(ys, b))
    ensures shifted == dot - b * sum
  {
    DotIsSum(xs, ys);
    DotIsSum(xs, Minus(ys, b));
    var es := Times(b, xs);
    ProductsAddUp(xs, ys, Minus(ys, b), b, es);
    SumsAddUp(Products(xs, Minus(ys, b)), es, Products(xs, ys));
    ScaledIsAffine(b, xs, es);
    AffineSum(b, xs, 0.0, es, |xs| as real, 0.0, sum, Sum(es));
  }

  /** The deviations of one list may be taken from the values themselves. */
  lemma {:induction false} NumeratorOneSided(xs: seq<real>, ys: seq<real>)
    requires |xs| == |ys| && xs != []
    ensures Numerator(xs, ys) == Dot(xs, Deviations(ys))
  {
    var ds, m := Deviations(ys), Mean(xs);
    DeviationsSumToZero(ys);
    DotCommutes(Minus(xs, m), ds);
    DotCommutes(xs, ds);
    ShiftedDot(ds, xs, m, Dot(ds, xs), Sum(ds), Dot(ds, Minus(xs, m)));
  }

  lemma {:induction false} NumeratorShifted(xs: seq<real>, ys: seq<real>, b: real, xy: real, sx: real, m: real)
    requires |xs| == |ys| && xs != [] && b == Mean(ys) && xy == Dot(xs, ys) && sx == Sum(xs) && m == Numerator(xs, ys)
    ensures m == xy - b * sx
  {
    NumeratorOneSided(xs, ys);
    ShiftedDot(xs, ys, b, xy, sx, m);
  }

  lemma MomentArithmetic(b: real, n: real, xy: real, sx: real, sy: real, m: real)
    requires b * n == sy && m == xy - b * sx
    ensures n * m == n * xy - sx * sy
  {
    assert n * (b * sx) == sx * sy;
  }

  /** The squared coefficient times both spreads is the squared co-spread; the coefficient has its sign. */
  ghost predicate HasMoments(r: real, xx: real, yy: real, xy: real) {
    && (r * r) * (xx * yy) == xy * xy
    && (xx == 0.0 || yy == 0.0 ==> r == 0.0)
    && (xx > 0.0 && yy > 0.0 ==> (r > 0.0 <==> xy > 0.0) && (r < 0.0 <==> xy < 0.0))
  }

  lemma QuotientSign(q: real, d: real)
    requires d > 0.0
    ensures (q / d > 0.0 <==> q > 0.0) && (q / d < 0.0 <==> q < 0.0)
  {
    var r := q / d;
    assert r * d == q;
    if r > 0.0 { SameSign(r, d, r * d); } else if r < 0.0 { Opposite(d, r); }
  }

  lemma CoefficientHasMoments(xy: real, dx: real, dy: real, xx: real, yy: real)
    requires dx >= 0.0 && dy >= 0.0 && dx * dx == xx && dy * dy == yy && xy * xy <= xx * yy
    ensures HasMoments(Coefficient(xy, dx, dy), xx, yy, xy)
  {
    var r := Coefficient(xy, dx, dy);
    if dx == 0.0 || dy == 0.0 {
      assert xx == 0.0 || yy == 0.0;
      assert xx * yy == 0.0;
      SquareNonNegative(xy);
    } else {
      var d := dx * dy;
      SameSign(dx, dy, d);
      SameSign(dx, dx, xx);
      SameSign(dy, dy, yy);
      QuotientSign(xy, d);
      SquareOfProduct(dx, dy, xx, yy);
      assert r * d == xy;
      assert (r * r) * (d * d) == (r * d) * (r * d);
    }
  }

  lemma PearsonHasMoments(xs: seq<real>, ys: seq<real>, root: real -> real)
    requires |xs| == |ys| >= 2 && IsRoot(root)
    ensures HasMoments(Pearson(xs, ys, root), Numerator(xs, xs), Numerator(ys, ys), Numerator(xs, ys))
  {
    NumeratorIsBounded(xs, ys);
    DenominatorSquared(xs, root);
    DenominatorSquared(ys, root);
    CoefficientHasMoments(Numerator(xs, ys), Denominator(xs, root), Denominator(ys, root), Numerator(xs, xs), Numerator(ys, ys));
  }

  lemma TimesPositive(n: real, x: real, y: real)
    requires n > 0.0 && y == n * x
    ensures (x > 0.0 <==> y > 0.0) && (x < 0.0 <==> y < 0.0)
  {
    if x > 0.0 { SameSign(n, x, y); } else if x < 0.0 { Opposite(n, x); }
  }

  lemma MomentsScale(n: real, r: real, xx: real, yy: real, xy: real, nxx: real, nyy: real, nxy: real)
    requires n > 0.0 && HasMoments(r, xx, yy, xy) && nxx == n * xx && nyy == n * yy && nxy == n * xy
    ensures HasMoments(r, nxx, nyy, nxy)
  {
    TimesPositive(n, xx, nxx);
    TimesPositive(n, yy, nyy);
    TimesPositive(n, xy, nxy);
    var p := (r * r) * (xx * yy);
    assert nxx * nyy == (n * n) * (xx * yy);
    assert (r * r) * (nxx * nyy) == (n * n) * p;
    assert nxy * nxy == (n * n) * (xy * xy);
  }

  /** The coefficient of two lists of n values is fixed by their sums, sums of squares and sum of products:
      with X = n Sxx - Sx Sx, Y alike and C = n Sxy - Sx Sy, its square is C C / (X Y), its sign that of C, and it
      is zero when X or Y is. */
  lemma PearsonByMoments(xs: seq<real>, ys: seq<real>, root: real -> real, xx: real, yy: real, xy: real)
    requires |xs| == |ys| >= 2 && IsRoot(root)
    requires xx == CoSpread(xs, xs) && yy == CoSpread(ys, ys) && xy == CoSpread(xs, ys)
    ensures HasMoments(Pearson(xs, ys, root), xx, yy, xy)
  {
    var n := |xs| as real;
    PearsonHasMoments(xs, ys, root);
    CoSpreadIsNumerator(xs, xs, n, Numerator(xs, xs));
    CoSpreadIsNumerator(ys, ys, n, Numerator(ys, ys));
    CoSpreadIsNumerator(xs, ys, n, Numerator(xs, ys));
    MomentsScale(n, Pearson(xs, ys, root), Numerator(xs, xs), Numerator(ys, ys), Numerator(xs, ys), xx, yy, xy);
  }

  /** n times the sum of products less the product of the sums. */
  function CoSpread(xs: seq<real>, ys: seq<real>): real
    requires |xs| == |ys|
  {
    CoSpreadOf(|xs| as real, Dot(xs, ys), Sum(xs), Sum(ys))
  }

  function CoSpreadOf(n: real, xy: real, sx: real, sy: real): real { n * xy - sx * sy }

  lemma CoSpreadIsNumerator(xs: seq<real>, ys: seq<real>, n: real, m: real)
    requires |xs| == |ys| && xs != [] && n == |xs| as real && m == Numerator(xs, ys)
    ensures CoSpread(xs, ys) == n * m
  {
    var b, xy, sx, sy := Mean(ys), Dot(xs, ys), Sum(xs), Sum(ys);
    MeanTimesCount(ys, n);
    NumeratorShifted(xs, ys, b, xy, sx, m);
    MomentArithmetic(b, n, xy, sx, sy, m);
  }

  /** The first values of a window, at most as many as another has. */
  predicate AreFirst(xs: seq<real>, window: seq<(string, real)>, other: seq<(string, real)>) {
    |xs| == Min(|window|, |other|) && forall k | 0 <= k < |xs| :: xs[k] == window[k].1
  }

  lemma PairIsCoefficient(a: seq<(string, real)>, b: seq<(string, real)>, xs: seq<real>, ys: seq<real>, root: real -> real)
    requires AreFirst(xs, a, b) && AreFirst(ys, b, a)
    ensures Pair(a, b, root) == if |a| >= 2 && |b| >= 2 then Some(Pearson(xs, ys, root)) else None
  {
    assert xs == Values(a, |xs|) && ys == Values(b, |xs|);
  }

  /** Without pandas, an earlier tag has an entry for a later one exactly when both have two values, and it is the
      coefficient of their oldest values, position by position. */
  lemma {:induction false} EntryIsCoefficient(data: map<Tag, seq<(string, real)>>, pair: (Tag, Tag) -> Option<real>, order: seq<Tag>, i: nat, j: nat,
                           xs: seq<real>, ys: seq<real>, root: real -> real)
    requires i < j < |order| && Distinct(order) && order[i] in data && order[j] in data && pair == Pairs(data, root)
    requires AreFirst(xs, data[order[i]], data[order[j]]) && AreFirst(ys, data[order[j]], data[order[i]])
    ensures Entry(Row(pair, order, i, |order|), order[j])
            == if |data[order[i]]| >= 2 && |data[order[j]]| >= 2 then Some(Pearson(xs, ys, root)) else None
  {
    RowIsTriangular(pair, order, i, j, |order|);
    PairIsCoefficient(data[order[i]], data[order[j]], xs, ys, root);
  }
}
