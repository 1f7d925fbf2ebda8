/** Pearson correlation over exact reals, and the pairwise table without pandas. */
module Correlation {
  import opened Common
  import opened Sums
  import opened Baseline

  function Numerator(xs: seq<real>, ys: seq<real>): real
    requires |xs| == |ys| && xs != []
  {
    Dot(Deviations(xs), Deviations(ys))
  }

  function Denominator(xs: seq<real>, root: real -> real): real
    requires xs != []
  {
    root(Dot(Deviations(xs), Deviations(xs)))
  }

  function Pearson(xs: seq<real>, ys: seq<real>, root: real -> real): real {
    if |xs| != |ys| || |xs| < 2 then 0.0
    else Coefficient(Numerator(xs, ys), Denominator(xs, root), Denominator(ys, root))
  }

  function Coefficient(numerator: real, dx: real, dy: real): real {
    if dx == 0.0 || dy == 0.0 then 0.0
    else
      ProductNonZero(dx, dy);
      numerator / (dx * dy)
  }

  lemma ProductNonZero(dx: real, dy: real)
    requires dx != 0.0 && dy != 0.0
    ensures dx * dy != 0.0
  {
    if (dx > 0.0) == (dy > 0.0) { SameSign(dx, dy, dx * dy); } else { SameSign(-dx, dy, -dx * dy); }
  }

  lemma DenominatorSquared(xs: seq<real>, root: real -> real)
    requires xs != [] && IsRoot(root)
    ensures Denominator(xs, root) >= 0.0
    ensures Denominator(xs, root) * Denominator(xs, root) == Numerator(xs, xs)
  {
    DotSelfNonNegative(Deviations(xs));
  }

  // ---------- Bounds ----------

  lemma AtMostOne(n: real, d: real)
    requires d > 0.0 && n * n <= d * d
    ensures -1.0 <= n / d <= 1.0
  {
    var r := n / d;
    assert r * d == n;
    if n > d { SquareGrows(d, n); }
    if -n > d {
      assert (-n) * (-n) == n * n;
      SquareGrows(d, -n);
    }
    if r > 1.0 { Scale(1.0, r, d); }
    if r < -1.0 { Scale(r, -1.0, d); }
  }

  lemma SquareOfProduct(dx: real, dy: real, sx: real, sy: real)
    requires dx * dx == sx && dy * dy == sy
    ensures (dx * dy) * (dx * dy) == sx * sy
  {
    assert (dx * dy) * (dx * dy) == (dx * dx) * (dy * dy);
  }

  lemma CoefficientIsBounded(n: real, dx: real, dy: real, sx: real, sy: real)
    requires dx >= 0.0 && dy >= 0.0 && dx * dx == sx && dy * dy == sy && n * n <= sx * sy
    ensures -1.0 <= Coefficient(n, dx, dy) <= 1.0
  {
    if dx > 0.0 && dy > 0.0 {
      var d := dx * dy;
      SameSign(dx, dy, d);
      SquareOfProduct(dx, dy, sx, sy);
      AtMostOne(n, d);
    }
  }

  /** The squared numerator is at most the product of the two squared denominators. */
  lemma NumeratorIsBounded(xs: seq<real>, ys: seq<real>)
    requires |xs| == |ys| && xs != []
    ensures Numerator(xs, ys) * Numerator(xs, ys) <= Numerator(xs, xs) * Numerator(ys, ys)
  {
    CauchySchwarz(Deviations(xs), Deviations(ys));
  }

  /** The coefficient lies between -1 and 1. */
  lemma PearsonIsBounded(xs: seq<real>, ys: seq<real>, root: real -> real)
    requires IsRoot(root)
    ensures -1.0 <= Pearson(xs, ys, root) <= 1.0
  {
    if |xs| == |ys| && |xs| >= 2 {
      var dx, dy := Denominator(xs, root), Denominator(ys, root);
      NumeratorIsBounded(xs, ys);
      DenominatorSquared(xs, root);
      DenominatorSquared(ys, root);
      CoefficientIsBounded(Numerator(xs, ys), dx, dy, Numerator(xs, xs), Numerator(ys, ys));
    }
  }

  lemma PearsonIsSymmetric(xs: seq<real>, ys: seq<real>, root: real -> real)
    ensures Pearson(xs, ys, root) == Pearson(ys, xs, root)
  {
    if |xs| == |ys| && xs != [] {
      DotCommutes(Deviations(xs), Deviations(ys));
      var dx, dy := Denominator(xs, root), Denominator(ys, root);
      assert dx * dy == dy * dx;
    }
  }

  // ---------- Shifting and scaling ----------

  /** zs holds a * x + b for every x. */
  ghost predicate IsAffine(a: real, xs: seq<real>, b: real, zs: seq<real>) {
    |zs| == |xs| && forall i | 0 <= i < |xs| :: zs[i] == a * xs[i] + b
  }

  ghost predicate IsScaled(a: real, ds: seq<real>, es: seq<real>) {
    |es| == |ds| && forall i | 0 <= i < |ds| :: es[i] == a * ds[i]
  }

  lemma AffineFront(a: real, xs: seq<real>, b: real, zs: seq<real>)
    requires xs != [] && IsAffine(a, xs, b, zs)
    ensures var k := |xs| - 1;
            |zs| == |xs| && IsAffine(a, xs[..k], b, zs[..k]) && zs[k] == a * xs[k] + b
  {
  }

  lemma SumOfOneMore(a: real, rest: real, x: real, b: real, z: real, scaledRest: real, shift: real)
    requires z == a * x + b && scaledRest == a * rest + (shift - b)
    ensures scaledRest + z == a * (rest + x) + shift
  {
  }

  /** `shift` is what adding b to every element adds to the sum. */
  lemma {:induction false} AffineSum(a: real, xs: seq<real>, b: real, zs: seq<real>, n: real, shift: real, total: real, scaled: real)
    requires IsAffine(a, xs, b, zs)
    requires n == |xs| as real && shift == n * b && total == Sum(xs) && scaled == Sum(zs)
    ensures scaled == a * total + shift
  {
    if xs != [] {
      var k := |xs| - 1;
      var rest, scaledRest := Sum(xs[..k]), Sum(zs[..k]);
      AffineFront(a, xs, b, zs);
      OneLess(n, b, shift);
      AffineSum(a, xs[..k], b, zs[..k], n - 1.0, shift - b, rest, scaledRest);
      SumOfOneMore(a, rest, xs[k], b, zs[k], scaledRest, shift);
    }
  }

  lemma ScaledMean(a: real, m: real, b: real, n: real, total: real, m': real)
    requires n > 0.0 && m * n == total && m' * n == a * total + n * b
    ensures m' == a * m + b
  {
    assert (a * m + b) * n == a * (m * n) + n * b;
    SameFactor(m', a * m + b, n);
  }

  lemma AffineMean(a: real, xs: seq<real>, b: real, zs: seq<real>, m: real, m': real)
    requires xs != [] && IsAffine(a, xs, b, zs) && m == Mean(xs) && m' == Mean(zs)
    ensures m' == a * m + b
  {
    var n, total, scaled := |xs| as real, Sum(xs), Sum(zs);
    AffineSum(a, xs, b, zs, n, n * b, total, scaled);
    MeanTimesCount(xs, n);
    MeanTimesCount(zs, n);
    ScaledMean(a, m, b, n, total, m');
  }

  lemma {:induction false} MinusAt(xs: seq<real>, m: real, i: nat)
    requires i < |xs|
    ensures Minus(xs, m)[i] == xs[i] - m
  {
    if i < |xs| - 1 { MinusAt(xs[..|xs| - 1], m, i); }
  }

  lemma AffineDifference(a: real, x: real, b: real, m: real, z: real, d: real, shifted: real)
    requires z == a * x + b && d == x - m && shifted == a * m + b
    ensures z - shifted == a * d
  {
    assert a * d == a * x - a * m;
  }

  lemma {:induction false} AffineMinus(a: real, xs: seq<real>, b: real, zs: seq<real>, m: real, shifted: real, ds: seq<real>, es: seq<real>)
    requires IsAffine(a, xs, b, zs) && shifted == a * m + b && ds == Minus(xs, m) && es == Minus(zs, shifted)
    ensures IsScaled(a, ds, es)
  {
    forall i | 0 <= i < |xs|
      ensures es[i] == a * ds[i]
    {
      MinusAt(xs, m, i);
      MinusAt(zs, shifted, i);
      AffineDifference(a, xs[i], b, m, zs[i], ds[i], shifted);
    }
  }

  lemma AffineDeviations(a: real, xs: seq<real>, b: real, zs: seq<real>)
    requires xs != [] && IsAffine(a, xs, b, zs)
    ensures IsScaled(a, Deviations(xs), Deviations(zs))
  {
    AffineMean(a, xs, b, zs, Mean(xs), Mean(zs));
    AffineMinus(a, xs, b, zs, Mean(xs), Mean(zs), Deviations(xs), Deviations(zs));
  }

  function Products(xs: seq<real>, ys: seq<real>): (r: seq<real>)
    requires |xs| == |ys|
    ensures |r| == |xs|
  {
    seq(|xs|, i requires 0 <= i < |xs| => xs[i] * ys[i])
  }

  lemma {:induction false} DotIsSum(xs: seq<real>, ys: seq<real>)
    requires |xs| == |ys|
    ensures Dot(xs, ys) == Sum(Products(xs, ys))
  {
    if xs != [] {
      var k := |xs| - 1;
      DotIsSum(xs[..k], ys[..k]);
      var ps, rest := Products(xs, ys), Products(xs[..k], ys[..k]);
      forall i | 0 <= i < k
        ensures ps[i] == rest[i]
      {
        assert xs[..k][i] == xs[i] && ys[..k][i] == ys[i];
      }
      assert ps[..k] == rest;
    }
  }

  lemma ScaledProduct(a: real, d: real, e: real, y: real, product: real)
    requires e == a * d && product == d * y
    ensures e * y == a * product + 0.0
  {
  }

  lemma ScaledProducts(a: real, ds: seq<real>, es: seq<real>, ys: seq<real>)
    requires IsScaled(a, ds, es) && |ds| == |ys|
    ensures IsAffine(a, Products(ds, ys), 0.0, Products(es, ys))
  {
    var ps, qs := Products(ds, ys), Products(es, ys);
    forall i | 0 <= i < |ps|
      ensures qs[i] == a * ps[i] + 0.0
    {
      ScaledProduct(a, ds[i], es[i], ys[i], ps[i]);
    }
  }

  lemma {:induction false} DotScaled(a: real, ds: seq<real>, es: seq<real>, ys: seq<real>, dot: real, scaled: real)
    requires IsScaled(a, ds, es) && |ds| == |ys| && dot == Dot(ds, ys) && scaled == Dot(es, ys)
    ensures scaled == a * dot
  {
    DotIsSum(ds, ys);
    DotIsSum(es, ys);
    ScaledProducts(a, ds, es, ys);
    AffineSum(a, Products(ds, ys), 0.0, Products(es, ys), |ds| as real, 0.0, dot, scaled);
  }

  lemma AffineNumerator(a: real, xs: seq<real>, b: real, zs: seq<real>, ys: seq<real>, n: real, scaled: real)
    requires xs != [] && IsAffine(a, xs, b, zs) && |xs| == |ys| && n == Numerator(xs, ys) && scaled == Numerator(zs, ys)
    ensures scaled == a * n
  {
    AffineDeviations(a, xs, b, zs);
    DotScaled(a, Deviations(xs), Deviations(zs), Deviations(ys), n, scaled);
  }

  lemma TwiceScaled(a: real, n: real, once: real, twice: real)
    requires once == a * n && twice == a * once
    ensures twice == (a * a) * n
  {
  }

  lemma AffineSelfNumerator(a: real, xs: seq<real>, b: real, zs: seq<real>, n: real, scaled: real)
    requires xs != [] && IsAffine(a, xs, b, zs) && n == Numerator(xs, xs) && scaled == Numerator(zs, zs)
    ensures scaled == (a * a) * n
  {
    var cross := Numerator(zs, xs);
    AffineNumerator(a, xs, b, zs, xs, n, cross);
    DotCommutes(Deviations(xs), Deviations(zs));
    AffineNumerator(a, xs, b, zs, zs, cross, scaled);
    TwiceScaled(a, n, cross, scaled);
  }

  lemma EqualSquares(p: real, q: real)
    requires p >= 0.0 && q >= 0.0 && p * p == q * q
    ensures p == q
  {
    if p < q { SquareGrows(p, q); } else if q < p { SquareGrows(q, p); }
  }

  lemma RootScales(a: real, s: real, scaled: real, root: real -> real)
    requires IsRoot(root) && s >= 0.0 && scaled == (a * a) * s
    ensures root(scaled) == Abs(a) * root(s)
  {
    var c, d := Abs(a), root(s);
    assert c * c == a * a;
    SquareNonNegative(a);
    NonNegative(a * a, s, scaled);
    NonNegative(c, d, c * d);
    SquareOfProduct(c, d, a * a, s);
    EqualSquares(root(scaled), c * d);
  }

  lemma AffineDenominator(a: real, xs: seq<real>, b: real, zs: seq<real>, root: real -> real, d: real, scaled: real)
    requires xs != [] && IsAffine(a, xs, b, zs) && IsRoot(root) && d == Denominator(xs, root) && scaled == Denominator(zs, root)
    ensures scaled == Abs(a) * d
  {
    DotSelfNonNegative(Deviations(xs));
    AffineSelfNumerator(a, xs, b, zs, Numerator(xs, xs), Numerator(zs, zs));
    RootScales(a, Numerator(xs, xs), Numerator(zs, zs), root);
  }

  lemma CoefficientScales(a: real, n: real, dx: real, dy: real, scaled: real, dz: real)
    requires a != 0.0 && dx >= 0.0 && dy >= 0.0 && scaled == a * n && dz == Abs(a) * dx
    ensures Coefficient(scaled, dz, dy) == if a > 0.0 then Coefficient(n, dx, dy) else -Coefficient(n, dx, dy)
  {
    if dx > 0.0 && dy > 0.0 {
      var c, d := Abs(a), dx * dy;
      SameSign(dx, dy, d);
      SameSign(c, dx, dz);
      SameSign(dz, dy, dz * dy);
      assert dz * dy == c * d;
      SignedQuotient(a, n, d, dz * dy, n / d);
    }
  }

  lemma SignedQuotient(a: real, n: real, d: real, scaled: real, q: real)
    requires a != 0.0 && d > 0.0 && scaled == Abs(a) * d && scaled > 0.0 && q == n / d
    ensures (a * n) / scaled == if a > 0.0 then q else -q
  {
    var r := if a > 0.0 then q else -q;
    Undivided(n, d, q);
    assert r * scaled == a * n by {
      assert r * Abs(a) == a * q;
      assert (r * Abs(a)) * d == a * (q * d);
    }
    Undivided(a * n, scaled, (a * n) / scaled);
    SameFactor((a * n) / scaled, r, scaled);
  }

  lemma PearsonScales(a: real, xs: seq<real>, zs: seq<real>, ys: seq<real>, root: real -> real)
    requires IsRoot(root) && a != 0.0 && |xs| == |ys| == |zs| && |xs| >= 2
    requires Numerator(zs, ys) == a * Numerator(xs, ys) && Denominator(zs, root) == Abs(a) * Denominator(xs, root)
    ensures Pearson(zs, ys, root) == if a > 0.0 then Pearson(xs, ys, root) else -Pearson(xs, ys, root)
  {
    DenominatorSquared(xs, root);
    DenominatorSquared(ys, root);
    CoefficientScales(a, Numerator(xs, ys), Denominator(xs, root), Denominator(ys, root),
                      Numerator(zs, ys), Denominator(zs, root));
  }

  /** Shifting an input changes nothing; scaling it by a positive factor changes nothing and by a
      negative one only the sign. */
  lemma PearsonIgnoresUnits(a: real, xs: seq<real>, b: real, zs: seq<real>, ys: seq<real>, root: real -> real)
    requires IsRoot(root) && a != 0.0 && IsAffine(a, xs, b, zs)
    ensures Pearson(zs, ys, root) == if a > 0.0 then Pearson(xs, ys, root) else -Pearson(xs, ys, root)
  {
    if |xs| == |ys| && |xs| >= 2 {
      AffineNumerator(a, xs, b, zs, ys, Numerator(xs, ys), Numerator(zs, ys));
      AffineDenominator(a, xs, b, zs, root, Denominator(xs, root), Denominator(zs, root));
      PearsonScales(a, xs, zs, ys, root);
    }
  }

  lemma PearsonOfSelf(xs: seq<real>, root: real -> real)
    requires IsRoot(root) && |xs| >= 2 && Numerator(xs, xs) > 0.0
    ensures Pearson(xs, xs, root) == 1.0
  {
    DenominatorSquared(xs, root);
    var s := Numerator(xs, xs);
    assert s / s == 1.0;
  }

  /** A straight line through varying values has correlation exactly 1, or -1 when it falls. */
  lemma PearsonOfLine(a: real, xs: seq<real>, b: real, zs: seq<real>, root: real -> real)
    requires IsRoot(root) && |xs| >= 2 && Numerator(xs, xs) > 0.0 && a != 0.0 && IsAffine(a, xs, b, zs)
    ensures Pearson(zs, xs, root) == if a > 0.0 then 1.0 else -1.0
  {
    PearsonOfSelf(xs, root);
    PearsonIgnoresUnits(a, xs, b, zs, xs, root);
  }

  // ---------- The pairwise table ----------

  type Matrix = map<Tag, map<Tag, real>>

  function Values(readings: seq<(string, real)>, n: nat): seq<real>
    requires n <= |readings|
  {
    seq(n, i requires 0 <= i < n => readings[i].1)
  }

  /** The coefficient of two tags over their common length, by position; None below two values. */
  function Pair(a: seq<(string, real)>, b: seq<(string, real)>, root: real -> real): Option<real> {
    var n := if |a| < |b| then |a| else |b|;
    if n < 2 then None else Some(Pearson(Values(a, n), Values(b, n), root))
  }

  predicate Distinct(order: seq<Tag>) {
    forall i, j | 0 <= i < j < |order| :: order[i] != order[j]
  }

  function Entry(row: map<Tag, real>, tag: Tag): Option<real> {
    if tag in row then Some(row[tag]) else None
  }

  function Pairs(data: map<Tag, seq<(string, real)>>, root: real -> real): (Tag, Tag) -> Option<real> {
    (a, b) => if a in data && b in data then Pair(data[a], data[b], root) else None
  }

  /** What the inner loop leaves in the row of tag i once it has looked at the tags before `limit`. */
  function Row(pair: (Tag, Tag) -> Option<real>, order: seq<Tag>, i: nat, limit: nat): map<Tag, real>
    requires i < limit <= |order|
  {
    if limit == i + 1 then map[]
    else
      var row, c := Row(pair, order, i, limit - 1), pair(order[i], order[limit - 1]);
      if c.Some? then row[order[limit - 1] := c.value] else row
  }

  /** A finished row holds exactly the coefficients with the later tags. */
  lemma {:induction false} RowIsTriangular(pair: (Tag, Tag) -> Option<real>, order: seq<Tag>, i: nat, j: nat, limit: nat)
    requires i < limit <= |order| && j < |order| && Distinct(order)
    ensures Entry(Row(pair, order, i, limit), order[j]) == if i < j < limit then pair(order[i], order[j]) else None
  {
    if limit > i + 1 {
      RowIsTriangular(pair, order, i, j, limit - 1);
      assert j != limit - 1 ==> order[j] != order[limit - 1];
    }
  }

  /** The coefficient of two tags is found both ways round exactly when there is none: the row of the
      later tag is begun afresh after the earlier one was mirrored into it. */
  lemma {:induction false} TableIsSymmetricIff(pair: (Tag, Tag) -> Option<real>, order: seq<Tag>, i: nat, j: nat)
    requires i < j < |order| && Distinct(order)
    ensures (Entry(Row(pair, order, i, |order|), order[j]) == Entry(Row(pair, order, j, |order|), order[i])
             <==> pair(order[i], order[j]).None?)
  {
    RowIsTriangular(pair, order, i, j, |order|);
    RowIsTriangular(pair, order, j, i, |order|);
  }

  ghost predicate RowsDone(result: Matrix, pair: (Tag, Tag) -> Option<real>, order: seq<Tag>, done: nat)
    requires done <= |order|
  {
    && (forall tag | tag in result :: tag in order)
    && forall k | 0 <= k < done :: order[k] in result && result[order[k]] == Row(pair, order, k, |order|)
  }

  /** Writing into the rows of later tags leaves the finished ones alone. */
  lemma LaterRowsAreFree(result: Matrix, next: Matrix, pair: (Tag, Tag) -> Option<real>, order: seq<Tag>, i: nat, j: nat)
    requires i <= j < |order| && Distinct(order) && RowsDone(result, pair, order, i)
    requires next.Keys == result.Keys + {order[i], order[j]}
    requires forall tag | tag in result && tag != order[i] && tag != order[j] :: next[tag] == result[tag]
    ensures RowsDone(next, pair, order, i)
  {
  }

  function Write(result: Matrix, tag1: Tag, tag2: Tag, value: real): Matrix {
    result[tag1 := (if tag1 in result then result[tag1] else map[])[tag2 := value]]
  }

  lemma WriteBoth(result: Matrix, pair: (Tag, Tag) -> Option<real>, order: seq<Tag>, i: nat, j: nat, value: real)
    requires i < j < |order| && Distinct(order) && RowsDone(result, pair, order, i) && order[i] in result
    ensures var next := Write(Write(result, order[i], order[j], value), order[j], order[i], value);
            RowsDone(next, pair, order, i) && order[i] in next && next[order[i]] == result[order[i]][order[j] := value]
  {
    assert order[i] != order[j];
    LaterRowsAreFree(result, Write(Write(result, order[i], order[j], value), order[j], order[i], value), pair, order, i, j);
  }

  /** The nested loop: each outer turn starts its own row afresh, dropping what earlier turns had
      mirrored into it, so the table ends up upper triangular in the order of the tags. */
  method Tabulate(tags: seq<Tag>, pair: (Tag, Tag) -> Option<real>) returns (result: Matrix)
    requires Distinct(tags)
    ensures RowsDone(result, pair, tags, |tags|)
  {
    result := map[];
    for i := 0 to |tags|
      invariant RowsDone(result, pair, tags, i)
    {
      var before := result;
      result := result[tags[i] := map[]];
      LaterRowsAreFree(before, result, pair, tags, i, i);
      for j := i + 1 to |tags|
        invariant RowsDone(result, pair, tags, i)
        invariant tags[i] in result && result[tags[i]] == Row(pair, tags, i, j)
      {
        var c := pair(tags[i], tags[j]);
        if c.Some? {
          WriteBoth(result, pair, tags, i, j, c.value);
          result := Write(result, tags[i], tags[j], c.value);
          result := Write(result, tags[j], tags[i], c.value);
        }
      }
    }
  }

  class CorrelationAnalyzer {
    const windowSize: nat
    const root: real -> real
    var data: map<Tag, seq<(string, real)>>
    var order: seq<Tag>

    ghost predicate Valid()
      reads this
    {
      && Distinct(order)
      && (forall tag :: tag in order <==> tag in data)
      && forall tag | tag in data :: |data[tag]| <= windowSize
    }

    constructor (windowSize: nat, root: real -> real)
      ensures Valid() && data == map[] && this.windowSize == windowSize && this.root == root
    {
      this.windowSize, this.root, data, order := windowSize, root, map[], [];
    }

    method AddValue(tag: Tag, timestamp: string, value: real)
      requires Valid()
      modifies this
      ensures Valid()
      ensures forall other | other != tag :: (other in data <==> other in old(data)) && (other in data ==> data[other] == old(data)[other])
      ensures tag in data
      ensures var all := (if tag in old(data) then old(data)[tag] else []) + [(timestamp, value)];
              data[tag] == if |all| > windowSize then all[|all| - windowSize..] else all
    {
      if tag !in data {
        data := data[tag := []];
        order := order + [tag];
      }
      var all := data[tag] + [(timestamp, value)];
      data := data[tag := if |all| > windowSize then all[|all| - windowSize..] else all];
    }

    /** The table of the tags in order of first appearance. */
    method SimpleCorrelation() returns (result: Matrix)
      requires Valid()
      ensures result.Keys == set tag | tag in order
      ensures forall i | 0 <= i < |order| :: result[order[i]] == Row(Pairs(data, root), order, i, |order|)
    {
      result := Tabulate(order, Pairs(data, root));
    }
  }
}
