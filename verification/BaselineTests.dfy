/** When each test of the baseline detector fires, told from the values themselves. */
module BaselineTests {
  import opened Common
  import opened Sums
  import opened Baseline

  /** The reading of the last value of a tag that has seen these values. */
  function ReadingAt(c: Config, values: seq<real>, root: real -> real): Reading
    requires values != [] && IsRoot(root)
  {
    ReadingOf(c, After(c, values[..|values| - 1]), values[|values| - 1], root)
  }

  /** Which tests make a reading critical, a warning, or normal: the z test with the moving average, or with
      both others; without that, z or the moving average alone, or both others. */
  lemma SeveritySays(c: Config, s: TagState, value: real, root: real -> real)
    requires IsRoot(root)
    ensures var r := ReadingOf(c, s, value, root);
            var both := r.rocAnomaly && r.stuckAnomaly;
            && (r.severity == Critical <==> r.zAnomaly && (r.ewmaAnomaly || both))
            && (r.severity == Normal <==> !r.zAnomaly && !r.ewmaAnomaly && !both)
            && 0 <= r.score <= 100 && (r.score == 100 <==> r.zAnomaly && r.ewmaAnomaly && both)
            && (r.score == 0 <==> !r.zAnomaly && !r.ewmaAnomaly && !r.rocAnomaly && !r.stuckAnomaly)
  {
  }

  // ---------- The z test ----------

  lemma SquareOrder(a: real, b: real)
    requires a >= 0.0 && b >= 0.0
    ensures a < b <==> a * a < b * b
  {
    if a < b { SquareGrows(a, b); } else if b < a { SquareGrows(b, a); }
  }

  lemma QuotientAboveIff(d: real, s: real, t: real, q: real)
    requires s > 0.0 && t >= 0.0 && q == d / s
    ensures Abs(q) > t <==> d * d > (t * t) * (s * s)
  {
    var a, b := Abs(d), t * s;
    assert q * s == d;
    assert Abs(q) * s == a;
    if Abs(q) > t { Scale(t, Abs(q), s); } else { Monotone(Abs(q), t, s); }
    NonNegative(t, s, b);
    SquareOrder(b, a);
    assert b * b == (t * t) * (s * s) && a * a == d * d;
  }

  lemma StableIff(s: real, m: real)
    requires s > 0.0
    ensures s < m * 0.2 <==> m > 0.0 && 25.0 * (s * s) < m * m
  {
    if m > 0.0 {
      SquareOrder(5.0 * s, m);
      assert (5.0 * s) * (5.0 * s) == 25.0 * (s * s);
    }
  }

  /** The z test without roots: the squared distance from the mean exceeds the squared threshold times the
      variance, and the variance is under a twenty-fifth of the squared mean, which is positive. */
  lemma ZFiresIff(threshold: real, xs: seq<real>, value: real, root: real -> real, m: real, v: real)
    requires xs != [] && IsRoot(root) && threshold >= 0.0 && m == Mean(xs) && v == Variance(xs) && v > 0.0
    ensures ZFires(threshold, xs, value, root) <==>
            (value - m) * (value - m) > (threshold * threshold) * v && m > 0.0 && 25.0 * v < m * m
  {
    var s := Spread(xs, root);
    QuotientAboveIff(value - m, s, threshold, (value - m) / s);
    StableIff(s, m);
  }

  lemma MoreThanSquare(k: real, t2: real, v: real, d2: real)
    requires v > 0.0 && d2 == k * v
    ensures d2 > t2 * v <==> k > t2
  {
    if k > t2 { Scale(t2, k, v); } else { Monotone(k, t2, v); }
  }

  lemma {:induction false} SpikeTest(threshold: real, n: nat, k: real, base: real, spike: real, root: real -> real, m: real, v: real)
    requires IsRoot(root) && n >= 1 && k == n as real && spike != base && threshold >= 0.0
    requires m == Mean(Repeat(n, base) + [spike]) && v == Variance(Repeat(n, base) + [spike])
    ensures ZFires(threshold, Repeat(n, base) + [spike], spike, root) <==>
            k > threshold * threshold && m > 0.0 && 25.0 * v < m * m
  {
    SpikeAttainsBound(n, base, spike);
    ZFiresIff(threshold, Repeat(n, base) + [spike], spike, root, m, v);
    MoreThanSquare(k, threshold * threshold, v, (spike - m) * (spike - m));
  }

  /** A spike after n equal values fires exactly when n exceeds the squared threshold and the window, the
      spike included, still counts as stable; the window has to hold it all. */
  lemma {:induction false} SpikeFiresIff(c: Config, n: nat, base: real, spike: real, root: real -> real, m: real, v: real)
    requires IsRoot(root) && 2 <= n < c.windowSize && spike != base && c.zThreshold >= 0.0
    requires m == Mean(Repeat(n, base) + [spike]) && v == Variance(Repeat(n, base) + [spike])
    ensures ReadingAt(c, Repeat(n, base) + [spike], root).zAnomaly <==>
            n as real > c.zThreshold * c.zThreshold && m > 0.0 && 25.0 * v < m * m
  {
    SpikeTest(c.zThreshold, n, n as real, base, spike, root, m, v);
    ReadingTestsWindow(c, Repeat(n, base) + [spike], root);
  }

  /** The z test of a reading looks at the newest values, the last included, and at three or more. */
  lemma ReadingTestsWindow(c: Config, values: seq<real>, root: real -> real)
    requires values != [] && IsRoot(root)
    ensures var window, last := Bounded(values, c.windowSize), values[|values| - 1];
            && (ReadingAt(c, values, root).zAnomaly <==> |window| >= 3 && ZFires(c.zThreshold, window, last, root))
            && (|window| < 3 ==> ReadingAt(c, values, root).zScore == 0.0)
  {
    WindowIsNewest(c, values);
  }

  // ---------- The rate of change ----------

  function Gap(values: seq<real>, k: nat): real
    requires 0 < k < |values|
  {
    if values[k] < values[k - 1] then values[k - 1] - values[k] else values[k] - values[k - 1]
  }

  /** The newest differences of neighbouring values, at most `size`. */
  predicate AreNewestGaps(rocs: seq<real>, values: seq<real>, size: nat)
    requires values != []
  {
    && |rocs| == Min(|values| - 1, size)
    && forall i | 0 <= i < |rocs| :: rocs[i] == Gap(values, |values| - |rocs| + i)
  }

  lemma GapInPrefix(values: seq<real>, k: nat)
    requires 0 < k < |values| - 1
    ensures Gap(values[..|values| - 1], k) == Gap(values, k)
  {
  }

  lemma GapsAppend(c: Config, before: seq<real>, values: seq<real>)
    requires |values| > 1 && AreNewestGaps(before, values[..|values| - 1], c.windowSize)
    ensures AreNewestGaps(NextRocs(c, Some(values[|values| - 2]), before, values[|values| - 1]), values, c.windowSize)
  {
    var n := |values| - 1;
    forall i | 0 <= i < |before| ensures before[i] == Gap(values, n - |before| + i) { GapInPrefix(values, n - |before| + i); }
  }

  /** The stored rates are the newest differences of neighbouring values. */
  lemma {:induction false} RatesAreGaps(c: Config, values: seq<real>)
    requires values != []
    ensures AreNewestGaps(After(c, values).rocs, values, c.windowSize)
    ensures After(c, values).last == Some(values[|values| - 1])
  {
    var n := |values| - 1;
    if n > 0 {
      RatesAreGaps(c, values[..n]);
      GapsAppend(c, After(c, values[..n]).rocs, values);
    }
  }

  lemma {:induction false} MeanAboveIff(xs: seq<real>, t: real, n: real)
    requires xs != [] && n == |xs| as real
    ensures Mean(xs) > t <==> Sum(xs) > t * n
  {
    MeanTimesCount(xs, n);
    if Mean(xs) > t { Scale(t, Mean(xs), n); } else { Monotone(Mean(xs), t, n); }
  }

  lemma {:induction false} ReadingTestsRates(c: Config, values: seq<real>, root: real -> real)
    requires values != [] && IsRoot(root)
    ensures ReadingAt(c, values, root).rocAnomaly <==>
            RocFires(c, After(c, values[..|values| - 1]).last, After(c, values).rocs)
    ensures After(c, values[..|values| - 1]).last.Some? <==> |values| > 1
  {
    if |values| > 1 { RatesAreGaps(c, values[..|values| - 1]); }
  }

  lemma RecentGaps(rocs: seq<real>, values: seq<real>, gaps: seq<real>, size: nat, few: nat)
    requires values != [] && 1 <= few <= size && AreNewestGaps(rocs, values, size) && AreNewestGaps(gaps, values, few)
    ensures Recent(rocs, few) == gaps
  {
    assert forall i | 0 <= i < |gaps| :: gaps[i] == rocs[|rocs| - |gaps| + i];
  }

  lemma {:induction false} RateTest(c: Config, last: Option<real>, rocs: seq<real>, gaps: seq<real>, total: real)
    requires Recent(rocs, c.rocMin) == gaps && |gaps| <= c.rocMin && 1 <= c.rocMin && (last.None? ==> gaps == [])
    requires total == c.rocThreshold * (|gaps| as real)
    ensures RocFires(c, last, rocs) <==> |gaps| == c.rocMin && Sum(gaps) > total
  {
    if gaps != [] { MeanAboveIff(gaps, c.rocThreshold, |gaps| as real); }
  }

  /** The rate test fires exactly when there are `rocMin` differences and the newest `rocMin` of them sum to
      more than the threshold for each. */
  lemma {:induction false} RateFiresIff(c: Config, values: seq<real>, gaps: seq<real>, root: real -> real, total: real)
    requires values != [] && IsRoot(root) && 1 <= c.rocMin <= c.windowSize
    requires AreNewestGaps(gaps, values, c.rocMin) && total == c.rocThreshold * (|gaps| as real)
    ensures ReadingAt(c, values, root).rocAnomaly <==> |gaps| == c.rocMin && Sum(gaps) > total
  {
    RatesAreGaps(c, values);
    RecentGaps(After(c, values).rocs, values, gaps, c.windowSize, c.rocMin);
    ReadingTestsRates(c, values, root);
    RateTest(c, After(c, values[..|values| - 1]).last, After(c, values).rocs, gaps, total);
  }

  /** What a reading reports of the rate and the stuck counter ... */
  lemma ReadingReportsRate(c: Config, values: seq<real>, root: real -> real)
    requires values != [] && IsRoot(root)
    ensures var r, n := ReadingAt(c, values, root), |values| - 1;
            && r.roc == (if n == 0 then 0.0 else Gap(values, n))
            && r.stuckCount == (if c.stuckThreshold > 0.0 then n else 0) && (r.stuckAnomaly <==> r.stuckCount >= c.stuckMin)
  {
    if |values| > 1 { RatesAreGaps(c, values[..|values| - 1]); }
    StuckCountsUpdates(c, values);
  }

  /** ... and of the moving average. */
  lemma {:induction false} ReadingReportsAverage(c: Config, values: seq<real>, average: real, root: real -> real)
    requires values != [] && After(c, values).ewma == Some(average) && IsRoot(root)
    ensures var r := ReadingAt(c, values, root);
            && r.ewma == average && r.ewmaDeviation == Abs(values[|values| - 1] - average)
            && (r.ewmaAnomaly <==> r.ewmaDeviation > c.ewmaThreshold && Min(|values|, c.windowSize) >= c.rocMin)
  {
    WindowIsNewest(c, values);
  }

  // ---------- The moving average ----------

  function Pow(x: real, m: nat): real { if m == 0 then 1.0 else x * Pow(x, m - 1) }

  function AverageAfter(c: Config, values: seq<real>): real
    requires values != []
  {
    After(c, values).ewma.value
  }

  function Moved(alpha: real, average: real, value: real): real { alpha * value + (1.0 - alpha) * average }

  function MovedTimes(alpha: real, average: real, value: real, m: nat): real {
    if m == 0 then average else Moved(alpha, MovedTimes(alpha, average, value, m - 1), value)
  }

  lemma AverageMoves(c: Config, values: seq<real>, value: real)
    requires values != []
    ensures AverageAfter(c, values + [value]) == Moved(c.alpha, AverageAfter(c, values), value)
  {
    assert (values + [value])[..|values|] == values;
  }

  lemma {:induction false} AverageMovesTimes(c: Config, values: seq<real>, base: real, m: nat)
    requires values != []
    ensures AverageAfter(c, values + Repeat(m, base)) == MovedTimes(c.alpha, AverageAfter(c, values), base, m)
  {
    if m == 0 {
      assert values + [] == values;
    } else {
      AverageMovesTimes(c, values, base, m - 1);
      AverageMoves(c, values + Repeat(m - 1, base), base);
      assert values + Repeat(m, base) == values + Repeat(m - 1, base) + [base];
    }
  }

  lemma MovedCloser(alpha: real, average: real, value: real)
    ensures Moved(alpha, average, value) - value == (1.0 - alpha) * (average - value)
  {
  }

  lemma {:induction false} MovedTimesCloser(alpha: real, average: real, value: real, m: nat, gap: real, after: real)
    requires gap == average - value && after == MovedTimes(alpha, average, value, m) - value
    ensures after == Pow(1.0 - alpha, m) * gap
  {
    if m > 0 {
      var before := MovedTimes(alpha, average, value, m - 1) - value;
      MovedTimesCloser(alpha, average, value, m - 1, gap, before);
      MovedCloser(alpha, before + value, value);
      OneMorePower(1.0 - alpha, Pow(1.0 - alpha, m - 1), gap, before);
    }
  }

  lemma OneMorePower(k: real, power: real, gap: real, moved: real)
    requires moved == power * gap
    ensures k * moved == (k * power) * gap
  {
  }

  /** The moving average forgets geometrically: m equal values, which move it m times, shrink its distance from
      them by the m-th power of one minus the smoothing factor. */
  lemma {:induction false} AverageForgets(alpha: real, average: real, value: real, m: nat, left: real)
    requires left == Pow(1.0 - alpha, m) * (average - value)
    ensures MovedTimes(alpha, average, value, m) == value + left
  {
    MovedTimesCloser(alpha, average, value, m, average - value, MovedTimes(alpha, average, value, m) - value);
  }

  /** After n equal values the average is that value ... */
  lemma {:induction false} AverageOfEqual(c: Config, n: nat, base: real)
    requires n >= 1
    ensures AverageAfter(c, Repeat(n, base)) == base
  {
    if n > 1 {
      AverageOfEqual(c, n - 1, base);
      AverageMoves(c, Repeat(n - 1, base), base);
      MovedCloser(c.alpha, base, base);
    } else {
      assert Repeat(1, base) == [base] && Repeat(1, base)[..0] == [] && After(c, []) == FRESH;
    }
  }

  lemma MovedOff(alpha: real, base: real, spike: real, off: real)
    requires 0.0 <= alpha <= 1.0 && off == (1.0 - alpha) * Abs(spike - base)
    ensures Abs(spike - Moved(alpha, base, spike)) == off
  {
    MovedCloser(alpha, base, spike);
    Distances(1.0 - alpha, base - spike, Moved(alpha, base, spike) - spike);
  }

  lemma {:induction false} SpikeMoves(c: Config, n: nat, base: real, spike: real)
    requires n >= 1
    ensures AverageAfter(c, Repeat(n, base) + [spike]) == Moved(c.alpha, base, spike)
  {
    AverageOfEqual(c, n, base);
    AverageMoves(c, Repeat(n, base), spike);
  }

  /** ... and a spike lies off the moved average by its distance from them times one minus the smoothing
      factor; the test fires exactly when that exceeds the threshold and there are enough values. */
  lemma {:induction false} SpikeOffAverage(c: Config, n: nat, base: real, spike: real, values: seq<real>, root: real -> real, off: real)
    requires n >= 1 && values == Repeat(n, base) + [spike] && IsRoot(root)
    requires 0.0 <= c.alpha <= 1.0 && off == (1.0 - c.alpha) * Abs(spike - base)
    ensures ReadingAt(c, values, root).ewmaDeviation == off
    ensures ReadingAt(c, values, root).ewmaAnomaly <==> off > c.ewmaThreshold && Min(n + 1, c.windowSize) >= c.rocMin
  {
    SpikeMoves(c, n, base, spike);
    MovedOff(c.alpha, base, spike, off);
    ReadingReportsAverage(c, values, Moved(c.alpha, base, spike), root);
  }

  lemma Distances(k: real, d: real, e: real)
    requires k >= 0.0 && e == k * d
    ensures Abs(-e) == k * Abs(-d)
  {
    if d < 0.0 { NonNegative(k, -d, k * -d); } else { NonNegative(k, d, k * d); }
  }
}
