/** The rolling baseline detector, over exact reals and without rounding of the reported figures. */
module Baseline {
  import opened Common
  import opened Sums

  type Tag = string

  datatype Severity = Normal | Warning | Critical

  datatype Config = Config(
    windowSize: nat, zThreshold: real, alpha: real, rocThreshold: real, stuckThreshold: real, stuckMin: int,
    ewmaThreshold: real, rocMin: nat)

  datatype Reading = Reading(
    zScore: real, zAnomaly: bool, ewma: real, ewmaDeviation: real, ewmaAnomaly: bool,
    roc: real, rocAnomaly: bool, stuckCount: int, stuckAnomaly: bool, score: int, severity: Severity)

  /** What the detector keeps for one tag; None before its first value. */
  datatype TagState = TagState(window: seq<real>, ewma: Option<real>, last: Option<real>,
                               stuck: Option<int>, rocs: seq<real>)

  const FRESH := TagState([], None, None, None, [])

  function Abs(x: real): real { if x < 0.0 then -x else x }

  /** The square root on non-negative reals. */
  ghost predicate IsRoot(root: real -> real) {
    forall x | x >= 0.0 :: root(x) >= 0.0 && root(x) * root(x) == x
  }

  /** A deque of at most n elements keeps the newest. */
  function Bounded(xs: seq<real>, n: nat): seq<real> {
    if |xs| > n then xs[|xs| - n..] else xs
  }

  /** `xs[-n:]`: everything when n is 0. */
  function Recent(xs: seq<real>, n: nat): seq<real> {
    if 0 < n < |xs| then xs[|xs| - n..] else xs
  }

  function Average(xs: seq<real>): real { if xs == [] then 0.0 else Mean(xs) }

  function Variance(xs: seq<real>): real
    requires xs != []
  {
    Dot(Deviations(xs), Deviations(xs)) / (|xs| as real)
  }

  function Spread(xs: seq<real>, root: real -> real): (spread: real)
    requires xs != [] && IsRoot(root)
    ensures spread > 0.0
    ensures Variance(xs) > 0.0 ==> spread * spread == Variance(xs)
  {
    if Variance(xs) > 0.0 then
      RootIsPositive(root, Variance(xs));
      root(Variance(xs))
    else 0.000000001
  }

  lemma RootIsPositive(root: real -> real, x: real)
    requires IsRoot(root) && x > 0.0
    ensures root(x) > 0.0 && root(x) * root(x) == x
  {
  }

  /** The z test: far from the mean while the window is stable. */
  predicate ZFires(threshold: real, xs: seq<real>, value: real, root: real -> real)
    requires xs != [] && IsRoot(root)
  {
    Abs((value - Mean(xs)) / Spread(xs, root)) > threshold && Spread(xs, root) < Mean(xs) * 0.2
  }

  /** Windows of fewer than three values have score zero and never fire. */
  function ZScore(xs: seq<real>, value: real, root: real -> real): real
    requires IsRoot(root)
  {
    if |xs| >= 3 then (value - Mean(xs)) / Spread(xs, root) else 0.0
  }

  predicate ZAnomaly(threshold: real, xs: seq<real>, value: real, root: real -> real)
    requires IsRoot(root)
  {
    |xs| >= 3 && ZFires(threshold, xs, value, root)
  }

  function NextEwma(c: Config, ewma: Option<real>, value: real): real {
    if ewma.Some? then c.alpha * value + (1.0 - c.alpha) * ewma.value else value
  }

  function NextRocs(c: Config, last: Option<real>, before: seq<real>, value: real): seq<real> {
    if last.None? then before
    else
      var rocs := before + [Abs(value - last.value)];
      if |rocs| > c.windowSize then rocs[1..] else rocs
  }

  /** The stuck test reads the stored last value, which by then is the value itself. */
  function NextStuck(c: Config, s: TagState, value: real): int {
    if s.stuck.Some? && Abs(value - value) < c.stuckThreshold then s.stuck.value + 1 else 0
  }

  /** Everything but the window. */
  function AfterValue(c: Config, s: TagState, value: real): TagState {
    TagState(s.window, Some(NextEwma(c, s.ewma, value)), Some(value), Some(NextStuck(c, s, value)),
             NextRocs(c, s.last, s.rocs, value))
  }

  function Next(c: Config, s: TagState, value: real): TagState {
    AfterValue(c, s.(window := Bounded(s.window + [value], c.windowSize)), value)
  }

  function Score(z: bool, ewma: bool, roc: bool, stuck: bool): int {
    (if z then 40 else 0) + (if ewma then 30 else 0) + (if roc then 20 else 0) + (if stuck then 10 else 0)
  }

  function SeverityOf(score: int): Severity {
    if score >= 70 then Critical else if score >= 30 then Warning else Normal
  }

  /** The combined report of the four tests. */
  function Report(c: Config, value: real, samples: nat, zScore: real, z: bool, ewma: real, roc: real, rocAnomaly: bool, stuck: int): Reading {
    var ewmaAnomaly := Abs(value - ewma) > c.ewmaThreshold && samples >= c.rocMin;
    var score := Score(z, ewmaAnomaly, rocAnomaly, stuck >= c.stuckMin);
    Reading(zScore, z, ewma, Abs(value - ewma), ewmaAnomaly, roc, rocAnomaly, stuck, stuck >= c.stuckMin, score, SeverityOf(score))
  }

  function RocOf(last: Option<real>, value: real): real {
    if last.Some? then Abs(value - last.value) else 0.0
  }

  predicate RocFires(c: Config, last: Option<real>, rocs: seq<real>) {
    var recent := Recent(rocs, c.rocMin);
    last.Some? && Average(recent) > c.rocThreshold && |recent| >= c.rocMin
  }

  /** What is reported for a value, given the tag's state before it. */
  function ReadingOf(c: Config, s: TagState, value: real, root: real -> real): Reading
    requires IsRoot(root)
  {
    var t := Next(c, s, value);
    Report(c, value, |t.window|, ZScore(t.window, value, root), ZAnomaly(c.zThreshold, t.window, value, root),
           t.ewma.value, RocOf(s.last, value), RocFires(c, s.last, t.rocs), t.stuck.value)
  }

  class BaselineDetector {
    const config: Config
    const root: real -> real
    var windows: map<Tag, seq<real>>
    var ewmas: map<Tag, real>
    var lasts: map<Tag, real>
    var stuckCounts: map<Tag, int>
    var rocHistory: map<Tag, seq<real>>

    constructor (config: Config, root: real -> real)
      ensures this.config == config && this.root == root
      ensures forall tag :: StateOf(tag) == FRESH
    {
      this.config, this.root := config, root;
      windows, ewmas, lasts, stuckCounts, rocHistory := map[], map[], map[], map[], map[];
    }

    function StateOf(tag: Tag): TagState
      reads this
    {
      TagState(SeqOf(windows, tag), Get(ewmas, tag), Get(lasts, tag), GetCount(stuckCounts, tag), SeqOf(rocHistory, tag))
    }

    method PushWindow(tag: Tag, value: real) returns (window: seq<real>)
      modifies this`windows
      ensures window == Bounded(SeqOf(old(windows), tag) + [value], config.windowSize)
      ensures windows == old(windows)[tag := window]
    {
      window := Bounded((if tag in windows then windows[tag] else []) + [value], config.windowSize);
      windows := windows[tag := window];
    }

    method TestWindow(window: seq<real>, value: real) returns (zScore: real, zAnomaly: bool)
      requires IsRoot(root)
      ensures zScore == ZScore(window, value, root)
      ensures zAnomaly == ZAnomaly(config.zThreshold, window, value, root)
    {
      zScore, zAnomaly := 0.0, false;
      if |window| >= 3 {
        var mean, spread := Mean(window), Spread(window, root);
        zScore := (value - mean) / spread;
        zAnomaly := Abs(zScore) > config.zThreshold && spread < mean * 0.2;
      }
    }

    method PushEwma(tag: Tag, value: real) returns (ewma: real)
      modifies this`ewmas
      ensures ewma == NextEwma(config, Get(old(ewmas), tag), value)
      ensures ewmas == old(ewmas)[tag := ewma]
    {
      ewma := if tag in ewmas then config.alpha * value + (1.0 - config.alpha) * ewmas[tag] else value;
      ewmas := ewmas[tag := ewma];
    }

    /** The rate of change against the last value, and its bounded history. */
    method PushRoc(tag: Tag, value: real) returns (roc: real, rocAnomaly: bool)
      modifies this`rocHistory, this`lasts
      ensures rocHistory == HistoriesAfter(config, old(rocHistory), old(StateOf(tag)), tag, value)
      ensures var last, rocs := old(StateOf(tag)).last, old(StateOf(tag)).rocs;
              && roc == RocOf(last, value)
              && rocAnomaly == RocFires(config, last, NextRocs(config, last, rocs, value))
      ensures lasts == old(lasts)[tag := value]
    {
      var last := Get(lasts, tag);
      roc := RocOf(last, value);
      if last.Some? {
        var rocs := (if tag in rocHistory then rocHistory[tag] else []) + [roc];
        if |rocs| > config.windowSize { rocs := rocs[1..]; }
        rocHistory := rocHistory[tag := rocs];
      }
      rocAnomaly := RocFires(config, last, if tag in rocHistory then rocHistory[tag] else []);
      lasts := lasts[tag := value];
    }

    /** The stuck counter; it compares with the last value stored by now. */
    method PushStuck(tag: Tag, value: real) returns (stuck: int)
      requires tag in lasts
      modifies this`stuckCounts
      ensures stuck == if tag in old(stuckCounts) && Abs(value - lasts[tag]) < config.stuckThreshold
                       then old(stuckCounts)[tag] + 1 else 0
      ensures stuckCounts == old(stuckCounts)[tag := stuck]
    {
      stuck := 0;
      if tag in stuckCounts && Abs(value - lasts[tag]) < config.stuckThreshold { stuck := stuckCounts[tag] + 1; }
      stuckCounts := stuckCounts[tag := stuck];
    }

    /** The three tests that look at single values: moving average, rate of change, stuck. */
    method PushValue(tag: Tag, value: real) returns (ewma: real, roc: real, rocAnomaly: bool, stuck: int)
      modifies this`ewmas, this`rocHistory, this`lasts, this`stuckCounts
      ensures ewma == NextEwma(config, old(StateOf(tag)).ewma, value) && stuck == NextStuck(config, old(StateOf(tag)), value)
      ensures var last, rocs := old(StateOf(tag)).last, old(StateOf(tag)).rocs;
              roc == RocOf(last, value) && rocAnomaly == RocFires(config, last, NextRocs(config, last, rocs, value))
      ensures ewmas == old(ewmas)[tag := ewma] && lasts == old(lasts)[tag := value] && stuckCounts == old(stuckCounts)[tag := stuck]
      ensures rocHistory == HistoriesAfter(config, old(rocHistory), old(StateOf(tag)), tag, value)
    {
      ewma := PushEwma(tag, value);
      roc, rocAnomaly := PushRoc(tag, value);
      stuck := PushStuck(tag, value);
    }

    /** One reading: its report, and the new state of the tag; every other entry of every dictionary is kept. */
    method Update(tag: Tag, value: real) returns (r: Reading)
      requires IsRoot(root)
      modifies this
      ensures StateOf(tag) == Next(config, old(StateOf(tag)), value)
      ensures r == ReadingOf(config, old(StateOf(tag)), value, root)
      ensures windows == old(windows)[tag := StateOf(tag).window]
      ensures ewmas == old(ewmas)[tag := StateOf(tag).ewma.value]
      ensures lasts == old(lasts)[tag := value]
      ensures stuckCounts == old(stuckCounts)[tag := StateOf(tag).stuck.value]
      ensures rocHistory == HistoriesAfter(config, old(rocHistory), old(StateOf(tag)), tag, value)
    {
      var window := PushWindow(tag, value);
      var zScore, zAnomaly := TestWindow(window, value);
      var ewma, roc, rocAnomaly, stuck := PushValue(tag, value);
      r := Report(config, value, |window|, zScore, zAnomaly, ewma, roc, rocAnomaly, stuck);
    }
  }

  /** The rate history of a tag is begun at its second value. */
  function HistoriesAfter(c: Config, before: map<Tag, seq<real>>, s: TagState, tag: Tag, value: real): map<Tag, seq<real>> {
    if s.last.None? then before else before[tag := NextRocs(c, s.last, s.rocs, value)]
  }

  function SeqOf(m: map<Tag, seq<real>>, tag: Tag): seq<real> {
    if tag in m then m[tag] else []
  }

  function GetCount(m: map<Tag, int>, tag: Tag): Option<int> {
    if tag in m then Some(m[tag]) else None
  }

  function Get(m: map<Tag, real>, tag: Tag): Option<real> {
    if tag in m then Some(m[tag]) else None
  }

  // ---------- The z test ----------

  /** In any window the newest value is at most the square root of n - 1 deviations from the mean. */
  lemma NewestDeviationBound(xs: seq<real>)
    requires xs != []
    ensures var d := xs[|xs| - 1] - Mean(xs);
            d * d <= ((|xs| - 1) as real) * Variance(xs)
  {
    var n := |xs|;
    var d := Deviations(xs);
    DeviationsSumToZero(xs);
    LastOfZeroSum(d);
    assert d[n - 1] == xs[n - 1] - Mean(xs);
    var ss, last := Dot(d, d), d[n - 1] * d[n - 1];
    assert (n as real) * last <= ((n - 1) as real) * ss;
    DivideBy(last, (n - 1) as real, ss, n as real);
  }

  lemma DivideBy(last: real, k: real, ss: real, n: real)
    requires n > 0.0 && n * last <= k * ss
    ensures last <= k * (ss / n)
  {
    assert k * (ss / n) == (k * ss) / n;
  }

  /** The z test can fire on the newest value only in a window of more than 1 + threshold squared
      values: with the default threshold of 3 never before the eleventh. */
  lemma ZNeedsLargeWindow(threshold: real, xs: seq<real>, root: real -> real)
    requires xs != [] && IsRoot(root) && threshold >= 0.0
    requires ZFires(threshold, xs, xs[|xs| - 1], root)
    ensures ((|xs| - 1) as real) > threshold * threshold
    ensures threshold == 3.0 ==> |xs| >= 11
  {
    var d, s, v := xs[|xs| - 1] - Mean(xs), Spread(xs, root), Variance(xs);
    var k, t2 := (|xs| - 1) as real, threshold * threshold;
    NewestDeviationBound(xs);
    QuotientAbove(d, s, threshold);
    SquareNonNegative(threshold);
    SquareNonNegative(s);
    Monotone(0.0, t2, s * s);
    assert d * d > 0.0;
    if v > 0.0 { FewerThan(t2, k, v, d * d); } else { Product(k, v); }
  }

  lemma QuotientAbove(d: real, s: real, t: real)
    requires s > 0.0 && t >= 0.0 && Abs(d / s) > t
    ensures d * d > (t * t) * (s * s)
  {
    var a, b := Abs(d), t * s;
    assert Abs(d / s) == a / s;
    assert a > b by { assert (a / s) * s == a; Scale(t, a / s, s); }
    assert a * a == d * d;
    assert b >= 0.0;
    SquareGrows(b, a);
    assert b * b == (t * t) * (s * s);
  }

  lemma Product(k: real, v: real)
    requires k >= 0.0 && v <= 0.0
    ensures k * v <= 0.0
  {
    Monotone(v, 0.0, k);
  }

  lemma FewerThan(t2: real, k: real, v: real, d2: real)
    requires v > 0.0 && d2 <= k * v && d2 > t2 * v
    ensures k > t2
  {
    if k <= t2 { Monotone(k, t2, v); }
  }

  function Repeat(n: nat, base: real): (xs: seq<real>)
    ensures |xs| == n
  {
    if n == 0 then [] else Repeat(n - 1, base) + [base]
  }

  lemma {:induction false} RepeatSum(n: nat, base: real)
    ensures Sum(Repeat(n, base)) == (n as real) * base
  {
    if n > 0 {
      RepeatSum(n - 1, base);
      assert Repeat(n, base)[..n - 1] == Repeat(n - 1, base);
      OneMore(n - 1, base);
    }
  }

  lemma {:induction false} RepeatMinus(n: nat, base: real, m: real)
    ensures Minus(Repeat(n, base), m) == Repeat(n, base - m)
  {
    if n > 0 {
      RepeatMinus(n - 1, base, m);
      assert Repeat(n, base)[..n - 1] == Repeat(n - 1, base);
    }
  }

  /** x added up n times. */
  function Times(n: nat, x: real): real { if n == 0 then 0.0 else Times(n - 1, x) + x }

  lemma {:induction false} TimesIsProduct(n: nat, x: real, k: real, product: real)
    requires k == n as real && product == k * x
    ensures Times(n, x) == product
  {
    if n > 0 {
      OneLess(k, x, product);
      TimesIsProduct(n - 1, x, k - 1.0, product - x);
    }
  }

  lemma {:induction false} RepeatDot(n: nat, e: real, square: real)
    requires square == e * e
    ensures Dot(Repeat(n, e), Repeat(n, e)) == Times(n, square)
  {
    if n > 0 {
      RepeatDot(n - 1, e, square);
      assert Repeat(n, e)[..n - 1] == Repeat(n - 1, e);
    }
  }

  lemma {:induction false} AppendSums(xs: seq<real>, x: real, m: real)
    ensures Sum(xs + [x]) == Sum(xs) + x
    ensures Minus(xs + [x], m) == Minus(xs, m) + [x - m]
    ensures Dot(xs + [x], xs + [x]) == Dot(xs, xs) + x * x
  {
    assert (xs + [x])[..|xs|] == xs;
  }

  lemma {:induction false} AppendSquares(same: seq<real>, spike: real, m: real)
    ensures Dot(Minus(same + [spike], m), Minus(same + [spike], m)) ==
            Dot(Minus(same, m), Minus(same, m)) + (spike - m) * (spike - m)
  {
    AppendSums(same, spike, m);
    AppendSums(Minus(same, m), spike - m, m);
  }

  lemma VarianceTimesCount(xs: seq<real>, n: real)
    requires xs != [] && n == |xs| as real
    ensures Variance(xs) * n == Dot(Deviations(xs), Deviations(xs))
  {
    Undivided(Dot(Deviations(xs), Deviations(xs)), n, Variance(xs));
  }

  lemma {:induction false} RepeatDeviations(n: nat, base: real, m: real, square: real)
    requires square == (base - m) * (base - m)
    ensures Dot(Minus(Repeat(n, base), m), Minus(Repeat(n, base), m)) == Times(n, square)
  {
    RepeatMinus(n, base, m);
    RepeatDot(n, base - m, square);
  }

  lemma {:induction false} SpikeMean(n: nat, k: real, base: real, spike: real, m: real)
    requires k == n as real && m == Mean(Repeat(n, base) + [spike])
    ensures m * (k + 1.0) == k * base + spike
  {
    RepeatSum(n, base);
    AppendSums(Repeat(n, base), spike, m);
    MeanTimesCount(Repeat(n, base) + [spike], k + 1.0);
  }

  lemma {:induction false} SpikeSquares(n: nat, base: real, spike: real, m: real, square: real, last: real)
    requires square == (base - m) * (base - m) && last == (spike - m) * (spike - m)
    ensures Dot(Minus(Repeat(n, base) + [spike], m), Minus(Repeat(n, base) + [spike], m)) == Times(n, square) + last
  {
    RepeatDeviations(n, base, m, square);
    AppendSquares(Repeat(n, base), spike, m);
  }

  /** The mean, the variance and the sum of squared deviations of a list of n values. */
  lemma Moments(xs: seq<real>, n: real) returns (m: real, v: real, ss: real)
    requires xs != [] && n == |xs| as real
    ensures m == Mean(xs) && v == Variance(xs) && ss == Dot(Minus(xs, m), Minus(xs, m))
    ensures m * n == Sum(xs) && v * n == ss
  {
    m, v := Mean(xs), Variance(xs);
    ss := Dot(Deviations(xs), Deviations(xs));
    MeanTimesCount(xs, n);
    VarianceTimesCount(xs, n);
  }

  lemma SpikeMoments(n: nat, k: real, base: real, spike: real) returns (m: real, v: real)
    requires n >= 1 && k == n as real
    ensures m == Mean(Repeat(n, base) + [spike]) && v == Variance(Repeat(n, base) + [spike])
    ensures m * (k + 1.0) == k * base + spike
    ensures v * (k + 1.0) == k * ((base - m) * (base - m)) + (spike - m) * (spike - m)
  {
    var ss;
    m, v, ss := Moments(Repeat(n, base) + [spike], k + 1.0);
    SpikeMean(n, k, base, spike, m);
    var square, last := (base - m) * (base - m), (spike - m) * (spike - m);
    SpikeSquares(n, base, spike, m, square, last);
    TimesIsProduct(n, square, k, k * square);
  }

  /** The bound is attained: after n equal values, any other value lies exactly the square root of n
      deviations from the mean. */
  lemma {:induction false} SpikeAttainsBound(n: nat, base: real, spike: real)
    requires n >= 1
    ensures var xs := Repeat(n, base) + [spike];
            var d := spike - Mean(xs);
            d * d == (n as real) * Variance(xs) && (spike != base ==> Variance(xs) > 0.0)
  {
    var k := n as real;
    var m, v := SpikeMoments(n, k, base, spike);
    SpikeArithmetic(k, base, spike, m, v);
  }

  lemma SpikeArithmetic(k: real, base: real, spike: real, m: real, v: real)
    requires k >= 1.0 && m * (k + 1.0) == k * base + spike
    requires v * (k + 1.0) == k * ((base - m) * (base - m)) + (spike - m) * (spike - m)
    ensures (spike - m) * (spike - m) == k * v
    ensures spike != base ==> v > 0.0
  {
    var e := m - base;
    assert spike - m == k * e by { assert m * (k + 1.0) == k * m + m; assert k * e == k * m - k * base; }
    assert (base - m) * (base - m) == e * e;
    assert (k * e) * (k * e) == k * (k * (e * e));
    var q := k * (e * e);
    assert v * (k + 1.0) == q + k * q;
    assert v == q by { SameFactor(v, q, k + 1.0); }
    if spike != base {
      assert e != 0.0;
      SameSign(e, e, e * e);
      SameSign(k, e * e, q);
    }
  }

  // ---------- The moving average ----------

  /** The state of a tag after a list of values. */
  function After(c: Config, values: seq<real>): TagState {
    if values == [] then FRESH else Next(c, After(c, values[..|values| - 1]), values[|values| - 1])
  }

  lemma Between(p: real, x: real, y: real, lo: real, hi: real)
    requires 0.0 <= p <= 1.0 && lo <= x <= hi && lo <= y <= hi
    ensures lo <= p * x + (1.0 - p) * y <= hi
  {
    NonNegative(x - lo, p, (x - lo) * p);
    NonNegative(y - lo, 1.0 - p, (y - lo) * (1.0 - p));
    NonNegative(hi - x, p, (hi - x) * p);
    NonNegative(hi - y, 1.0 - p, (hi - y) * (1.0 - p));
    Centred(p, x, y, lo);
    Centred(p, x, y, hi);
  }

  lemma Centred(p: real, x: real, y: real, c: real)
    ensures p * x + (1.0 - p) * y - c == (x - c) * p + (y - c) * (1.0 - p)
    ensures c - (p * x + (1.0 - p) * y) == (c - x) * p + (c - y) * (1.0 - p)
  {
  }

  /** With a smoothing factor between 0 and 1 the average stays between the smallest and the
      largest value ever seen. */
  lemma {:induction false} EwmaStaysInRange(c: Config, values: seq<real>, lo: real, hi: real)
    requires 0.0 <= c.alpha <= 1.0 && values != []
    requires forall i | 0 <= i < |values| :: lo <= values[i] <= hi
    ensures After(c, values).ewma.Some? && lo <= After(c, values).ewma.value <= hi
  {
    var n := |values| - 1;
    if n > 0 {
      EwmaStaysInRange(c, values[..n], lo, hi);
      Between(c.alpha, values[n], After(c, values[..n]).ewma.value, lo, hi);
    }
  }

  /** The window holds exactly the newest values. */
  lemma {:induction false} WindowIsNewest(c: Config, values: seq<real>)
    ensures After(c, values).window == Bounded(values, c.windowSize)
  {
    if values != [] { WindowIsNewest(c, values[..|values| - 1]); }
  }

  /** The z test never fires on the first ten values of a tag, nor ever in a window of ten. */
  lemma {:induction false} ZNeedsElevenValues(c: Config, values: seq<real>, root: real -> real)
    requires values != [] && IsRoot(root) && c.zThreshold == 3.0
    requires ReadingOf(c, After(c, values[..|values| - 1]), values[|values| - 1], root).zAnomaly
    ensures |values| >= 11 && c.windowSize >= 11
  {
    var n := |values| - 1;
    var window := After(c, values).window;
    WindowIsNewest(c, values);
    assert window[|window| - 1] == values[n];
    ZNeedsLargeWindow(c.zThreshold, window, root);
  }

  /** The stuck counter does not look at the values: it counts the updates, or stays at zero when
      the threshold is not positive. */
  lemma {:induction false} StuckCountsUpdates(c: Config, values: seq<real>)
    requires values != []
    ensures After(c, values).stuck == Some(if c.stuckThreshold > 0.0 then |values| - 1 else 0)
  {
    if |values| > 1 { StuckCountsUpdates(c, values[..|values| - 1]); }
  }
}
