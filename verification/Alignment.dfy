/** Nearest-record lookup: the linear scan and the binary search that replaces it.
    Records are named by their position in the channel; times are milliseconds. */
module Alignment {
  import opened Common

  function Distance(a: int, b: int): nat { if a < b then b - a else a - b }

  ghost predicate Ascending(ts: seq<int>) {
    forall i, j | 0 <= i < j < |ts| :: ts[i] <= ts[j]
  }

  ghost predicate StrictlyAscending(ts: seq<int>) {
    forall i, j | 0 <= i < j < |ts| :: ts[i] < ts[j]
  }

  /** r is the first of the closest parseable stamps within the skew, or None when there is none. */
  ghost predicate IsFirstNearest(stamps: seq<Option<int>>, target: int, skew: int, r: Option<nat>) {
    match r
    case None =>
      forall i | 0 <= i < |stamps| && stamps[i].Some? :: Distance(stamps[i].value, target) > skew
    case Some(i) =>
      && i < |stamps| && stamps[i].Some?
      && Distance(stamps[i].value, target) <= skew
      && (forall j | 0 <= j < |stamps| && stamps[j].Some? ::
            Distance(stamps[i].value, target) <= Distance(stamps[j].value, target))
      && (forall j | 0 <= j < i && stamps[j].Some? ::
            Distance(stamps[i].value, target) < Distance(stamps[j].value, target))
  }

  /** The linear scan, keeping the best record so far and skipping unparseable stamps. */
  method Nearest(stamps: seq<Option<int>>, target: int, skew: int) returns (best: Option<nat>)
    ensures IsFirstNearest(stamps, target, skew, best)
  {
    best := None;
    for i := 0 to |stamps|
      invariant best.Some? ==> best.value < i
      invariant IsFirstNearest(stamps[..i], target, skew, best)
    {
      if stamps[i].Some? {
        var distance := Distance(stamps[i].value, target);
        if distance <= skew && (best.None? || distance < Distance(stamps[best.value].value, target)) {
          best := Some(i);
        }
      }
    }
    assert stamps[..|stamps|] == stamps;
  }

  /** What bisect_left returns on any list, ascending or not. */
  function Bisect(a: seq<int>, x: int, lo: nat, hi: nat): (r: nat)
    requires lo <= hi <= |a|
    ensures lo <= r <= hi
    decreases hi - lo
  {
    if lo == hi then lo
    else
      var mid := (lo + hi) / 2;
      if a[mid] < x then Bisect(a, x, mid + 1, hi) else Bisect(a, x, lo, mid)
  }

  method BisectLeft(a: seq<int>, x: int) returns (lo: nat)
    ensures lo == Bisect(a, x, 0, |a|)
  {
    lo := 0;
    var hi := |a|;
    while lo < hi
      invariant lo <= hi <= |a|
      invariant Bisect(a, x, lo, hi) == Bisect(a, x, 0, |a|)
    {
      var mid := (lo + hi) / 2;
      if a[mid] < x { lo := mid + 1; } else { hi := mid; }
    }
  }

  /** On an ascending list the insertion point separates the smaller stamps from the others. */
  lemma {:induction false} BisectSeparates(a: seq<int>, x: int, lo: nat, hi: nat)
    requires lo <= hi <= |a| && Ascending(a)
    requires forall i | 0 <= i < lo :: a[i] < x
    requires forall i | hi <= i < |a| :: x <= a[i]
    ensures forall i | 0 <= i < Bisect(a, x, lo, hi) :: a[i] < x
    ensures forall i | Bisect(a, x, lo, hi) <= i < |a| :: x <= a[i]
    decreases hi - lo
  {
    if lo < hi {
      var mid := (lo + hi) / 2;
      if a[mid] < x { BisectSeparates(a, x, mid + 1, hi); } else { BisectSeparates(a, x, lo, mid); }
    }
  }

  /** Of the two neighbours of the insertion point, the closer; the left one on a tie. */
  function Lookup(ts: seq<int>, target: int, skew: int): Option<nat> {
    if |ts| == 0 then None
    else
      var index := Bisect(ts, target, 0, |ts|);
      var selected :=
        if index == |ts| then index - 1
        else if index == 0 then 0
        else if Distance(ts[index - 1], target) <= Distance(ts[index], target) then index - 1
        else index;
      if Distance(ts[selected], target) <= skew then Some(selected) else None
  }

  method NearestSorted(ts: seq<int>, target: int, skew: int) returns (found: Option<nat>)
    ensures found == Lookup(ts, target, skew)
  {
    if |ts| == 0 { return None; }
    var index := BisectLeft(ts, target);
    var candidates: seq<(int, nat)> := [];
    if index < |ts| { candidates := candidates + [(Distance(ts[index], target), index)]; }
    if index != 0 { candidates := candidates + [(Distance(ts[index - 1], target), index - 1)]; }
    var best := candidates[0];
    for k := 1 to |candidates|
      invariant k == 1 ==> best == candidates[0]
      invariant k == 2 ==> best == if candidates[1].0 < candidates[0].0 ||
                                      (candidates[1].0 == candidates[0].0 && candidates[1].1 < candidates[0].1)
                                   then candidates[1] else candidates[0]
    {
      if candidates[k].0 < best.0 || (candidates[k].0 == best.0 && candidates[k].1 < best.1) { best := candidates[k]; }
    }
    return if best.0 <= skew then Some(best.1) else None;
  }

  /** On an ascending channel the lookup finds a closest stamp, and finds nothing only
      when every stamp is out of skew. */
  lemma LookupIsNearest(ts: seq<int>, target: int, skew: int)
    requires Ascending(ts)
    ensures match Lookup(ts, target, skew)
            case None => forall j | 0 <= j < |ts| :: Distance(ts[j], target) > skew
            case Some(i) =>
              && i < |ts| && Distance(ts[i], target) <= skew
              && (forall j | 0 <= j < |ts| :: Distance(ts[i], target) <= Distance(ts[j], target))
              && (forall j | 0 <= j < |ts| && Distance(ts[j], target) == Distance(ts[i], target) :: ts[i] <= ts[j])
              && (target <= ts[i] ==> forall j | 0 <= j < i :: ts[j] < ts[i])
              && (ts[i] < target ==> forall j | i < j < |ts| :: ts[i] < ts[j])
  {
    BisectSeparates(ts, target, 0, |ts|);
  }

  /** Stamps i and i + 1 are equal, closest to the target, before it and within the skew: the one case
      in which the two searches pick different records. */
  predicate RepeatsBefore(ts: seq<int>, target: int, skew: int, i: nat)
    requires i + 1 < |ts|
  {
    && ts[i] == ts[i + 1] < target
    && target - ts[i] <= skew
    && (i + 2 == |ts| || (target <= ts[i + 2] && target - ts[i] <= ts[i + 2] - target))
  }

  function Stamps(ts: seq<int>): (stamps: seq<Option<int>>)
    ensures |stamps| == |ts| && forall i | 0 <= i < |ts| :: stamps[i] == Some(ts[i])
  {
    seq(|ts|, i requires 0 <= i < |ts| => Some(ts[i]))
  }

  /** Lookup and linear scan find nothing together, otherwise the same stamp. */
  lemma LookupAgreesWithScan(ts: seq<int>, target: int, skew: int, scan: Option<nat>)
    requires Ascending(ts) && IsFirstNearest(Stamps(ts), target, skew, scan)
    ensures Lookup(ts, target, skew).None? <==> scan.None?
    ensures scan.Some? ==> scan.value < |ts| && ts[Lookup(ts, target, skew).value] == ts[scan.value]
  {
    LookupIsNearest(ts, target, skew);
    var stamps, found := Stamps(ts), Lookup(ts, target, skew);
    if scan.Some? && found.Some? {
      assert Distance(stamps[scan.value].value, target) <= Distance(stamps[found.value].value, target);
      assert ts[scan.value] <= ts[found.value] <= ts[scan.value];
    }
  }

  /** They find the same record exactly when the closest stamp is not repeated before the target. */
  lemma LookupRefinesScan(ts: seq<int>, target: int, skew: int, scan: Option<nat>)
    requires Ascending(ts) && IsFirstNearest(Stamps(ts), target, skew, scan)
    ensures Lookup(ts, target, skew) == scan <==> !exists i :: 0 <= i < |ts| - 1 && RepeatsBefore(ts, target, skew, i)
  {
    LookupAgreesWithScan(ts, target, skew, scan);
    LookupIsNearest(ts, target, skew);
    var stamps, found := Stamps(ts), Lookup(ts, target, skew);
    if found != scan {
      assert RepeatsBefore(ts, target, skew, found.value - 1);
    }
    forall i | 0 <= i < |ts| - 1 && RepeatsBefore(ts, target, skew, i)
      ensures found == Some(i + 1) && scan != Some(i + 1)
    {
      assert stamps[i].value == stamps[i + 1].value;
    }
  }

  /** With two equal stamps before the target the scan keeps the first and the lookup the last. */
  lemma DuplicateStampsDisagree()
    ensures Ascending([5, 5]) && IsFirstNearest([Some(5), Some(5)], 6, 1, Some(0))
    ensures Lookup([5, 5], 6, 1) == Some(1)
  {
    assert Bisect([5, 5], 6, 0, 2) == 2;
  }

  // ---------- Lists that are not sorted ----------

  /** The search for the stamp of position i ends next to i. */
  predicate EndsAt(a: seq<int>, i: nat, lo: nat, hi: nat)
    requires i < |a| && lo <= hi <= |a|
  {
    Bisect(a, a[i], lo, hi) == i || Bisect(a, a[i], lo, hi) == i + 1
  }

  /** If the search ends next to every position of an interval, the interval is ascending. */
  lemma {:induction false} FoundMeansAscending(a: seq<int>, lo: nat, hi: nat)
    requires lo <= hi <= |a| && forall i | lo <= i < hi :: EndsAt(a, i, lo, hi)
    ensures forall i, j | lo <= i < j < hi :: a[i] <= a[j]
    decreases hi - lo
  {
    if lo < hi {
      var mid := (lo + hi) / 2;
      forall i | lo <= i < mid
        ensures a[i] <= a[mid] && EndsAt(a, i, lo, mid)
      {
        assert EndsAt(a, i, lo, hi);
      }
      forall i | mid < i < hi
        ensures a[mid] < a[i] && EndsAt(a, i, mid + 1, hi)
      {
        assert EndsAt(a, i, lo, hi);
      }
      FoundMeansAscending(a, lo, mid);
      FoundMeansAscending(a, mid + 1, hi);
    }
  }

  predicate FindsItself(ts: seq<int>, i: nat)
    requires i < |ts|
  {
    Lookup(ts, ts[i], 0) == Some(i)
  }

  /** On a list in whatever order, the lookup finds every record by its own stamp exactly when the stamps
      strictly ascend. */
  lemma EachFoundIffStrictlyAscending(ts: seq<int>)
    ensures (forall i | 0 <= i < |ts| :: FindsItself(ts, i)) <==> StrictlyAscending(ts)
  {
    if forall i | 0 <= i < |ts| :: FindsItself(ts, i) {
      forall i | 0 <= i < |ts| ensures EndsAt(ts, i, 0, |ts|) { assert FindsItself(ts, i); }
      FoundMeansAscending(ts, 0, |ts|);
      forall i, j | 0 <= i < j < |ts| ensures ts[i] < ts[j] { assert FindsItself(ts, i) && FindsItself(ts, j); }
    }
    if StrictlyAscending(ts) {
      forall i | 0 <= i < |ts| ensures FindsItself(ts, i) { LookupIsNearest(ts, ts[i], 0); }
    }
  }

  ghost predicate FindsNearest(ts: seq<int>, target: int, skew: int) {
    match Lookup(ts, target, skew)
    case None => forall j | 0 <= j < |ts| :: Distance(ts[j], target) > skew
    case Some(i) => i < |ts| && forall j | 0 <= j < |ts| :: Distance(ts[i], target) <= Distance(ts[j], target)
  }

  ghost predicate PairwiseDistinct(ts: seq<int>) {
    forall i, j | 0 <= i < j < |ts| :: ts[i] != ts[j]
  }

  /** For distinct stamps in whatever order, the lookup is right about every target and skew exactly when
      the list is sorted. */
  lemma NearestFoundIffAscending(ts: seq<int>)
    requires PairwiseDistinct(ts)
    ensures (forall target, skew :: FindsNearest(ts, target, skew)) <==> Ascending(ts)
  {
    if Ascending(ts) {
      forall target, skew ensures FindsNearest(ts, target, skew) { LookupIsNearest(ts, target, skew); }
    }
    if forall target, skew :: FindsNearest(ts, target, skew) {
      forall i | 0 <= i < |ts| ensures FindsItself(ts, i) {
        assert FindsNearest(ts, ts[i], 0);
        assert Distance(ts[i], ts[i]) == 0;
      }
      EachFoundIffStrictlyAscending(ts);
    }
  }

  /** Distinctness matters: an unsorted list with repeated stamps can be searched rightly. */
  lemma RepeatedStampsCanHide(target: int, skew: int)
    ensures !Ascending([0, 1, 0, 1]) && FindsNearest([0, 1, 0, 1], target, skew)
  {
    var ts := [0, 1, 0, 1];
    assert ts[1] > ts[2];
    assert Bisect(ts, target, 0, 4) == (if target <= 0 then 0 else if target <= 1 then 3 else 4);
  }

  /** Action and outcome stamps are never sorted; on such a list the lookup can miss an exact match. */
  lemma UnsortedStampsMissed()
    ensures IsFirstNearest([Some(20), Some(0)], 20, 1, Some(0))
    ensures Lookup([20, 0], 20, 1) == None
  {
    assert Bisect([20, 0], 20, 0, 2) == Bisect([20, 0], 20, 2, 2) == 2;
  }

  /** On any list, sorted or not, a record that is found is within the skew. */
  lemma LookupWithinSkew(ts: seq<int>, target: int, skew: int)
    ensures Lookup(ts, target, skew).Some? ==>
              var i := Lookup(ts, target, skew).value;
              i < |ts| && Distance(ts[i], target) <= skew
  {
  }

  /** The number of multiples of `interval`, from 0 on, that do not exceed `span`. */
  function Points(span: nat, interval: int): (n: nat)
    requires interval > 0
    ensures n > 0
  {
    if span < interval then 1 else 1 + Points(span - interval, interval)
  }

  lemma {:induction false} PointsCount(span: nat, interval: int, k: nat)
    requires interval > 0
    ensures k * interval <= span <==> k < Points(span, interval)
  {
    if k > 0 {
      Product(k - 1, interval);
      if span >= interval { PointsCount(span - interval, interval, k - 1); }
    }
  }

  lemma Product(k: nat, d: int)
    requires d > 0
    ensures (k + 1) * d == k * d + d >= d
  {
  }
}
