/** The string operations the services rely on: strip, ordering by code point,
    and the sorted list of distinct elements that Python's `sorted(set)` gives. */
module Text {

  /** The characters removed by Python's `str.strip`. */
  predicate IsSpace(c: char) {
    var n := c as int;
    9 <= n <= 13 || 28 <= n <= 32 || n == 0x85 || n == 0xA0 || n == 0x1680 || 0x2000 <= n <= 0x200A ||
    n == 0x2028 || n == 0x2029 || n == 0x202F || n == 0x205F || n == 0x3000
  }

  function Strip(s: string): string {
    if s == "" then ""
    else if IsSpace(s[0]) then Strip(s[1..])
    else if IsSpace(s[|s| - 1]) then Strip(s[..|s| - 1])
    else s
  }

  /** What is stripped is blank, and what is left has no blank at either end. */
  lemma {:induction false} StripTrims(s: string) returns (from: nat, upTo: nat)
    ensures from <= upTo <= |s| && Strip(s) == s[from..upTo]
    ensures forall k | 0 <= k < |s| && !(from <= k < upTo) :: IsSpace(s[k])
    ensures Strip(s) != "" ==> !IsSpace(s[from]) && !IsSpace(s[upTo - 1])
  {
    if s == "" {
      from, upTo := 0, 0;
    } else if IsSpace(s[0]) {
      from, upTo := StripTrims(s[1..]);
      assert s[1..][from..upTo] == s[from + 1..upTo + 1];
      forall k | 0 <= k < |s| && !(from + 1 <= k < upTo + 1) ensures IsSpace(s[k]) {
        if k > 0 { assert s[k] == s[1..][k - 1]; }
      }
      from, upTo := from + 1, upTo + 1;
    } else if IsSpace(s[|s| - 1]) {
      from, upTo := StripTrims(s[..|s| - 1]);
      assert s[..|s| - 1][from..upTo] == s[from..upTo];
      forall k | 0 <= k < |s| && !(from <= k < upTo) ensures IsSpace(s[k]) {
        if k < |s| - 1 { assert s[k] == s[..|s| - 1][k]; }
      }
    } else {
      from, upTo := 0, |s|;
    }
  }

  /** Lexicographic order by code point, the order of Python strings. */
  predicate Less(a: string, b: string) {
    b != "" && (a == "" || a[0] < b[0] || (a[0] == b[0] && Less(a[1..], b[1..])))
  }

  /** The first difference decides, or the shorter string if there is none. */
  lemma {:induction false} LessByFirstDifference(a: string, b: string, k: nat)
    requires k <= |a| && k <= |b| && a[..k] == b[..k]
    ensures k == |a| < |b| ==> Less(a, b)
    ensures k == |b| ==> !Less(a, b)
    ensures k < |a| && k < |b| && a[k] != b[k] ==> (Less(a, b) <==> a[k] < b[k])
  {
    if k > 0 {
      assert a[0] == a[..k][0] == b[..k][0] == b[0];
      assert a[1..][..k - 1] == a[..k][1..] == b[..k][1..] == b[1..][..k - 1];
      LessByFirstDifference(a[1..], b[1..], k - 1);
    }
  }

  lemma {:induction false} LessIsTransitive(a: string, b: string, c: string)
    requires Less(a, b) && Less(b, c)
    ensures Less(a, c)
  {
    if a != "" && a[0] == b[0] == c[0] {
      LessIsTransitive(a[1..], b[1..], c[1..]);
    }
  }

  lemma {:induction false} LessIsTotal(a: string, b: string)
    ensures a == b || Less(a, b) || Less(b, a)
  {
    if a != "" && b != "" && a[0] == b[0] {
      LessIsTotal(a[1..], b[1..]);
      assert a == [a[0]] + a[1..] && b == [b[0]] + b[1..];
    }
  }

  lemma {:induction false} LessIsIrreflexive(a: string)
    ensures !Less(a, a)
  {
    if a != "" { LessIsIrreflexive(a[1..]); }
  }

  /** Python compares tuples of strings component by component. */
  predicate PairLess(a: (string, string), b: (string, string)) {
    Less(a.0, b.0) || (a.0 == b.0 && Less(a.1, b.1))
  }

  ghost predicate NoDuplicates<T>(xs: seq<T>) {
    forall i, j | 0 <= i < j < |xs| :: xs[i] != xs[j]
  }

  ghost predicate Increasing<T>(xs: seq<T>, less: (T, T) -> bool) {
    forall i, j | 0 <= i < j < |xs| :: less(xs[i], xs[j])
  }

  ghost predicate StrictOrder<T(!new)>(less: (T, T) -> bool) {
    && (forall a: T :: !less(a, a))
    && (forall a: T, b: T, c: T | less(a, b) && less(b, c) :: less(a, c))
    && (forall a: T, b: T :: a == b || less(a, b) || less(b, a))
  }

  lemma LessIsStrictOrder()
    ensures StrictOrder(Less)
  {
    forall a: string ensures !Less(a, a) { LessIsIrreflexive(a); }
    forall a: string, b: string, c: string | Less(a, b) && Less(b, c) ensures Less(a, c) { LessIsTransitive(a, b, c); }
    forall a: string, b: string ensures a == b || Less(a, b) || Less(b, a) { LessIsTotal(a, b); }
  }

  lemma PairLessIsStrictOrder()
    ensures StrictOrder(PairLess)
  {
    LessIsStrictOrder();
  }

  function InsertDistinct<T(==)>(x: T, xs: seq<T>, less: (T, T) -> bool): seq<T> {
    if xs == [] then [x]
    else if x == xs[0] then xs
    else if less(x, xs[0]) then [x] + xs
    else [xs[0]] + InsertDistinct(x, xs[1..], less)
  }

  /** The distinct elements of xs in increasing order. */
  function SortDistinct<T(==)>(xs: seq<T>, less: (T, T) -> bool): seq<T> {
    if xs == [] then [] else InsertDistinct(xs[0], SortDistinct(xs[1..], less), less)
  }

  lemma {:induction false} InsertDistinctElements<T>(x: T, xs: seq<T>, less: (T, T) -> bool)
    ensures forall e :: e in InsertDistinct(x, xs, less) <==> e == x || e in xs
  {
    if xs != [] && x != xs[0] && !less(x, xs[0]) {
      InsertDistinctElements(x, xs[1..], less);
      assert xs == [xs[0]] + xs[1..];
    }
  }

  lemma {:induction false} InsertDistinctIncreasing<T(!new)>(x: T, xs: seq<T>, less: (T, T) -> bool)
    requires StrictOrder(less) && Increasing(xs, less)
    ensures Increasing(InsertDistinct(x, xs, less), less)
  {
    if xs != [] && x != xs[0] && !less(x, xs[0]) {
      InsertDistinctIncreasing(x, xs[1..], less);
      InsertDistinctElements(x, xs[1..], less);
      var rest := InsertDistinct(x, xs[1..], less);
      forall e | e in rest ensures less(xs[0], e) {}
    } else if xs != [] && less(x, xs[0]) {
      forall e | e in xs ensures less(x, e) {}
    }
  }

  /** `sorted(set(xs))`: the same elements, each once, in increasing order. */
  lemma {:induction false} SortDistinctSorts<T(!new)>(xs: seq<T>, less: (T, T) -> bool)
    requires StrictOrder(less)
    ensures Increasing(SortDistinct(xs, less), less)
    ensures NoDuplicates(SortDistinct(xs, less))
    ensures forall e :: e in SortDistinct(xs, less) <==> e in xs
  {
    if xs != [] {
      SortDistinctSorts(xs[1..], less);
      InsertDistinctElements(xs[0], SortDistinct(xs[1..], less), less);
      InsertDistinctIncreasing(xs[0], SortDistinct(xs[1..], less), less);
      assert xs == [xs[0]] + xs[1..];
    }
  }
}
