/** Concatenation of groups and the position of each group's elements in it. */
module Flattening {

  function Flatten<T>(groups: seq<seq<T>>): seq<T> {
    if groups == [] then [] else Flatten(groups[..|groups| - 1]) + groups[|groups| - 1]
  }

  /** Where group g starts in the concatenation. */
  function Offset<T>(groups: seq<seq<T>>, g: nat): nat
    requires g <= |groups|
  {
    |Flatten(groups[..g])|
  }

  /** Group g occupies its own consecutive positions. */
  lemma {:induction false} GroupAt<T>(groups: seq<seq<T>>, g: nat)
    requires g < |groups|
    ensures Offset(groups, g + 1) == Offset(groups, g) + |groups[g]| <= |Flatten(groups)|
    ensures forall k | 0 <= k < |groups[g]| :: Flatten(groups)[Offset(groups, g) + k] == groups[g][k]
  {
    var n := |groups| - 1;
    assert groups[..g + 1][..g] == groups[..g];
    if g < n {
      GroupAt(groups[..n], g);
      assert groups[..n][..g] == groups[..g] && groups[..n][..g + 1] == groups[..g + 1];
    } else {
      assert groups[..g + 1] == groups;
    }
  }

  lemma {:induction false} ElementAt<T>(groups: seq<seq<T>>, g: nat, k: nat)
    requires g < |groups| && k < |groups[g]|
    ensures Offset(groups, g) + k < |Flatten(groups)| && Flatten(groups)[Offset(groups, g) + k] == groups[g][k]
  {
    GroupAt(groups, g);
  }

  /** Every position of the concatenation belongs to one group. */
  lemma {:induction false} Locate<T>(groups: seq<seq<T>>, i: nat) returns (g: nat, k: nat)
    requires i < |Flatten(groups)|
    ensures g < |groups| && k < |groups[g]| && i == Offset(groups, g) + k
    ensures Flatten(groups)[i] == groups[g][k]
  {
    var n := |groups| - 1;
    if i < Offset(groups, n) {
      g, k := Locate(groups[..n], i);
      assert groups[..n][..g] == groups[..g];
    } else {
      g, k := n, i - Offset(groups, n);
    }
  }

  lemma {:induction false} OffsetsGrow<T>(groups: seq<seq<T>>, g: nat, h: nat)
    requires g <= h <= |groups|
    requires forall i | 0 <= i < |groups| :: groups[i] != []
    ensures Offset(groups, g) + (h - g) <= Offset(groups, h)
  {
    if g < h {
      OffsetsGrow(groups, g, h - 1);
      GroupAt(groups, h - 1);
    }
  }

  /** The consecutive pairs of a list. */
  function Pairs<T>(xs: seq<T>): seq<(T, T)> {
    if |xs| < 2 then [] else Pairs(xs[..|xs| - 1]) + [(xs[|xs| - 2], xs[|xs| - 1])]
  }

  lemma {:induction false} PairsAt<T>(xs: seq<T>)
    ensures |Pairs(xs)| == if xs == [] then 0 else |xs| - 1
    ensures forall k | 0 <= k < |xs| - 1 :: Pairs(xs)[k] == (xs[k], xs[k + 1])
  {
    if |xs| >= 2 { PairsAt(xs[..|xs| - 1]); }
  }

  /** The consecutive pairs of every group; none crosses from one group to the next. */
  function GroupPairs<T>(groups: seq<seq<T>>): seq<(T, T)> {
    if groups == [] then [] else GroupPairs(groups[..|groups| - 1]) + Pairs(groups[|groups| - 1])
  }

  /** One pair less than elements in every group. */
  lemma {:induction false} GroupPairCount<T>(groups: seq<seq<T>>)
    requires forall g | 0 <= g < |groups| :: groups[g] != []
    ensures |GroupPairs(groups)| == |Flatten(groups)| - |groups|
  {
    if groups != [] {
      GroupPairCount(groups[..|groups| - 1]);
      PairsAt(groups[|groups| - 1]);
    }
  }

  /** Pair j lies in some group g and joins the elements at positions j + g and j + g + 1. */
  lemma {:induction false} LocatePair<T>(groups: seq<seq<T>>, j: nat) returns (g: nat, k: nat)
    requires forall h | 0 <= h < |groups| :: groups[h] != []
    requires j < |GroupPairs(groups)|
    ensures g < |groups| && k + 1 < |groups[g]| && j + g == Offset(groups, g) + k
    ensures GroupPairs(groups)[j] == (groups[g][k], groups[g][k + 1])
  {
    var n := |groups| - 1;
    GroupPairCount(groups[..n]);
    if j < |GroupPairs(groups[..n])| {
      g, k := LocatePair(groups[..n], j);
      assert groups[..n][..g] == groups[..g];
    } else {
      g, k := n, j + n - Offset(groups, n);
      PairsAt(groups[n]);
    }
  }

  lemma {:induction false} PairAt<T>(groups: seq<seq<T>>, g: nat, k: nat)
    requires forall h | 0 <= h < |groups| :: groups[h] != []
    requires g < |groups| && k + 1 < |groups[g]|
    ensures 0 <= Offset(groups, g) + k - g < |GroupPairs(groups)|
    ensures GroupPairs(groups)[Offset(groups, g) + k - g] == (groups[g][k], groups[g][k + 1])
  {
    var n := |groups| - 1;
    GroupPairCount(groups[..n]);
    PairsAt(groups[n]);
    if g < n {
      assert groups[..n][..g] == groups[..g];
      PairAt(groups[..n], g, k);
    }
  }

  /** Later pairs start at later positions. */
  lemma PairsAreOrdered<T>(groups: seq<seq<T>>, i: nat, g: nat, k: nat, j: nat, h: nat, l: nat)
    requires forall x | 0 <= x < |groups| :: groups[x] != []
    requires i < j && g < |groups| && h < |groups| && l + 1 < |groups[h]|
    requires i + g == Offset(groups, g) + k && j + h == Offset(groups, h) + l
    ensures i + g < j + h
  {
    if h < g {
      GroupAt(groups, h);
      OffsetsGrow(groups, h + 1, g);
    }
  }
}
