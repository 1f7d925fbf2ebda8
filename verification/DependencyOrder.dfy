/** Start order of the managed services: depth-first over the dependency table. */
module DependencyOrder {
  import opened Common

  type Name = string

  /** Each known service with the services it depends on, known or not. */
  type Table = map<Name, seq<Name>>

  /** A path of one or more dependency steps through known services. */
  ghost predicate IsPath(table: Table, path: seq<Name>) {
    && |path| >= 2
    && (forall i | 0 <= i < |path| :: path[i] in table)
    && forall i | 0 <= i < |path| - 1 :: path[i + 1] in table[path[i]]
  }

  ghost predicate DependsOn(table: Table, a: Name, b: Name) {
    exists path :: IsPath(table, path) && path[0] == a && path[|path| - 1] == b
  }

  ghost predicate Reaches(table: Table, a: Name, b: Name) {
    a in table && (a == b || DependsOn(table, a, b))
  }

  lemma DirectlyDependsOn(table: Table, a: Name, b: Name)
    requires a in table && b in table && b in table[a]
    ensures DependsOn(table, a, b)
  {
    assert IsPath(table, [a, b]);
  }

  lemma DependsTransitively(table: Table, a: Name, b: Name, c: Name)
    requires DependsOn(table, a, b) && DependsOn(table, b, c)
    ensures DependsOn(table, a, c)
  {
    var p :| IsPath(table, p) && p[0] == a && p[|p| - 1] == b;
    var q :| IsPath(table, q) && q[0] == b && q[|q| - 1] == c;
    var r := p + q[1..];
    forall i | 0 <= i < |r| - 1 ensures r[i + 1] in table[r[i]] {
      if i >= |p| - 1 { assert r[i] == q[i - (|p| - 1)] && r[i + 1] == q[i - (|p| - 1) + 1]; }
    }
    assert IsPath(table, r);
  }

  /** Services that all reach n reach its dependency d as well. */
  lemma OpenReachDependency(table: Table, open: set<Name>, n: Name, d: Name)
    requires n in table && d in table[n] && forall x | x in open && x != n :: DependsOn(table, x, n)
    ensures d in table ==> forall x | x in open :: DependsOn(table, x, d)
  {
    if d in table {
      DirectlyDependsOn(table, n, d);
      forall x | x in open ensures DependsOn(table, x, d) {
        if x != n { DependsTransitively(table, x, n, d); }
      }
    }
  }

  /** What is reached from a dependency is reached from the service. */
  lemma ReachedThrough(table: Table, reached: set<Name>, n: Name, d: Name)
    requires n in table && d in table[n] && forall x | x in reached :: Reaches(table, d, x)
    ensures forall x | x in reached :: Reaches(table, n, x)
  {
    forall x | x in reached ensures Reaches(table, n, x) {
      DirectlyDependsOn(table, n, d);
      if x != d { DependsTransitively(table, n, d, x); }
    }
  }

  /** s contains every known dependency of its members. */
  ghost predicate Closed(table: Table, s: set<Name>) {
    forall x, d | x in s && x in table && d in table[x] && d in table :: d in s
  }

  lemma {:induction false} ClosedContainsPath(table: Table, s: set<Name>, path: seq<Name>)
    requires Closed(table, s) && IsPath(table, path) && path[0] in s
    ensures path[|path| - 1] in s
  {
    assert path[1] in s;
    if |path| > 2 {
      assert IsPath(table, path[1..]) by {
        forall i | 0 <= i < |path| - 2 ensures path[1..][i + 1] in table[path[1..][i]] {
          assert path[i + 2] in table[path[i + 1]];
        }
      }
      ClosedContainsPath(table, s, path[1..]);
    }
  }

  /** Every known dependency of a listed service is listed before it. */
  ghost predicate DependenciesFirst(table: Table, order: seq<Name>) {
    forall j, d | 0 <= j < |order| && order[j] in table && d in table[order[j]] && d in table :: d in order[..j]
  }

  ghost predicate Cyclic(table: Table, x: Name) { DependsOn(table, x, x) }

  /** Depth-first and last-come order: what is seen and what is listed once these names are visited in turn. */
  function Visited(table: Table, seen: set<Name>, ordered: seq<Name>, names: seq<Name>): (r: (set<Name>, seq<Name>))
    ensures seen <= r.0 && ordered <= r.1
    decreases table.Keys - seen, |names|
  {
    if names == [] then (seen, ordered)
    else if names[0] in seen || names[0] !in table then Visited(table, seen, ordered, names[1..])
    else
      var below := Visited(table, seen + {names[0]}, ordered, table[names[0]]);
      Visited(table, below.0, below.1 + [names[0]], names[1..])
  }

  /** What is asked for first comes first: more requests only add to the end of the order. */
  lemma {:induction false} RequestsAreServedInTurn(table: Table, seen: set<Name>, ordered: seq<Name>, names: seq<Name>, more: seq<Name>)
    ensures var first := Visited(table, seen, ordered, names);
            Visited(table, seen, ordered, names + more) == Visited(table, first.0, first.1, more)
    ensures Visited(table, seen, ordered, names).1 <= Visited(table, seen, ordered, names + more).1
    decreases table.Keys - seen, |names|
  {
    if names == [] {
      assert names + more == more;
    } else {
      assert (names + more)[0] == names[0] && (names + more)[1..] == names[1..] + more;
      if names[0] in seen || names[0] !in table {
        RequestsAreServedInTurn(table, seen, ordered, names[1..], more);
      } else {
        var below := Visited(table, seen + {names[0]}, ordered, table[names[0]]);
        RequestsAreServedInTurn(table, below.0, below.1 + [names[0]], names[1..], more);
      }
    }
  }

  /** A service alone is listed right after what its dependencies, in their order, list. */
  lemma {:induction false} ServiceFollowsDependencies(table: Table, n: Name)
    requires n in table
    ensures Visited(table, {}, [], [n]).1 == Visited(table, {n}, [], table[n]).1 + [n]
  {
    assert {} + {n} == {n};
  }

  class Resolver {
    const table: Table
    var seen: set<Name>
    var ordered: seq<Name>

    constructor (table: Table)
      ensures this.table == table && seen == {} && ordered == []
    {
      this.table, seen, ordered := table, {}, [];
    }

    /** The services being visited: seen but not yet listed. */
    ghost function Open(): set<Name>
      reads this
    {
      set x | x in seen && x !in ordered
    }

    ghost predicate Valid()
      reads this
    {
      && seen <= table.Keys
      && (forall i, j | 0 <= i < j < |ordered| :: ordered[i] != ordered[j])
      && (forall x | x in ordered :: x in seen)
      && (forall x, d | x in ordered && d in table[x] && d in table :: d in seen)
    }

    /** Listed services have their dependencies first, unless they lie on a cycle. */
    ghost predicate OrderedUnlessCyclic()
      requires Valid()
      reads this
    {
      forall j, d | 0 <= j < |ordered| && d in table[ordered[j]] && d in table ::
        d in ordered[..j] || Cyclic(table, ordered[j])
    }

    method Visit(n: Name)
      requires Valid() && OrderedUnlessCyclic()
      requires n in table ==> forall x | x in Open() :: DependsOn(table, x, n)
      modifies this`seen, this`ordered
      ensures Valid() && OrderedUnlessCyclic()
      ensures (seen, ordered) == Visited(table, old(seen), old(ordered), [n])
      ensures Open() == old(Open())
      ensures n in table ==> n in seen
      ensures forall x | x in seen && x !in old(seen) :: Reaches(table, n, x)
      decreases |table.Keys - seen|, 1, 0
    {
      if n in seen || n !in table { return; }
      ghost var before := seen;
      seen := seen + {n};
      assert table.Keys - seen < table.Keys - before;
      SmallerSet(table.Keys - seen, table.Keys - before);
      assert Open() == old(Open()) + {n};
      VisitDependencies(n);
      assert Open() == old(Open()) + {n};
      AppendListed(n);
    }

    /** `for d in dep.depends_on: visit(d)`. */
    method VisitDependencies(n: Name)
      requires Valid() && OrderedUnlessCyclic() && n in Open()
      requires forall x | x in Open() && x != n :: DependsOn(table, x, n)
      modifies this`seen, this`ordered
      ensures Valid() && OrderedUnlessCyclic()
      ensures (seen, ordered) == Visited(table, old(seen), old(ordered), table[n])
      ensures Open() == old(Open())
      ensures forall d | d in table[n] && d in table :: d in seen
      ensures forall x | x in seen && x !in old(seen) :: Reaches(table, n, x)
      decreases |table.Keys - seen|, 2
    {
      ghost var goal := Visited(table, seen, ordered, table[n]);
      for i := 0 to |table[n]|
        invariant Valid() && OrderedUnlessCyclic()
        invariant old(seen) <= seen
        invariant goal == Visited(table, seen, ordered, table[n][i..])
        invariant Open() == old(Open())
        invariant forall k | 0 <= k < i && table[n][k] in table :: table[n][k] in seen
        invariant forall x | x in seen && x !in old(seen) :: Reaches(table, n, x)
      {
        var d := table[n][i];
        ghost var before := seen;
        OpenReachDependency(table, Open(), n, d);
        SubsetSize(table.Keys - seen, table.Keys - old(seen));
        NextName(table, seen, ordered, table[n], i);
        Visit(d);
        ReachedThrough(table, seen - before, n, d);
      }
    }

    /** `ordered.append(n)` once all dependencies are seen: one that is still open is on a cycle. */
    method AppendListed(n: Name)
      requires Valid() && OrderedUnlessCyclic() && n in Open()
      requires forall x | x in Open() && x != n :: DependsOn(table, x, n)
      requires forall d | d in table[n] && d in table :: d in seen
      modifies this`ordered
      ensures Valid() && OrderedUnlessCyclic()
      ensures ordered == old(ordered) + [n] && Open() == old(Open()) - {n}
    {
      forall d | d in table[n] && d in table && d !in ordered ensures Cyclic(table, n) {
        assert d in Open();
        DirectlyDependsOn(table, n, d);
        if d != n { DependsTransitively(table, n, d, n); }
      }
      ghost var k := |ordered|;
      ordered := ordered + [n];
      assert ordered[..k] == old(ordered);
      forall j, d | 0 <= j < |ordered| && d in table[ordered[j]] && d in table
        ensures d in ordered[..j] || Cyclic(table, ordered[j])
      {
        if j < k { assert ordered[..j] == old(ordered)[..j]; }
      }
    }
  }

  /** Visiting the i-th name is the first step of visiting the rest. */
  lemma {:induction false} NextName(table: Table, seen: set<Name>, ordered: seq<Name>, names: seq<Name>, i: nat)
    requires i < |names|
    ensures var one := Visited(table, seen, ordered, [names[i]]);
            Visited(table, seen, ordered, names[i..]) == Visited(table, one.0, one.1, names[i + 1..])
  {
    assert names[i..] == [names[i]] + names[i + 1..];
    RequestsAreServedInTurn(table, seen, ordered, [names[i]], names[i + 1..]);
  }

  lemma SmallerSet(a: set<Name>, b: set<Name>)
    requires a < b
    ensures |a| < |b|
  {
    var x :| x in b && x !in a;
    SubsetSize(a, b - {x});
  }

  /** The start order: it has no duplicates, contains exactly the known services reachable from
      the request, and lists known dependencies first except for services on a cycle. It
      terminates on every table, cyclic or not. */
  method ResolveOrder(table: Table, names: seq<Name>) returns (order: seq<Name>)
    ensures order == Visited(table, {}, [], names).1
    ensures forall i, j | 0 <= i < j < |order| :: order[i] != order[j]
    ensures forall x :: x in order <==> exists n :: n in names && Reaches(table, n, x)
    ensures forall j, d | 0 <= j < |order| && order[j] in table && d in table[order[j]] && d in table ::
              d in order[..j] || Cyclic(table, order[j])
  {
    var r := new Resolver(table);
    for i := 0 to |names|
      invariant fresh(r) && r.table == table
      invariant r.Valid() && r.OrderedUnlessCyclic() && r.Open() == {}
      invariant Visited(table, {}, [], names) == Visited(table, r.seen, r.ordered, names[i..])
      invariant forall k | 0 <= k < i && names[k] in table :: names[k] in r.seen
      invariant forall x | x in r.seen :: exists n :: n in names && Reaches(table, n, x)
    {
      ghost var before := r.seen;
      NextName(table, r.seen, r.ordered, names, i);
      r.Visit(names[i]);
      forall x | x in r.seen && x !in before ensures exists n :: n in names && Reaches(table, n, x) {
        assert names[i] in names && Reaches(table, names[i], x);
      }
    }
    order := r.ordered;
    assert forall x | x in r.seen :: x in order by {
      forall x | x in r.seen ensures x in order {
        assert x !in r.Open();
      }
    }
    forall x, n | n in names && Reaches(table, n, x) ensures x in order {
      if n != x {
        var path :| IsPath(table, path) && path[0] == n && path[|path| - 1] == x;
        assert Closed(table, r.seen);
        ClosedContainsPath(table, r.seen, path);
      }
    }
  }

  /** A start order puts every dependency first exactly when no listed service is on a cycle. */
  lemma OrderedIffAcyclic(table: Table, order: seq<Name>)
    requires forall i, j | 0 <= i < j < |order| :: order[i] != order[j]
    requires forall x | x in order :: x in table
    requires forall j, d | 0 <= j < |order| && d in table[order[j]] && d in table ::
               d in order[..j] || Cyclic(table, order[j])
    ensures DependenciesFirst(table, order) <==> forall x | x in order :: !Cyclic(table, x)
  {
    if DependenciesFirst(table, order) {
      forall x | x in order ensures !Cyclic(table, x) {
        if Cyclic(table, x) {
          var path :| IsPath(table, path) && path[0] == x && path[|path| - 1] == x;
          var _, _ := PathGoesDown(table, order, path);
          assert false;
        }
      }
    } else {
      var j, d :| 0 <= j < |order| && order[j] in table && d in table[order[j]] && d in table && d !in order[..j];
      assert Cyclic(table, order[j]);
    }
  }

  /** Along a dependency path the positions strictly decrease. */
  lemma {:induction false} PathGoesDown(table: Table, order: seq<Name>, path: seq<Name>) returns (i: nat, j: nat)
    requires DependenciesFirst(table, order) && IsPath(table, path) && path[0] in order
    requires forall a, b | 0 <= a < b < |order| :: order[a] != order[b]
    ensures i < j < |order| && order[i] == path[|path| - 1] && order[j] == path[0]
    ensures path[|path| - 1] != path[0]
    decreases |path|
  {
    j :| 0 <= j < |order| && order[j] == path[0];
    assert path[0 + 1] in table[path[0]];
    assert path[1] in order[..j];
    i :| 0 <= i < j && order[..j][i] == path[1];
    if |path| > 2 {
      var tail := path[1..];
      assert IsPath(table, tail) by {
        forall k | 0 <= k < |tail| - 1 ensures tail[k + 1] in table[tail[k]] {
          assert path[k + 2] in table[path[k + 1]];
        }
      }
      assert order[i] == tail[0];
      var l, m := PathGoesDown(table, order, tail);
      assert m == i;
      i := l;
    }
  }
}
