/**
 The graph queries of internal/resolve/dag.go: DepsOf, RdepsOf and
 TransitiveDeps, each a recursive walk with a visited set.
 */
module DagWalk {
  import opened Names
  import opened Graph
  import opened Dag

  ghost function ReachSet(r: Rel, a: Name): set<Name> {
    set x | x in r && Reaches(r, a, x)
  }

  // ---------------------------------------------------------------------
  // DepsOf and RdepsOf: preorder
  // ---------------------------------------------------------------------

  /** All nodes of `added` are below n, and `seen` holds their successors. */
  ghost predicate AllBelow(r: Rel, n: Name, added: set<Name>, seen: set<Name>) {
    forall x {:trigger r[x]} :: x in added ==> x in r && r[x] <= seen && Reaches(r, n, x)
  }

  /** What a walk below n has added to the visited set. */
  ghost predicate Explored(r: Rel, n: Name, before: set<Name>, after: set<Name>)
    requires n in r
  {
    && before <= after <= r.Keys
    && r[n] <= after
    && AllBelow(r, n, after - before, after)
  }

  /** Everything below n that was not visited yet, appended as it is met. */
  method Descend(adj: Adjacency, n: Name, visited0: set<Name>, result0: seq<Name>)
    returns (visited: set<Name>, result: seq<Name>)
    requires Closed(Succ(adj)) && n in adj && visited0 <= adj.Keys
    requires NoDup(result0) && Elems(result0) == visited0
    ensures Explored(Succ(adj), n, visited0, visited)
    ensures NoDup(result) && Elems(result) == visited
    decreases |adj.Keys - visited0|
  {
    ghost var r := Succ(adj);
    visited, result := visited0, result0;
    var ds := adj[n];
    for i := 0 to |ds|
      invariant visited0 <= visited <= adj.Keys
      invariant Elems(ds[..i]) <= visited
      invariant AllBelow(r, n, visited - visited0, visited)
      invariant NoDup(result) && Elems(result) == visited
    {
      var d := ds[i];
      assert d in r[n];
      EdgeReaches(r, n, d);
      if d !in visited {
        ghost var v0 := visited;
        visited, result := visited + {d}, result + [d];
        assert result[|result| - 1] == d;
        SubsetSize(adj.Keys - visited, adj.Keys - visited0);
        ghost var v1 := visited;
        visited, result := Descend(adj, d, visited, result);
        ExploredGrows(r, n, d, visited0, v0, v1, visited);
      }
      PrefixElems(ds, i);
    }
    assert ds[..|ds|] == ds;
  }

  lemma ExploredGrows(r: Rel, n: Name, d: Name, v0: set<Name>, before: set<Name>, mid: set<Name>, after: set<Name>)
    requires n in r && d in r && d in r[n] && d in after && mid == before + {d} && v0 <= before
    requires Explored(r, d, mid, after)
    requires AllBelow(r, n, before - v0, before)
    ensures AllBelow(r, n, after - v0, after)
  {
    EdgeReaches(r, n, d);
    forall x | x in after - v0 ensures x in r && r[x] <= after && Reaches(r, n, x) {
      if x in after - mid {
        ReachesTransitive(r, n, d, x);
      }
    }
  }

  /** A finished walk from nothing has visited exactly what n reaches. */
  lemma ExploredIsReach(r: Rel, n: Name, visited: set<Name>)
    requires n in r && Explored(r, n, {}, visited)
    ensures visited == ReachSet(r, n)
  {
    forall x | x in ReachSet(r, n) ensures x in visited {
      var p :| WalkFrom(r, p, n, x);
      ClosedSetContains(r, visited, n, p);
    }
    forall x | x in visited ensures x in ReachSet(r, n) {
      assert x in visited - {} && x in r;
      assert r[x] <= visited;
    }
  }

  datatype Query = NotFound | Found(names: seq<Name>)

  /** DepsOf over Deps, RdepsOf over Rdeps: exactly what name reaches, sorted. */
  method ReachableFrom(adj: Adjacency, name: Name) returns (q: Query)
    requires Closed(Succ(adj))
    ensures name !in adj <==> q.NotFound?
    ensures q.Found? ==> Lists(q.names, ReachSet(Succ(adj), name))
  {
    if name !in adj {
      return NotFound;
    }
    var visited, result := Descend(adj, name, {}, []);
    ExploredIsReach(Succ(adj), name, visited);
    var sorted := SortStrings(result);
    PermutationFacts(sorted, result);
    q := Found(sorted);
  }

  /** The documentation leaves the unit itself out; it is listed exactly when it lies on a cycle. */
  method DepsOf(dag: DAG, name: Name) returns (q: Query)
    requires dag.Valid()
    ensures name !in dag.deps <==> q.NotFound?
    ensures q.Found? ==> Lists(q.names, ReachSet(Succ(dag.deps), name))
    ensures q.Found? ==> (name in q.names <==> OnCycle(Succ(dag.deps), name))
  {
    q := ReachableFrom(dag.deps, name);
    if q.Found? {
      DepsOfSelf(Succ(dag.deps), name);
      assert name in q.names <==> name in Elems(q.names);
    }
  }

  method RdepsOf(dag: DAG, name: Name) returns (q: Query)
    requires dag.Valid()
    ensures name !in dag.deps <==> q.NotFound?
    ensures q.Found? ==> Lists(q.names, ReachSet(Succ(dag.rdeps), name))
  {
    LinkedReverse(dag.deps, dag.rdeps);
    q := ReachableFrom(dag.rdeps, name);
  }

  /** x is among y's deps exactly when y is among x's reverse deps. */
  lemma DepsRdepsDual(deps: Adjacency, rdeps: Adjacency, x: Name, y: Name)
    requires Linked(deps, rdeps) && x in deps && y in deps
    ensures x in ReachSet(Succ(deps), y) <==> y in ReachSet(Succ(rdeps), x)
  {
    LinkedReverse(deps, rdeps);
    ReachesReversed(Succ(deps), y, x);
  }

  /** DepsOf lists the unit itself exactly when the unit lies on a cycle. */
  lemma DepsOfSelf(r: Rel, a: Name)
    requires a in r
    ensures a in ReachSet(r, a) <==> OnCycle(r, a)
  {
  }

  /** Two units that depend on each other are both among their own deps. */
  lemma SelfDepListed()
    ensures Closed(Succ(map["a" := ["b"], "b" := ["a"]]))
    ensures "a" in ReachSet(Succ(map["a" := ["b"], "b" := ["a"]]), "a")
  {
    var r := Succ(map["a" := ["b"], "b" := ["a"]]);
    assert ["b"][0] in Elems(["b"]) && ["a"][0] in Elems(["a"]);
    assert WalkFrom(r, ["a", "b", "a"], "a", "a");
  }

  // ---------------------------------------------------------------------
  // TransitiveDeps: postorder
  // ---------------------------------------------------------------------

  /** The nodes entered and not yet left all lead to n. */
  ghost predicate OpenLeadTo(r: Rel, visited: set<Name>, result: seq<Name>, n: Name) {
    forall g :: g in visited - Elems(result) ==> Reaches(r, g, n)
  }

  ghost predicate Below(r: Rel, n: Name, before: set<Name>, after: set<Name>) {
    && before <= after <= r.Keys
    && (forall x {:trigger r[x]} :: x in after - before ==> r[x] <= after && (x == n || Reaches(r, n, x)))
  }

  ghost predicate Posted(r: Rel, visited: set<Name>, result: seq<Name>) {
    NoDup(result) && Elems(result) <= visited && (Acyclic(r) ==> DepsFirst(r, result))
  }

  method PostWalk(adj: Adjacency, n: Name, visited0: set<Name>, result0: seq<Name>)
    returns (visited: set<Name>, result: seq<Name>)
    requires Closed(Succ(adj)) && n in adj && visited0 <= adj.Keys
    requires Posted(Succ(adj), visited0, result0) && OpenLeadTo(Succ(adj), visited0, result0, n)
    ensures Below(Succ(adj), n, visited0, visited) && n in visited
    ensures Posted(Succ(adj), visited, result)
    ensures visited - Elems(result) == visited0 - Elems(result0)
    decreases |adj.Keys - visited0|, 0
  {
    if n in visited0 {
      return visited0, result0;
    }
    SubsetSize(adj.Keys - (visited0 + {n}), adj.Keys - visited0);
    visited, result := PostWalkAll(adj, n, adj[n], visited0, visited0 + {n}, result0);
    LeaveNode(Succ(adj), n, visited0, result0, visited, result);
    result := result + [n];
  }

  /** Walk each listed dep of n in turn. */
  method PostWalkAll(adj: Adjacency, n: Name, ds: seq<Name>, ghost visited0: set<Name>, visited1: set<Name>,
                     result1: seq<Name>)
    returns (visited: set<Name>, result: seq<Name>)
    requires Closed(Succ(adj)) && n in adj && ds == adj[n]
    requires visited1 <= adj.Keys && n in visited1 && n !in visited0 && visited0 <= visited1
             && visited1 - visited0 == {n}
    requires Posted(Succ(adj), visited1, result1) && OpenLeadTo(Succ(adj), visited1 - {n}, result1, n)
    ensures visited1 <= visited <= adj.Keys && Elems(ds) <= visited
    ensures AllBelow(Succ(adj), n, visited - visited1, visited)
    ensures Posted(Succ(adj), visited, result)
    ensures visited - Elems(result) == visited1 - Elems(result1)
    decreases |adj.Keys - visited1|, 1
  {
    ghost var r := Succ(adj);
    visited, result := visited1, result1;
    for i := 0 to |ds|
      invariant visited1 <= visited <= adj.Keys && Elems(ds[..i]) <= visited
      invariant AllBelow(r, n, visited - visited1, visited)
      invariant Posted(r, visited, result)
      invariant visited - Elems(result) == visited1 - Elems(result1)
    {
      var d := ds[i];
      assert d in r[n];
      ghost var before := visited;
      OpenLeadsOn(r, visited, result, n, d, visited1, result1);
      SubsetSize(adj.Keys - visited, adj.Keys - visited1);
      visited, result := PostWalk(adj, d, visited, result);
      BelowGrows(r, n, d, visited1, before, visited);
      PrefixElems(ds, i);
    }
    assert ds[..|ds|] == ds;
  }

  lemma OpenLeadsOn(r: Rel, visited: set<Name>, result: seq<Name>, n: Name, d: Name, visited1: set<Name>,
                    result1: seq<Name>)
    requires n in r && d in r && d in r[n]
    requires OpenLeadTo(r, visited1 - {n}, result1, n)
    requires visited - Elems(result) == visited1 - Elems(result1)
    ensures OpenLeadTo(r, visited, result, d)
  {
    EdgeReaches(r, n, d);
    forall g | g in visited - Elems(result) ensures Reaches(r, g, d) {
      assert g in visited1 - Elems(result1);
      if g != n {
        assert g in (visited1 - {n}) - Elems(result1);
        ReachesTransitive(r, g, n, d);
      }
    }
  }

  lemma BelowGrows(r: Rel, n: Name, d: Name, v1: set<Name>, before: set<Name>, after: set<Name>)
    requires n in r && d in r && d in r[n] && v1 <= before && Below(r, d, before, after)
    requires AllBelow(r, n, before - v1, before)
    ensures AllBelow(r, n, after - v1, after)
  {
    EdgeReaches(r, n, d);
    forall x | x in after - v1 ensures x in r && r[x] <= after && Reaches(r, n, x) {
      if x in after - before && x != d {
        ReachesTransitive(r, n, d, x);
      }
    }
  }

  /** When n is left, every dep of n has been left before it, unless the graph has a cycle. */
  lemma LeaveNode(r: Rel, n: Name, visited0: set<Name>, result0: seq<Name>, visited: set<Name>, result: seq<Name>)
    requires n in r && n !in visited0 && Elems(result0) <= visited0 && OpenLeadTo(r, visited0, result0, n)
    requires visited0 + {n} <= visited <= r.Keys && r[n] <= visited && Posted(r, visited, result)
    requires visited - Elems(result) == (visited0 + {n}) - Elems(result0)
    ensures Posted(r, visited, result + [n])
    ensures visited - Elems(result + [n]) == visited0 - Elems(result0)
  {
    var o := result + [n];
    assert n in (visited0 + {n}) - Elems(result0);
    assert n !in result;
    assert Elems(o) == Elems(result) + {n} by { assert o[|result|] == n; }
    assert visited - Elems(o) == (visited - Elems(result)) - {n};
    if Acyclic(r) {
      forall d | d in r[n] ensures d in Elems(result) {
        EdgeReaches(r, n, d);
        assert d != n;
        assert d in visited - Elems(result) ==> d in visited0 - Elems(result0);
        if Reaches(r, d, n) { ReachesTransitive(r, n, d, n); }
      }
      forall i | 0 <= i < |o| ensures o[i] in r && r[o[i]] <= Elems(o[..i]) {
        assert o[..i] == result[..i];
        assert result[..|result|] == result;
      }
    }
  }

  /** Between two top-level walks nothing is left open. */
  ghost predicate Settled(r: Rel, name: Name, visited: set<Name>, result: seq<Name>) {
    visited <= r.Keys && visited == Elems(result) && AllBelow(r, name, visited, visited) && Posted(r, visited, result)
  }

  method PostWalkFrom(adj: Adjacency, ghost name: Name, d: Name, visited0: set<Name>, result0: seq<Name>)
    returns (visited: set<Name>, result: seq<Name>)
    requires Closed(Succ(adj)) && name in adj && d in Succ(adj)[name] && Settled(Succ(adj), name, visited0, result0)
    ensures Settled(Succ(adj), name, visited, result) && visited0 + {d} <= visited
  {
    assert visited0 - Elems(result0) == {};
    visited, result := PostWalk(adj, d, visited0, result0);
    assert visited0 - {} == visited0 && visited - {} == visited;
    BelowGrows(Succ(adj), name, d, {}, visited0, visited);
  }

  method PostWalkTop(adj: Adjacency, name: Name) returns (result: seq<Name>)
    requires Closed(Succ(adj)) && name in adj
    ensures NoDup(result) && Elems(result) == ReachSet(Succ(adj), name)
    ensures Acyclic(Succ(adj)) ==> DepsFirst(Succ(adj), result)
  {
    result := [];
    var visited: set<Name> := {};
    var ds := adj[name];
    assert Elems(result) == {};
    for i := 0 to |ds|
      invariant Settled(Succ(adj), name, visited, result) && Elems(ds[..i]) <= visited
    {
      visited, result := PostWalkFrom(adj, name, ds[i], visited, result);
      PrefixElems(ds, i);
    }
    assert ds[..|ds|] == ds && visited - {} == visited;
    ExploredIsReach(Succ(adj), name, visited);
  }

  /** The same units as DepsOf, none twice; on an acyclic graph each after all of its own deps. */
  method TransitiveDeps(dag: DAG, name: Name) returns (result: seq<Name>)
    requires dag.Valid()
    ensures name !in dag.deps ==> result == []
    ensures name in dag.deps ==> NoDup(result) && Elems(result) == ReachSet(Succ(dag.deps), name)
    ensures name in dag.deps && Acyclic(Succ(dag.deps)) ==> DepsFirst(Succ(dag.deps), result)
  {
    if name !in dag.deps {
      return [];
    }
    result := PostWalkTop(dag.deps, name);
  }
}
