/**
 Finite directed graphs over names: walks, reachability, cycles, topological
 orders. The resolver's algorithms are stated against these definitions, none
 of which mentions a queue, an in-degree or a colour.
 */
module Graph {
  import opened Names

  /** Successor sets; the keys are the nodes. */
  type Rel = map<Name, set<Name>>

  predicate Closed(r: Rel) {
    forall n :: n in r ==> r[n] <= r.Keys
  }

  predicate Walk(r: Rel, p: seq<Name>) {
    && |p| > 0
    && (forall i :: 0 <= i < |p| ==> p[i] in r)
    && (forall i :: 0 <= i < |p| - 1 ==> p[i + 1] in r[p[i]])
  }

  function Last(p: seq<Name>): Name
    requires |p| > 0
  {
    p[|p| - 1]
  }

  predicate WalkFrom(r: Rel, p: seq<Name>, a: Name, b: Name) {
    Walk(r, p) && |p| >= 2 && p[0] == a && Last(p) == b
  }

  /** b can be reached from a over one or more edges. */
  ghost predicate Reaches(r: Rel, a: Name, b: Name) {
    exists p :: WalkFrom(r, p, a, b)
  }

  ghost predicate OnCycle(r: Rel, a: Name) {
    Reaches(r, a, a)
  }

  ghost predicate Acyclic(r: Rel) {
    forall a :: a in r ==> !OnCycle(r, a)
  }

  /** A walk whose last node occurs earlier on it. */
  predicate Lasso(r: Rel, p: seq<Name>) {
    Walk(r, p) && |p| >= 2 && Last(p) in p[..|p| - 1]
  }

  /** A cycle can be reached from a (or a lies on one). */
  ghost predicate ReachesCycle(r: Rel, a: Name) {
    exists p :: Lasso(r, p) && p[0] == a
  }

  /** Each listed node comes after all of its successors. */
  predicate DepsFirst(r: Rel, o: seq<Name>) {
    NoDup(o) && forall i :: 0 <= i < |o| ==> o[i] in r && r[o[i]] <= Elems(o[..i])
  }

  predicate IsTopo(r: Rel, o: seq<Name>) {
    DepsFirst(r, o) && Elems(o) == r.Keys
  }

  lemma WalkJoin(r: Rel, p: seq<Name>, q: seq<Name>)
    requires Walk(r, p) && Walk(r, q) && Last(p) == q[0]
    ensures Walk(r, p + q[1..]) && Last(p + q[1..]) == Last(q)
  {
    var s := p + q[1..];
    forall i | 0 <= i < |s| - 1 ensures s[i + 1] in r[s[i]] {
      if i >= |p| - 1 {
        assert s[i] == q[i - |p| + 1] && s[i + 1] == q[i - |p| + 2];
      }
    }
  }

  lemma WalkAppend(r: Rel, p: seq<Name>, x: Name)
    requires x in r && (p == [] || (Walk(r, p) && x in r[Last(p)]))
    ensures Walk(r, p + [x])
  {
  }

  lemma WalkPrefix(r: Rel, p: seq<Name>, x: Name)
    requires p != [] && Walk(r, p + [x])
    ensures Walk(r, p)
  {
    assert forall i :: 0 <= i < |p| ==> p[i] == (p + [x])[i];
  }

  lemma ReachesTransitive(r: Rel, a: Name, b: Name, c: Name)
    requires Reaches(r, a, b) && Reaches(r, b, c)
    ensures Reaches(r, a, c)
  {
    var p :| WalkFrom(r, p, a, b);
    var q :| WalkFrom(r, q, b, c);
    WalkJoin(r, p, q);
    assert WalkFrom(r, p + q[1..], a, c);
  }

  lemma EdgeReaches(r: Rel, a: Name, b: Name)
    requires a in r && b in r && b in r[a]
    ensures Reaches(r, a, b)
  {
    assert WalkFrom(r, [a, b], a, b);
  }

  /** A set that holds a's successors and is closed under edges holds all a reaches. */
  lemma {:induction false} ClosedSetContains(r: Rel, s: set<Name>, a: Name, p: seq<Name>)
    requires Walk(r, p) && |p| >= 2 && p[0] == a
    requires r[a] <= s
    requires forall x :: x in s && x in r ==> r[x] <= s
    ensures Last(p) in s
    decreases |p|
  {
    if |p| > 2 {
      ClosedSetContains(r, s, p[1], p[1..]);
    }
  }

  /** A lasso from a is a cycle that a lies on or reaches. */
  lemma ReachesCycleMeans(r: Rel, a: Name)
    ensures ReachesCycle(r, a) <==> exists c :: OnCycle(r, c) && (c == a || Reaches(r, a, c))
  {
    if ReachesCycle(r, a) {
      var p :| Lasso(r, p) && p[0] == a;
      var i :| 0 <= i < |p| - 1 && p[i] == Last(p);
      assert WalkFrom(r, p[i..], p[i], p[i]);
      assert OnCycle(r, p[i]);
      if i > 0 { assert WalkFrom(r, p[..i + 1], a, p[i]); }
      assert p[i] == a || Reaches(r, a, p[i]);
    }
    if c :| OnCycle(r, c) && (c == a || Reaches(r, a, c)) {
      var q :| WalkFrom(r, q, c, c);
      if c == a {
        assert Lasso(r, q);
      } else {
        var p :| WalkFrom(r, p, a, c);
        WalkJoin(r, p, q);
        var s := p + q[1..];
        assert s[|p| - 1] == c && s[..|s| - 1][|p| - 1] == c;
        assert Lasso(r, s);
      }
    }
  }

  lemma AcyclicNoLasso(r: Rel, a: Name)
    requires Acyclic(r)
    ensures !ReachesCycle(r, a)
  {
    forall c ensures !OnCycle(r, c) {
      assert forall p :: WalkFrom(r, p, c, c) ==> c in r;
    }
    ReachesCycleMeans(r, a);
  }

  lemma NoDupWithin(p: seq<Name>, s: set<Name>)
    requires NoDup(p) && Elems(p) <= s
    ensures |p| <= |s|
  {
    NoDupSize(p);
    SubsetSize(Elems(p), s);
  }

  lemma {:induction false} SubsetSize<T>(a: set<T>, b: set<T>)
    requires a <= b
    ensures |a| <= |b| && (|a| == |b| ==> a == b)
  {
    if a != {} {
      var x :| x in a;
      SubsetSize(a - {x}, b - {x});
    }
  }

  /** Pigeonhole: where every node of s has a successor in s, every node of s leads to a cycle. */
  lemma Trapped(r: Rel, s: set<Name>, a: Name)
    requires s <= r.Keys && a in s
    requires forall n :: n in s ==> r[n] * s != {}
    ensures ReachesCycle(r, a)
  {
    var p := ExtendToLasso(r, s, [a]);
  }

  lemma {:induction false} ExtendToLasso(r: Rel, s: set<Name>, p: seq<Name>) returns (q: seq<Name>)
    requires s <= r.Keys && Walk(r, p) && NoDup(p) && Elems(p) <= s
    requires forall n :: n in s ==> r[n] * s != {}
    ensures Lasso(r, q) && q[0] == p[0]
    decreases |s| - |p|
  {
    assert Last(p) in Elems(p);
    var x :| x in r[Last(p)] * s;
    q := p + [x];
    assert Walk(r, q);
    if x in p {
      assert q[..|q| - 1] == p;
    } else {
      NoDupWithin(q, s);
      q := ExtendToLasso(r, s, q);
    }
  }

  /** Along a walk inside a deps-first list, every later node is listed before the first one. */
  lemma {:induction false} WalkDescends(r: Rel, o: seq<Name>, p: seq<Name>, i: nat)
    requires DepsFirst(r, o) && Walk(r, p) && i < |o| && p[0] == o[i]
    ensures |p| >= 2 ==> Last(p) in o[..i]
    decreases |p|
  {
    if |p| >= 2 {
      assert p[1] in Elems(o[..i]);
      var j :| 0 <= j < i && o[j] == p[1];
      WalkDescends(r, o, p[1..], j);
      if |p| > 2 {
        var k :| 0 <= k < j && o[k] == Last(p);
        assert o[..i][k] == Last(p);
      } else {
        assert o[..i][j] == Last(p);
      }
    }
  }

  /** No node of a deps-first list leads to a cycle. */
  lemma DepsFirstNoCycle(r: Rel, o: seq<Name>, a: Name)
    requires DepsFirst(r, o) && a in o
    ensures !ReachesCycle(r, a)
  {
    forall p | Walk(r, p) && |p| >= 2 && p[0] == a ensures Last(p) !in p[..|p| - 1] {
      forall k | 0 <= k < |p| - 1 ensures p[k] != Last(p) {
        DepsFirstWalkDistinct(r, o, p, k);
      }
    }
  }

  lemma DepsFirstWalkDistinct(r: Rel, o: seq<Name>, p: seq<Name>, k: nat)
    requires DepsFirst(r, o) && Walk(r, p) && k < |p| - 1 && p[0] in o
    ensures p[k] != Last(p)
  {
    var i :| 0 <= i < |o| && o[i] == p[0];
    if k > 0 {
      WalkDescends(r, o, p[..k + 1], i);
    }
    assert p[k] in o;
    var j :| 0 <= j < |o| && o[j] == p[k];
    WalkDescends(r, o, p[k..], j);
  }

  lemma DepsFirstAppend(r: Rel, o: seq<Name>, x: Name)
    requires DepsFirst(r, o) && x in r && x !in o && r[x] <= Elems(o)
    ensures DepsFirst(r, o + [x])
  {
    Appended(o, x);
    var t := o + [x];
    forall i | 0 <= i < |t| ensures t[i] in r && r[t[i]] <= Elems(t[..i]) {
      assert t[..i] == o[..i];
      assert o[..|o|] == o;
    }
  }

  lemma TopoMeansAcyclic(r: Rel, o: seq<Name>)
    requires IsTopo(r, o)
    ensures Acyclic(r)
  {
    forall a | a in r ensures !OnCycle(r, a) {
      DepsFirstNoCycle(r, o, a);
      ReachesCycleMeans(r, a);
    }
  }

  /** Every edge turned around. */
  function Reverse(r: Rel): Rel {
    map n | n in r :: set m | m in r && n in r[m]
  }

  lemma ReverseWalk(r: Rel, p: seq<Name>) returns (q: seq<Name>)
    requires Walk(r, p)
    ensures Walk(Reverse(r), q) && |q| == |p| && q[0] == Last(p) && Last(q) == p[0]
  {
    q := seq(|p|, i requires 0 <= i < |p| => p[|p| - 1 - i]);
    forall i | 0 <= i < |q| - 1 ensures q[i + 1] in Reverse(r)[q[i]] {
      var k := |p| - 2 - i;
      assert p[k + 1] in r[p[k]];
    }
  }

  lemma ReverseReverse(r: Rel)
    requires Closed(r)
    ensures Reverse(Reverse(r)) == r
  {
    forall n | n in r ensures Reverse(Reverse(r))[n] == r[n] {
    }
  }

  lemma ReachesReversed(r: Rel, a: Name, b: Name)
    requires Closed(r)
    ensures Reaches(r, a, b) <==> Reaches(Reverse(r), b, a)
  {
    if p :| WalkFrom(r, p, a, b) {
      var q := ReverseWalk(r, p);
      assert WalkFrom(Reverse(r), q, b, a);
    }
    if p :| WalkFrom(Reverse(r), p, b, a) {
      var q := ReverseWalk(Reverse(r), p);
      ReverseReverse(r);
      assert WalkFrom(r, q, a, b);
    }
  }
}
