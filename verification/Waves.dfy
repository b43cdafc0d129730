/**
 What topoOrder (internal/starlark/closure.go) computes, stated without its
 in-degree table: waves of units whose deps lie in earlier waves, then a sorted
 tail. Each wave is a longest-chain level, and the tail is what leads to a cycle.
 */
module Waves {
  import opened Names
  import opened Graph

  lemma {:induction false} ListingExists(s: set<Name>)
    ensures exists l :: Lists(l, s)
  {
    if s == {} {
      assert Lists([], {});
    } else {
      var x :| x in s;
      ListingExists(s - {x});
      var l :| Lists(l, s - {x});
      Appended(l, x);
      PermutationFacts(SortStrings(l + [x]), l + [x]);
      assert Lists(SortStrings(l + [x]), s);
    }
  }

  /** The names of a set in sorted order. */
  ghost function Listing(s: set<Name>): (l: seq<Name>)
    ensures Lists(l, s)
  {
    ListingExists(s);
    var l :| Lists(l, s);
    l
  }

  /** The nodes whose longest chain of deps has fewer than k edges. */
  ghost function Done(r: Rel, k: nat): (s: set<Name>)
    ensures s <= r.Keys
  {
    if k == 0 then {} else set n | n in r && r[n] <= Done(r, k - 1)
  }

  ghost function Wave(r: Rel, k: nat): set<Name> {
    Done(r, k + 1) - Done(r, k)
  }

  /** The first k waves, each sorted. */
  ghost function Emitted(r: Rel, k: nat): seq<Name> {
    if k == 0 then [] else Emitted(r, k - 1) + Listing(Wave(r, k - 1))
  }

  /** The full answer: every wave, then what no wave ever holds. */
  ghost function Ordering(r: Rel): seq<Name> {
    Emitted(r, |r|) + Listing(r.Keys - Done(r, |r|))
  }

  // ---------------------------------------------------------------------
  // Done grows, and stops growing within |r| steps
  // ---------------------------------------------------------------------

  lemma {:induction false} DoneGrows(r: Rel, k: nat)
    ensures Done(r, k) <= Done(r, k + 1)
  {
    if k > 0 { DoneGrows(r, k - 1); }
  }

  lemma {:induction false} DoneStable(r: Rel, j: nat, k: nat)
    requires j <= k && Done(r, j) == Done(r, j + 1)
    ensures Done(r, k) == Done(r, j) && Done(r, k + 1) == Done(r, j)
    decreases k
  {
    if j < k { DoneStable(r, j, k - 1); }
  }

  /** Either the sets have settled by step k, or k nodes are done. */
  lemma {:induction false} DoneCounts(r: Rel, k: nat)
    ensures |Done(r, k)| >= k || Done(r, k) == Done(r, k + 1)
  {
    if k == 0 {
    } else {
      DoneCounts(r, k - 1);
      DoneGrows(r, k - 1);
      if Done(r, k - 1) == Done(r, k) {
        DoneStable(r, k - 1, k);
      } else {
        SubsetSize(Done(r, k - 1), Done(r, k));
      }
    }
  }

  lemma DoneSettles(r: Rel, k: nat)
    requires k >= |r|
    ensures Done(r, k) == Done(r, |r|) && Done(r, k + 1) == Done(r, k)
  {
    var n := |r|;
    assert |r.Keys| == n;
    DoneCounts(r, n);
    if Done(r, n) != Done(r, n + 1) {
      SubsetSize(Done(r, n), r.Keys);
      DoneGrows(r, n);
    }
    DoneStable(r, n, k);
  }

  // ---------------------------------------------------------------------
  // Waves are longest-chain levels
  // ---------------------------------------------------------------------

  /** Some chain of k dep edges starts at n. */
  ghost predicate HasChain(r: Rel, n: Name, k: nat) {
    exists p :: Walk(r, p) && |p| == k + 1 && p[0] == n
  }

  lemma {:induction false} DoneIffNoChain(r: Rel, n: Name, k: nat)
    requires Closed(r) && n in r
    ensures n in Done(r, k) <==> !HasChain(r, n, k)
    decreases k
  {
    if k == 0 {
      assert Walk(r, [n]);
    } else {
      forall d | d in r[n] ensures d in Done(r, k - 1) <==> !HasChain(r, d, k - 1) {
        DoneIffNoChain(r, d, k - 1);
      }
      if HasChain(r, n, k) {
        var p :| Walk(r, p) && |p| == k + 1 && p[0] == n;
        assert Walk(r, p[1..]) && p[1] in r[n];
        assert HasChain(r, p[1], k - 1);
      }
      if d :| d in r[n] && HasChain(r, d, k - 1) {
        var p :| Walk(r, p) && |p| == k && p[0] == d;
        WalkJoin(r, [n, d], p);
        assert HasChain(r, n, k);
      }
    }
  }

  /** A unit of wave k has a chain of k deps below it and none longer. */
  lemma WaveIsLongestChain(r: Rel, n: Name, k: nat)
    requires Closed(r) && n in r
    ensures n in Wave(r, k) <==> HasChain(r, n, k) && !HasChain(r, n, k + 1)
  {
    DoneIffNoChain(r, n, k);
    DoneIffNoChain(r, n, k + 1);
  }

  // ---------------------------------------------------------------------
  // The ordering
  // ---------------------------------------------------------------------

  lemma {:induction false} EmittedIsDone(r: Rel, k: nat)
    ensures Elems(Emitted(r, k)) == Done(r, k)
  {
    if k == 0 {
    } else {
      EmittedIsDone(r, k - 1);
      DoneGrows(r, k - 1);
      Joined(Emitted(r, k - 1), Listing(Wave(r, k - 1)));
      assert Done(r, k - 1) + Wave(r, k - 1) == Done(r, k);
    }
  }

  /** A sorted wave over deps already listed may follow them. */
  lemma JoinDepsFirst(r: Rel, a: seq<Name>, b: seq<Name>, w: set<Name>)
    requires DepsFirst(r, a) && Lists(b, w) && w !! Elems(a) && w <= r.Keys
    requires forall x {:trigger r[x]} :: x in w ==> r[x] <= Elems(a)
    ensures DepsFirst(r, a + b)
  {
    JoinNoDup(a, b);
    var c := a + b;
    forall i | 0 <= i < |c| ensures c[i] in r && r[c[i]] <= Elems(c[..i]) {
      if i < |a| {
        assert c[..i] == a[..i];
      } else {
        assert c[i] == b[i - |a|] && c[i] in Elems(b);
        assert forall k :: 0 <= k < |a| ==> c[..i][k] == a[k];
      }
    }
  }

  lemma WaveDeps(r: Rel, k: nat)
    ensures Wave(r, k) <= r.Keys && Wave(r, k) !! Done(r, k)
    ensures forall x {:trigger r[x]} :: x in Wave(r, k) ==> r[x] <= Done(r, k)
  {
  }

  /** Every emitted unit follows all of its deps. */
  lemma {:induction false} EmittedDepsFirst(r: Rel, k: nat)
    ensures DepsFirst(r, Emitted(r, k))
  {
    if k == 0 {
    } else {
      EmittedDepsFirst(r, k - 1);
      EmittedIsDone(r, k - 1);
      WaveDeps(r, k - 1);
      JoinDepsFirst(r, Emitted(r, k - 1), Listing(Wave(r, k - 1)), Wave(r, k - 1));
    }
  }

  /** The sorted tail is exactly what leads to a cycle. */
  lemma TailReachesCycle(r: Rel, n: Name)
    requires Closed(r) && n in r
    ensures n !in Done(r, |r|) <==> ReachesCycle(r, n)
  {
    var rest := r.Keys - Done(r, |r|);
    EmittedIsDone(r, |r|);
    if n in Done(r, |r|) {
      EmittedDepsFirst(r, |r|);
      DepsFirstNoCycle(r, Emitted(r, |r|), n);
    } else {
      DoneSettles(r, |r|);
      forall m | m in rest ensures r[m] * rest != {} {
        assert m !in Done(r, |r| + 1);
        var d :| d in r[m] && d !in Done(r, |r|);
        assert d in r[m] * rest;
      }
      Trapped(r, rest, n);
    }
  }

  /** The ordering is a permutation of the units. */
  lemma OrderingIsPermutation(r: Rel)
    ensures NoDup(Ordering(r)) && Elems(Ordering(r)) == r.Keys
  {
    var a, b := Emitted(r, |r|), Listing(r.Keys - Done(r, |r|));
    EmittedIsDone(r, |r|);
    EmittedDepsFirst(r, |r|);
    JoinNoDup(a, b);
    Joined(a, b);
  }

  /** Without cycles the ordering is topological, and there is no tail. */
  lemma OrderingTopological(r: Rel)
    requires Closed(r) && Acyclic(r)
    ensures IsTopo(r, Ordering(r))
  {
    forall n | n in r ensures n in Done(r, |r|) {
      TailReachesCycle(r, n);
      AcyclicNoLasso(r, n);
    }
    assert r.Keys - Done(r, |r|) == {};
    ListsUnique(Listing({}), [], {});
    assert Ordering(r) == Emitted(r, |r|);
    EmittedDepsFirst(r, |r|);
    EmittedIsDone(r, |r|);
  }

  /** A unit that leads to no cycle follows all of its deps, cycles elsewhere or not. */
  lemma OrderingDepsBefore(r: Rel, n: Name, i: nat)
    requires Closed(r) && i < |Ordering(r)| && Ordering(r)[i] == n
    requires n in r && !ReachesCycle(r, n)
    ensures r[n] <= Elems(Ordering(r)[..i])
  {
    var a := Emitted(r, |r|);
    TailReachesCycle(r, n);
    EmittedIsDone(r, |r|);
    EmittedDepsFirst(r, |r|);
    OrderingIsPermutation(r);
    assert n in Elems(a);
    var j :| 0 <= j < |a| && a[j] == n;
    assert Ordering(r)[j] == n;
    assert i == j;
    assert Ordering(r)[..i] == a[..i];
  }
}
