/**
 topoOrder of internal/starlark/closure.go: Kahn's algorithm emitted in sorted
 waves over already-resolved runtime deps, tolerant of cycles.
 */
module TopoOrder {
  import opened Names
  import opened Graph
  import opened Waves

  /** Of the deps listed, those that count for name: in the closure, and not itself. */
  function Relevant(ds: seq<Name>, keys: set<Name>, name: Name): set<Name> {
    Elems(ds) * keys - {name}
  }

  /** The edges that count: between two units of the closure, not from a unit to itself. */
  function Counted(deps: map<Name, seq<Name>>): Rel {
    map n | n in deps :: Relevant(deps[n], deps.Keys, n)
  }

  lemma CountedClosed(deps: map<Name, seq<Name>>)
    ensures Closed(Counted(deps)) && Counted(deps).Keys == deps.Keys
  {
  }

  // ---------------------------------------------------------------------
  // Building the in-degree and reverse tables
  // ---------------------------------------------------------------------

  /** rdeps[d] lists, once each, the units of `done` that depend on d. */
  ghost predicate Waiters(r: Rel, rdeps: map<Name, seq<Name>>, done: set<Name>) {
    && rdeps.Keys == r.Keys
    && (forall d {:trigger rdeps[d]} :: d in r ==> NoDup(rdeps[d]))
    && (forall d, n {:trigger n in rdeps[d]} :: d in r ==> (n in rdeps[d] <==> n in done && n in r && d in r[n]))
  }

  /** Waiters, with name's own entries made only for the deps counted so far. */
  ghost predicate WaitersUpTo(r: Rel, rdeps: map<Name, seq<Name>>, done: set<Name>, name: Name, counted: set<Name>) {
    && rdeps.Keys == r.Keys
    && (forall d {:trigger rdeps[d]} :: d in r ==> NoDup(rdeps[d]))
    && (forall d, n {:trigger n in rdeps[d]} :: d in r ==>
          (n in rdeps[d] <==> (n == name && d in counted) || (n in done && n in r && d in r[n])))
  }

  lemma AddWaiter(r: Rel, rdeps: map<Name, seq<Name>>, done: set<Name>, name: Name, counted: set<Name>, d: Name)
    requires WaitersUpTo(r, rdeps, done, name, counted) && d in r && d !in counted && name !in done
    ensures WaitersUpTo(r, rdeps[d := rdeps[d] + [name]], done, name, counted + {d})
  {
    Appended(rdeps[d], name);
    assert name !in rdeps[d];
    var rdeps' := rdeps[d := rdeps[d] + [name]];
    forall x, n | x in r
      ensures n in rdeps'[x] <==> (n == name && x in counted + {d}) || (n in done && n in r && x in r[n])
    {
      assert n in rdeps[x] <==> (n == name && x in counted) || (n in done && n in r && x in r[n]);
    }
  }

  lemma NoneCounted(r: Rel, rdeps: map<Name, seq<Name>>, done: set<Name>, name: Name)
    requires Waiters(r, rdeps, done)
    ensures WaitersUpTo(r, rdeps, done, name, {})
  {
  }

  lemma CountedGrows(ds: seq<Name>, i: nat, keys: set<Name>, name: Name)
    requires i < |ds|
    ensures Relevant(ds[..i + 1], keys, name) == Relevant(ds[..i], keys, name)
            + (if ds[i] != name && ds[i] in keys then {ds[i]} else {})
  {
    PrefixElems(ds, i);
  }

  lemma CountStep(r: Rel, ds: seq<Name>, i: nat, rdeps: map<Name, seq<Name>>, done: set<Name>, name: Name,
                  counted: set<Name>)
    requires i < |ds| && name !in done && counted == Relevant(ds[..i], r.Keys, name)
             && WaitersUpTo(r, rdeps, done, name, counted)
    ensures var d, grown := ds[i], Relevant(ds[..i + 1], r.Keys, name);
            if d != name && d !in counted && d in r
            then grown == counted + {d} && WaitersUpTo(r, rdeps[d := rdeps[d] + [name]], done, name, grown)
            else grown == counted
  {
    var d := ds[i];
    CountedGrows(ds, i, r.Keys, name);
    if d != name && d !in counted && d in r {
      AddWaiter(r, rdeps, done, name, counted, d);
    }
  }

  /** Count name's deps: a self-dep, a repeat or a dep outside the closure is passed over. */
  method CountDeps(deps: map<Name, seq<Name>>, name: Name, rdeps0: map<Name, seq<Name>>, ghost done: set<Name>)
    returns (indeg: nat, rdeps: map<Name, seq<Name>>)
    requires name in deps && name !in done && Waiters(Counted(deps), rdeps0, done)
    ensures indeg == |Counted(deps)[name]| && Waiters(Counted(deps), rdeps, done + {name})
  {
    ghost var r := Counted(deps);
    var ds := deps[name];
    var counted: set<Name> := {};
    indeg, rdeps := 0, rdeps0;
    NoneCounted(r, rdeps, done, name);
    for i := 0 to |ds|
      invariant counted == Relevant(ds[..i], deps.Keys, name) && indeg == |counted|
      invariant WaitersUpTo(r, rdeps, done, name, counted)
    {
      var d := ds[i];
      CountStep(r, ds, i, rdeps, done, name, counted);
      if d != name && d !in counted && d in deps {
        counted, indeg, rdeps := counted + {d}, indeg + 1, rdeps[d := rdeps[d] + [name]];
      }
    }
    assert ds[..|ds|] == ds;
    CountedAll(r, rdeps, done, name, counted);
  }

  lemma CountedAll(r: Rel, rdeps: map<Name, seq<Name>>, done: set<Name>, name: Name, counted: set<Name>)
    requires WaitersUpTo(r, rdeps, done, name, counted) && name in r && counted == r[name]
    ensures Waiters(r, rdeps, done + {name})
  {
    forall d, n | d in r ensures n in rdeps[d] <==> n in done + {name} && n in r && d in r[n] {
      assert n in rdeps[d] <==> (n == name && d in counted) || (n in done && n in r && d in r[n]);
    }
  }

  ghost predicate TablesFor(r: Rel, indeg: map<Name, nat>, rdeps: map<Name, seq<Name>>, done: set<Name>) {
    && indeg.Keys == done <= r.Keys
    && (forall n {:trigger indeg[n]} :: n in indeg ==> indeg[n] == |r[n]|)
    && Waiters(r, rdeps, done)
  }

  lemma TablesStart(r: Rel, rdeps: map<Name, seq<Name>>)
    requires rdeps == map n | n in r :: []
    ensures TablesFor(r, map[], rdeps, {})
  {
  }

  method AddTables(deps: map<Name, seq<Name>>, name: Name, indeg0: map<Name, nat>, rdeps0: map<Name, seq<Name>>)
    returns (indeg: map<Name, nat>, rdeps: map<Name, seq<Name>>)
    requires name in deps && name !in indeg0 && TablesFor(Counted(deps), indeg0, rdeps0, indeg0.Keys)
    ensures indeg.Keys == indeg0.Keys + {name}
    ensures TablesFor(Counted(deps), indeg, rdeps, indeg.Keys)
  {
    var k, rd := CountDeps(deps, name, rdeps0, indeg0.Keys);
    indeg, rdeps := indeg0[name := k], rd;
  }

  method BuildTables(deps: map<Name, seq<Name>>) returns (indeg: map<Name, nat>, rdeps: map<Name, seq<Name>>)
    ensures Outstanding(Counted(deps), indeg, {}) && Waiters(Counted(deps), rdeps, deps.Keys)
  {
    indeg, rdeps := map[], map n | n in deps :: [];
    TablesStart(Counted(deps), rdeps);
    while deps.Keys - indeg.Keys != {}
      invariant indeg.Keys <= deps.Keys && TablesFor(Counted(deps), indeg, rdeps, indeg.Keys)
      decreases deps.Keys - indeg.Keys
    {
      var name :| name in deps.Keys - indeg.Keys;
      indeg, rdeps := AddTables(deps, name, indeg, rdeps);
    }
    assert indeg.Keys == deps.Keys;
    CountedClosed(deps);
    TablesDone(Counted(deps), indeg, rdeps);
  }

  lemma TablesDone(r: Rel, indeg: map<Name, nat>, rdeps: map<Name, seq<Name>>)
    requires TablesFor(r, indeg, rdeps, r.Keys)
    ensures Outstanding(r, indeg, {}) && Waiters(r, rdeps, r.Keys)
  {
    forall n | n in indeg ensures indeg[n] == |r[n] - {}| {
      assert r[n] - {} == r[n];
    }
  }

  // ---------------------------------------------------------------------
  // Releasing a wave
  // ---------------------------------------------------------------------

  /** Each in-degree counts the deps not yet released. */
  ghost predicate Outstanding(r: Rel, indeg: map<Name, nat>, released: set<Name>) {
    && indeg.Keys == r.Keys
    && (forall n {:trigger indeg[n]} :: n in indeg ==> indeg[n] == |r[n] - released|)
  }

  /** x is being released: those of `told` have heard. */
  ghost predicate Releasing(r: Rel, indeg: map<Name, nat>, released: set<Name>, x: Name, told: set<Name>) {
    && indeg.Keys == r.Keys
    && (forall n {:trigger indeg[n]} :: n in indeg ==>
          indeg[n] == |r[n] - (if n in told then released + {x} else released)|)
  }

  /** next holds, once each, the units whose last dep was among those released since `before`. */
  ghost predicate Freed(r: Rel, next: seq<Name>, before: set<Name>, indeg: map<Name, nat>)
    requires indeg.Keys == r.Keys
  {
    NoDup(next) && forall n {:trigger n in next} :: n in next <==> n in r && indeg[n] == 0 && !(r[n] <= before)
  }

  lemma DropOne(s: set<Name>, released: set<Name>, x: Name)
    requires x in s && x !in released
    ensures |s - (released + {x})| == |s - released| - 1
  {
    assert s - (released + {x}) == (s - released) - {x};
  }

  method Tell(ghost r: Rel, x: Name, n: Name, ghost released: set<Name>, ghost before: set<Name>, ghost told: set<Name>,
              indeg0: map<Name, nat>, next0: seq<Name>)
    returns (indeg: map<Name, nat>, next: seq<Name>)
    requires Releasing(r, indeg0, released, x, told) && Freed(r, next0, before, indeg0)
    requires n in r && x in r[n] && n !in told && x !in released && before <= released
    ensures Releasing(r, indeg, released, x, told + {n}) && Freed(r, next, before, indeg)
  {
    assert indeg0[n] == |r[n] - released|;
    DropOne(r[n], released, x);
    indeg, next := indeg0[n := indeg0[n] - 1], next0;
    assert n !in next0;
    if indeg[n] == 0 {
      Appended(next, n);
      next := next + [n];
      assert x !in before;
    }
  }

  /** Everyone waiting on x hears that it is out. */
  method TellAll(ghost r: Rel, rd: seq<Name>, x: Name, ghost released: set<Name>, ghost before: set<Name>,
                 indeg0: map<Name, nat>, next0: seq<Name>)
    returns (indeg: map<Name, nat>, next: seq<Name>)
    requires Outstanding(r, indeg0, released) && Freed(r, next0, before, indeg0)
    requires x !in released && before <= released && NoDup(rd)
    requires forall n {:trigger n in rd} :: n in rd <==> n in r && x in r[n]
    ensures Outstanding(r, indeg, released + {x}) && Freed(r, next, before, indeg)
  {
    indeg, next := indeg0, next0;
    for i := 0 to |rd|
      invariant Releasing(r, indeg, released, x, Elems(rd[..i])) && Freed(r, next, before, indeg)
    {
      assert rd[i] in rd && rd[i] !in Elems(rd[..i]);
      PrefixElems(rd, i);
      indeg, next := Tell(r, x, rd[i], released, before, Elems(rd[..i]), indeg, next);
    }
    assert rd[..|rd|] == rd;
    AllTold(r, rd, x, released, indeg);
  }

  lemma AllTold(r: Rel, rd: seq<Name>, x: Name, released: set<Name>, indeg: map<Name, nat>)
    requires Releasing(r, indeg, released, x, Elems(rd))
    requires forall n {:trigger n in rd} :: n in rd <==> n in r && x in r[n]
    ensures Outstanding(r, indeg, released + {x})
  {
    forall n | n in indeg ensures indeg[n] == |r[n] - (released + {x})| {
      if n !in Elems(rd) {
        assert n !in rd;
        assert r[n] - (released + {x}) == r[n] - released;
      }
    }
  }

  /** Release a whole wave; the units it frees are the next wave. */
  method ReleaseWave(ghost r: Rel, rdeps: map<Name, seq<Name>>, ready: seq<Name>, ghost before: set<Name>,
                     indeg0: map<Name, nat>)
    returns (indeg: map<Name, nat>, next: seq<Name>)
    requires Waiters(r, rdeps, r.Keys) && Outstanding(r, indeg0, before)
    requires NoDup(ready) && Elems(ready) <= r.Keys && Elems(ready) !! before
    ensures Outstanding(r, indeg, before + Elems(ready)) && Freed(r, next, before, indeg)
  {
    indeg, next := indeg0, [];
    FreedNone(r, before, indeg);
    assert before + Elems(ready[..0]) == before;
    for i := 0 to |ready|
      invariant Outstanding(r, indeg, before + Elems(ready[..i])) && Freed(r, next, before, indeg)
    {
      Unreleased(before, ready, i);
      assert ready[i] in Elems(ready);
      indeg, next := ReleaseUnit(r, rdeps, ready[i], before + Elems(ready[..i]), before, indeg, next);
    }
    assert ready[..|ready|] == ready;
  }

  lemma Unreleased(before: set<Name>, ready: seq<Name>, i: nat)
    requires i < |ready| && NoDup(ready) && Elems(ready) !! before
    ensures before + Elems(ready[..i + 1]) == before + Elems(ready[..i]) + {ready[i]}
    ensures ready[i] !in before + Elems(ready[..i])
  {
    PrefixElems(ready, i);
    assert ready[i] in Elems(ready);
  }

  method ReleaseUnit(ghost r: Rel, rdeps: map<Name, seq<Name>>, x: Name, ghost released: set<Name>,
                     ghost before: set<Name>,
                     indeg0: map<Name, nat>, next0: seq<Name>)
    returns (indeg: map<Name, nat>, next: seq<Name>)
    requires Waiters(r, rdeps, r.Keys) && x in r && x !in released && before <= released
    requires Outstanding(r, indeg0, released) && Freed(r, next0, before, indeg0)
    ensures Outstanding(r, indeg, released + {x}) && Freed(r, next, before, indeg)
  {
    WaitersOf(r, rdeps, x);
    indeg, next := TellAll(r, rdeps[x], x, released, before, indeg0, next0);
  }

  lemma WaitersOf(r: Rel, rdeps: map<Name, seq<Name>>, x: Name)
    requires Waiters(r, rdeps, r.Keys) && x in r
    ensures NoDup(rdeps[x])
    ensures forall n {:trigger n in rdeps[x]} :: n in rdeps[x] <==> n in r && x in r[n]
  {
  }

  lemma ZeroMeansReleased(s: set<Name>, released: set<Name>)
    ensures |s - released| == 0 <==> s <= released
  {
    assert |s - released| == 0 <==> s - released == {};
    if s - released == {} {
      forall x | x in s ensures x in released {
        assert x !in s - released;
      }
    }
  }

  lemma FreedNone(r: Rel, before: set<Name>, indeg: map<Name, nat>)
    requires Outstanding(r, indeg, before)
    ensures Freed(r, [], before, indeg)
  {
    forall n | n in r && indeg[n] == 0 ensures r[n] <= before {
      ZeroMeansReleased(r[n], before);
    }
  }

  lemma InWave(r: Rel, k: nat, n: Name)
    ensures n in Wave(r, k + 1) <==> n in r && r[n] <= Done(r, k + 1) && !(r[n] <= Done(r, k))
  {
    assert Done(r, k + 2) == set m | m in r && r[m] <= Done(r, k + 1);
    assert Done(r, k + 1) == set m | m in r && r[m] <= Done(r, k);
  }

  /** What a released wave frees is the wave after it. */
  lemma FreedIsNextWave(r: Rel, k: nat, next: seq<Name>, indeg: map<Name, nat>)
    requires Outstanding(r, indeg, Done(r, k + 1)) && Freed(r, next, Done(r, k), indeg)
    ensures Elems(next) == Wave(r, k + 1)
  {
    forall n ensures n in Elems(next) <==> n in Wave(r, k + 1) {
      assert n in Elems(next) <==> n in next;
      InWave(r, k, n);
      if n in r {
        assert indeg[n] == |r[n] - Done(r, k + 1)|;
        ZeroMeansReleased(r[n], Done(r, k + 1));
      }
    }
  }

  lemma FirstWave(r: Rel, indeg: map<Name, nat>)
    requires Outstanding(r, indeg, {})
    ensures (set n | n in indeg && indeg[n] == 0) == Wave(r, 0)
  {
    forall n | n in indeg ensures indeg[n] == 0 <==> n in Wave(r, 0) {
      ZeroMeansReleased(r[n], {});
    }
  }

  /** The order is a function of the deps alone, whatever order the maps are ranged over. */
  method TopoOrder(deps: map<Name, seq<Name>>) returns (ordered: seq<Name>)
    ensures ordered == Ordering(Counted(deps))
  {
    var indeg, rdeps := BuildTables(deps);
    FirstWave(Counted(deps), indeg);
    var ready := SortedKeys(set n | n in indeg && indeg[n] == 0);
    ordered := EmitWaves(Counted(deps), rdeps, ready, indeg);
    if |ordered| < |deps| {
      var stuck := SortedKeys(set n | n in deps && n !in ordered);
      Remainder(deps, ordered, stuck);
      ordered := ordered + stuck;
    } else {
      NoRemainder(deps, ordered);
    }
  }

  method EmitWaves(ghost r: Rel, rdeps: map<Name, seq<Name>>, ready0: seq<Name>, indeg0: map<Name, nat>)
    returns (ordered: seq<Name>)
    requires Waiters(r, rdeps, r.Keys) && AtWave(r, 0, ready0, [], indeg0)
    ensures ordered == Emitted(r, |r|)
  {
    var ready, indeg := ready0, indeg0;
    ordered := [];
    ghost var k: nat := 0;
    while ready != []
      invariant AtWave(r, k, ready, ordered, indeg)
      decreases r.Keys - Done(r, k)
    {
      ordered, ready, indeg := EmitWave(r, k, rdeps, ready, ordered, indeg);
      k := k + 1;
    }
    Settled(r, k);
  }

  ghost predicate AtWave(r: Rel, k: nat, ready: seq<Name>, ordered: seq<Name>, indeg: map<Name, nat>) {
    Lists(ready, Wave(r, k)) && ordered == Emitted(r, k) && Outstanding(r, indeg, Done(r, k))
  }

  method EmitWave(ghost r: Rel, ghost k: nat, rdeps: map<Name, seq<Name>>, ready0: seq<Name>, ordered0: seq<Name>,
                  indeg0: map<Name, nat>)
    returns (ordered: seq<Name>, ready: seq<Name>, indeg: map<Name, nat>)
    requires Waiters(r, rdeps, r.Keys) && AtWave(r, k, ready0, ordered0, indeg0) && ready0 != []
    ensures AtWave(r, k + 1, ready, ordered, indeg) && Done(r, k) < Done(r, k + 1)
  {
    NextWave(r, k, ready0);
    ordered := ordered0 + ready0;
    var next;
    indeg, next := ReleaseWave(r, rdeps, ready0, Done(r, k), indeg0);
    FreedIsNextWave(r, k, next, indeg);
    ready := SortStrings(next);
    PermutationFacts(ready, next);
  }

  lemma NextWave(r: Rel, k: nat, ready: seq<Name>)
    requires Lists(ready, Wave(r, k)) && ready != []
    ensures Done(r, k) + Elems(ready) == Done(r, k + 1) && Done(r, k) < Done(r, k + 1)
    ensures Emitted(r, k) + ready == Emitted(r, k + 1)
  {
    DoneGrows(r, k);
    assert ready[0] in Elems(ready);
    ListsUnique(ready, Listing(Wave(r, k)), Wave(r, k));
  }

  /** An empty wave is the last one. */
  lemma Settled(r: Rel, k: nat)
    requires Wave(r, k) == {}
    ensures Done(r, k) == Done(r, |r|) && Emitted(r, k) == Emitted(r, |r|)
  {
    DoneGrows(r, k);
    assert Done(r, k + 1) == Done(r, k) + Wave(r, k);
    if k <= |r| {
      EmittedStable(r, k, |r|);
      DoneStable(r, k, |r|);
    } else {
      DoneSettles(r, |r|);
      EmittedStable(r, |r|, k);
      DoneSettles(r, k);
    }
  }

  lemma {:induction false} EmittedStable(r: Rel, j: nat, k: nat)
    requires j <= k && Done(r, j) == Done(r, j + 1)
    ensures Emitted(r, k) == Emitted(r, j)
    decreases k
  {
    if j < k {
      EmittedStable(r, j, k - 1);
      DoneStable(r, j, k - 1);
      assert Wave(r, k - 1) == {};
      ListsUnique(Listing({}), [], {});
    }
  }

  lemma Remainder(deps: map<Name, seq<Name>>, ordered: seq<Name>, stuck: seq<Name>)
    requires ordered == Emitted(Counted(deps), |Counted(deps)|)
    requires Lists(stuck, set n | n in deps && n !in ordered)
    ensures ordered + stuck == Ordering(Counted(deps))
  {
    var r := Counted(deps);
    EmittedIsDone(r, |r|);
    var rest := r.Keys - Done(r, |r|);
    forall n ensures n in rest <==> n in deps && n !in ordered {
      assert n in Elems(ordered) <==> n in ordered;
    }
    assert (set n | n in deps && n !in ordered) == rest;
    ListsUnique(stuck, Listing(rest), rest);
  }

  lemma NoRemainder(deps: map<Name, seq<Name>>, ordered: seq<Name>)
    requires ordered == Emitted(Counted(deps), |Counted(deps)|) && |ordered| >= |deps|
    ensures ordered == Ordering(Counted(deps))
  {
    var r := Counted(deps);
    CountedClosed(deps);
    EmittedIsDone(r, |r|);
    EmittedDepsFirst(r, |r|);
    NoDupSize(ordered);
    SubsetSize(Done(r, |r|), r.Keys);
    assert |r.Keys| == |deps.Keys| == |deps|;
    assert r.Keys - Done(r, |r|) == {};
    ListsUnique(Listing({}), [], {});
  }
}
