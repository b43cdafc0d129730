/**
 Unit registration (internal/starlark/builtins.go): name collisions between
 modules, the flat and per-module catalogs, and the record of shadowed units.
 */
module Register {
  import opened Names
  import opened Catalogs

  datatype Shadow = Shadow(unit: Name, winnerModule: Name, winnerDir: Name, loserModule: Name, loserDir: Name)

  datatype Registry = Registry(units: map<Name, Unit>, byModule: ByModule, shadows: seq<Shadow>)

  datatype Outcome = Accepted(state: Registry) | Duplicate(unit: Name)

  const EMPTY := Registry(map[], map[], [])

  /** Tagged for two different distros, so never in one closure. */
  predicate CrossDistro(a: Unit, b: Unit) {
    a.distro != "" && b.distro != "" && a.distro != b.distro
  }

  function ShadowOf(n: Name, winner: Unit, loser: Unit): Shadow {
    Shadow(n, winner.moduleName, winner.definedIn, loser.moduleName, loser.definedIn)
  }

  /** One registration. */
  function Registered(s: Registry, r: Unit): Outcome {
    if r.name !in s.units then
      Accepted(Registry(s.units[r.name := r], Store(s.byModule, r), s.shadows))
    else
      var e := s.units[r.name];
      if CrossDistro(r, e) then Accepted(s.(byModule := Store(s.byModule, r)))
      else if r.moduleIndex == e.moduleIndex then Duplicate(r.name)
      else if r.moduleIndex < e.moduleIndex then Accepted(s.(shadows := s.shadows + [ShadowOf(r.name, e, r)]))
      else Accepted(Registry(s.units[r.name := r], Store(s.byModule, r), s.shadows + [ShadowOf(r.name, r, e)]))
  }

  /** A run of registrations, of any names, stopping at the first that is refused. */
  function Run(us: seq<Unit>): Outcome {
    if us == [] then Accepted(EMPTY)
    else
      var before := Run(us[..|us| - 1]);
      if before.Duplicate? then before else Registered(before.state, us[|us| - 1])
  }

  // ---------------------------------------------------------------------
  // What a run leaves
  // ---------------------------------------------------------------------

  /** No two registrations of the name are tagged for different distros. */
  ghost predicate OneDistro(us: seq<Unit>, n: Name) {
    forall i, j :: 0 <= i < |us| && 0 <= j < |us| && us[i].name == n && us[j].name == n ==> !CrossDistro(us[i], us[j])
  }

  /** Who registered the name, with multiplicity. */
  function Registrants(us: seq<Unit>, n: Name): multiset<(Name, Name)> {
    if us == [] then multiset{}
    else
      var u := us[|us| - 1];
      Registrants(us[..|us| - 1], n) + (if u.name == n then multiset{(u.moduleName, u.definedIn)} else multiset{})
  }

  /** Who lost the name in a shadow event, with multiplicity. */
  function Losers(es: seq<Shadow>, n: Name): multiset<(Name, Name)> {
    if es == [] then multiset{}
    else
      var e := es[|es| - 1];
      Losers(es[..|es| - 1], n) + (if e.unit == n then multiset{(e.loserModule, e.loserDir)} else multiset{})
  }

  lemma LosersAppend(es: seq<Shadow>, e: Shadow, n: Name)
    ensures Losers(es + [e], n) == Losers(es, n)
            + (if e.unit == n then multiset{(e.loserModule, e.loserDir)} else multiset{})
  {
    assert (es + [e])[..|es|] == es;
  }

  /** w is the registration of n that holds the flat slot. */
  ghost predicate Winner(us: seq<Unit>, n: Name, w: Unit) {
    && w in us && w.name == n
    && forall i :: 0 <= i < |us| && us[i].name == n ==> us[i].moduleIndex <= w.moduleIndex
  }

  ghost predicate Settled(us: seq<Unit>, n: Name, s: Registry) {
    && (n in s.units <==> exists i :: 0 <= i < |us| && us[i].name == n)
    && (n !in s.units ==> Registrants(us, n) == multiset{} == Losers(s.shadows, n))
    && (n in s.units ==>
          var w := s.units[n];
          && Winner(us, n, w)
          && Has(s.byModule, w.moduleName, n) && s.byModule[w.moduleName][n] == w
          && Losers(s.shadows, n) + multiset{(w.moduleName, w.definedIn)} == Registrants(us, n))
  }

  /** The flat catalog holds the highest-priority registration, filed under its own module too; all the others are
      losers of exactly one shadow event each. */
  lemma {:induction false} RunSettles(us: seq<Unit>, n: Name)
    requires Run(us).Accepted? && OneDistro(us, n)
    ensures Settled(us, n, Run(us).state)
    decreases |us|
  {
    if us == [] {
    } else {
      var earlier, r := us[..|us| - 1], us[|us| - 1];
      assert us == earlier + [r];
      assert OneDistro(earlier, n) by {
        assert forall i :: 0 <= i < |earlier| ==> us[i] == earlier[i];
      }
      RunSettles(earlier, n);
      if r.name != n {
        SettleOther(earlier, r, n, Run(earlier).state);
      } else if n in Run(earlier).state.units {
        SettleCollision(earlier, r, Run(earlier).state);
      } else {
        SettleFirst(earlier, r, Run(earlier).state);
      }
    }
  }

  lemma RegistrantsAppend(us: seq<Unit>, r: Unit, n: Name)
    ensures Registrants(us + [r], n) ==
            Registrants(us, n) + (if r.name == n then multiset{(r.moduleName, r.definedIn)} else multiset{})
  {
    assert (us + [r])[..|us|] == us;
  }

  /** The registrations of n after one more. */
  lemma NamedAfter(us: seq<Unit>, r: Unit, n: Name)
    ensures (exists i :: 0 <= i < |us + [r]| && (us + [r])[i].name == n) <==>
            r.name == n || exists i :: 0 <= i < |us| && us[i].name == n
  {
    var t := us + [r];
    assert t[|us|] == r;
    if i :| 0 <= i < |us| && us[i].name == n { assert t[i].name == n; }
    if i :| 0 <= i < |t| && t[i].name == n { assert i < |us| ==> us[i].name == n; }
  }

  lemma SettleOther(us: seq<Unit>, r: Unit, n: Name, s: Registry)
    requires Settled(us, n, s) && r.name != n && Registered(s, r).Accepted?
    ensures Settled(us + [r], n, Registered(s, r).state)
  {
    OtherName(s, r, n);
    RegistrantsAppend(us, r, n);
    NamedAfter(us, r, n);
  }

  lemma SettleFirst(us: seq<Unit>, r: Unit, s: Registry)
    requires Settled(us, r.name, s) && r.name !in s.units
    ensures Settled(us + [r], r.name, Registered(s, r).state)
  {
    RegistrantsAppend(us, r, r.name);
    NamedAfter(us, r, r.name);
    StoreHas(s.byModule, r, r.moduleName, r.name);
    assert (us + [r])[|us|] == r;
  }

  lemma SettleCollision(us: seq<Unit>, r: Unit, s: Registry)
    requires Settled(us, r.name, s) && r.name in s.units && Registered(s, r).Accepted? && OneDistro(us + [r], r.name)
    ensures Settled(us + [r], r.name, Registered(s, r).state)
  {
    var e, t := s.units[r.name], us + [r];
    var x :| 0 <= x < |us| && us[x] == e;
    assert t[x] == e && t[|us|] == r && !CrossDistro(t[|us|], t[x]);
    NamedAfter(us, r, r.name);
    if r.moduleIndex < e.moduleIndex {
      SettleLoser(us, r, s, e);
    } else {
      SettleWinner(us, r, s, e);
    }
  }

  lemma SettleLoser(us: seq<Unit>, r: Unit, s: Registry, e: Unit)
    requires Settled(us, r.name, s) && r.name in s.units && e == s.units[r.name] && r.moduleIndex < e.moduleIndex
    ensures Settled(us + [r], r.name, s.(shadows := s.shadows + [ShadowOf(r.name, e, r)]))
  {
    RegistrantsAppend(us, r, r.name);
    NamedAfter(us, r, r.name);
    LosersAppend(s.shadows, ShadowOf(r.name, e, r), r.name);
  }

  lemma SettleWinner(us: seq<Unit>, r: Unit, s: Registry, e: Unit)
    requires Settled(us, r.name, s) && r.name in s.units && e == s.units[r.name] && r.moduleIndex > e.moduleIndex
    ensures Settled(us + [r], r.name,
                    Registry(s.units[r.name := r], Store(s.byModule, r), s.shadows + [ShadowOf(r.name, r, e)]))
  {
    RegistrantsAppend(us, r, r.name);
    NamedAfter(us, r, r.name);
    LosersAppend(s.shadows, ShadowOf(r.name, r, e), r.name);
    StoreHas(s.byModule, r, r.moduleName, r.name);
    assert (us + [r])[|us|] == r;
  }

  /** Registering another name touches nothing of this one. */
  lemma OtherName(s: Registry, r: Unit, n: Name)
    requires r.name != n && Registered(s, r).Accepted?
    ensures var s' := Registered(s, r).state;
            && (n in s'.units <==> n in s.units) && (n in s.units ==> s'.units[n] == s.units[n])
            && Losers(s'.shadows, n) == Losers(s.shadows, n)
            && (forall m :: Has(s'.byModule, m, n) <==> Has(s.byModule, m, n))
            && (forall m :: Has(s.byModule, m, n) ==> s'.byModule[m][n] == s.byModule[m][n])
  {
    forall m ensures Has(Store(s.byModule, r), m, n) <==> Has(s.byModule, m, n)
             ensures Has(s.byModule, m, n) ==> Store(s.byModule, r)[m][n] == s.byModule[m][n]
    {
      StoreHas(s.byModule, r, m, n);
    }
    if r.name in s.units {
      LosersAppend(s.shadows, ShadowOf(r.name, s.units[r.name], r), n);
      LosersAppend(s.shadows, ShadowOf(r.name, r, s.units[r.name]), n);
    }
  }

  // ---------------------------------------------------------------------
  // Which runs are refused
  // ---------------------------------------------------------------------

  /** Registration k ties with the best earlier one of its name. */
  ghost predicate TiesWithBest(us: seq<Unit>, k: nat)
    requires k < |us|
  {
    exists j :: 0 <= j < k && us[j].name == us[k].name && us[j].moduleIndex == us[k].moduleIndex
      && forall i :: 0 <= i < k && us[i].name == us[k].name ==> us[i].moduleIndex <= us[j].moduleIndex
  }

  /** Without cross-distro names, a run is refused exactly when some registration ties with the best before it. */
  lemma {:induction false} RefusedIffTie(us: seq<Unit>)
    requires forall i :: 0 <= i < |us| ==> OneDistro(us, us[i].name)
    ensures Run(us).Duplicate? <==> exists k :: 0 <= k < |us| && TiesWithBest(us, k)
    decreases |us|
  {
    if us == [] {
    } else {
      var k := |us| - 1;
      OneDistroBefore(us, k);
      RefusedIffTie(us[..k]);
      TiesBefore(us, us[..k]);
      if Run(us[..k]).Accepted? { LastRefused(us); }
    }
  }

  lemma OneDistroBefore(us: seq<Unit>, k: nat)
    requires k <= |us| && forall i :: 0 <= i < |us| ==> OneDistro(us, us[i].name)
    ensures forall i :: 0 <= i < k ==> OneDistro(us[..k], us[..k][i].name)
  {
    forall i | 0 <= i < k ensures OneDistro(us[..k], us[..k][i].name) {
      assert OneDistro(us, us[i].name);
    }
  }

  /** A tie in a run is the last registration's, or one of the run before it. */
  lemma TiesBefore(us: seq<Unit>, earlier: seq<Unit>)
    requires us != [] && earlier == us[..|us| - 1]
    ensures (exists k :: 0 <= k < |us| && TiesWithBest(us, k)) <==>
            TiesWithBest(us, |us| - 1) || exists k :: 0 <= k < |earlier| && TiesWithBest(earlier, k)
  {
    forall j | 0 <= j < |earlier| ensures TiesWithBest(earlier, j) <==> TiesWithBest(us, j) {
      TieInPrefix(us, earlier, j);
    }
  }

  lemma LastRefused(us: seq<Unit>)
    requires us != [] && Run(us[..|us| - 1]).Accepted? && OneDistro(us, us[|us| - 1].name)
    ensures Run(us).Duplicate? <==> TiesWithBest(us, |us| - 1)
  {
    var k := |us| - 1;
    assert forall i :: 0 <= i < k ==> us[i] == us[..k][i];
    assert OneDistro(us[..k], us[k].name);
    RunSettles(us[..k], us[k].name);
    LastTies(us, Run(us[..k]).state);
  }

  lemma TieInPrefix(us: seq<Unit>, earlier: seq<Unit>, j: nat)
    requires j < |earlier| < |us| && earlier == us[..|earlier|]
    ensures TiesWithBest(earlier, j) <==> TiesWithBest(us, j)
  {
    assert forall i :: 0 <= i <= j ==> earlier[i] == us[i];
    if TiesWithBest(us, j) {
      var x :| 0 <= x < j && us[x].name == us[j].name && us[x].moduleIndex == us[j].moduleIndex
        && forall i :: 0 <= i < j && us[i].name == us[j].name ==> us[i].moduleIndex <= us[x].moduleIndex;
      assert earlier[x] == us[x];
    }
    if TiesWithBest(earlier, j) {
      var x :| 0 <= x < j && earlier[x].name == earlier[j].name && earlier[x].moduleIndex == earlier[j].moduleIndex
        && forall i :: 0 <= i < j && earlier[i].name == earlier[j].name ==>
              earlier[i].moduleIndex <= earlier[x].moduleIndex;
      assert earlier[x] == us[x];
    }
  }

  lemma LastTies(us: seq<Unit>, s: Registry)
    requires us != [] && OneDistro(us, us[|us| - 1].name)
    requires Settled(us[..|us| - 1], us[|us| - 1].name, s)
    ensures Registered(s, us[|us| - 1]).Duplicate? <==> TiesWithBest(us, |us| - 1)
  {
    var k := |us| - 1;
    var earlier, r := us[..k], us[k];
    assert forall i :: 0 <= i < k ==> us[i] == earlier[i];
    if r.name in s.units {
      var e := s.units[r.name];
      var x :| 0 <= x < |earlier| && earlier[x] == e;
      assert us[x] == e && us[k] == r && !CrossDistro(us[k], us[x]);
    }
  }

  /** Where priorities are distinct, nothing is refused, and the winner of a name depends only on which units were
      registered. */
  lemma WinnerIgnoresOrder(us: seq<Unit>, vs: seq<Unit>, n: Name)
    requires multiset(us) == multiset(vs)
    requires forall i, j :: 0 <= i < j < |us| && us[i].name == us[j].name ==> us[i].moduleIndex != us[j].moduleIndex
    requires forall i, j :: 0 <= i < j < |us| && us[i].name == us[j].name ==> !CrossDistro(us[i], us[j])
    ensures Run(us).Accepted? && Run(vs).Accepted?
    ensures n in Run(us).state.units <==> n in Run(vs).state.units
    ensures n in Run(us).state.units ==> Run(us).state.units[n] == Run(vs).state.units[n]
  {
    DistinctAccepted(us);
    forall i, j | 0 <= i < j < |vs| && vs[i].name == vs[j].name
      ensures vs[i].moduleIndex != vs[j].moduleIndex && !CrossDistro(vs[i], vs[j])
    {
      TwoPlaces(us, vs, i, j);
    }
    DistinctAccepted(vs);
    RunSettles(us, n);
    RunSettles(vs, n);
    forall u ensures u in us <==> u in vs {
      assert u in us <==> u in multiset(us);
      assert u in vs <==> u in multiset(vs);
    }
    if n in Run(us).state.units {
      SameWinner(us, vs, n, Run(us).state.units[n], Run(vs).state.units[n]);
    }
  }

  lemma SameWinner(us: seq<Unit>, vs: seq<Unit>, n: Name, a: Unit, b: Unit)
    requires forall u :: u in us <==> u in vs
    requires forall i, j :: 0 <= i < j < |us| && us[i].name == us[j].name ==> us[i].moduleIndex != us[j].moduleIndex
    requires Winner(us, n, a) && Winner(vs, n, b)
    ensures a == b
  {
    var i :| 0 <= i < |us| && us[i] == a;
    assert b in us && a in vs;
    var j :| 0 <= j < |us| && us[j] == b;
    var k :| 0 <= k < |vs| && vs[k] == a;
  }

  lemma DistinctNeverTies(us: seq<Unit>, k: nat)
    requires k < |us|
    requires forall i, j :: 0 <= i < j < |us| && us[i].name == us[j].name ==> us[i].moduleIndex != us[j].moduleIndex
    ensures !TiesWithBest(us, k)
  {
  }

  lemma PairsAreOneDistro(us: seq<Unit>, n: Name)
    requires forall i, j :: 0 <= i < j < |us| && us[i].name == us[j].name ==> !CrossDistro(us[i], us[j])
    ensures OneDistro(us, n)
  {
    forall i, j | 0 <= i < |us| && 0 <= j < |us| && us[i].name == n && us[j].name == n
      ensures !CrossDistro(us[i], us[j])
    {
      if i > j { assert !CrossDistro(us[j], us[i]); }
    }
  }

  lemma DistinctAccepted(us: seq<Unit>)
    requires forall i, j :: 0 <= i < j < |us| && us[i].name == us[j].name ==> us[i].moduleIndex != us[j].moduleIndex
    requires forall i, j :: 0 <= i < j < |us| && us[i].name == us[j].name ==> !CrossDistro(us[i], us[j])
    ensures Run(us).Accepted?
    ensures forall n :: OneDistro(us, n)
  {
    forall n ensures OneDistro(us, n) { PairsAreOneDistro(us, n); }
    forall k | 0 <= k < |us| ensures !TiesWithBest(us, k) { DistinctNeverTies(us, k); }
    RefusedIffTie(us);
  }

  /** Two places of a permutation are two places of the original. */
  lemma TwoPlaces(us: seq<Unit>, vs: seq<Unit>, i: nat, j: nat)
    requires multiset(us) == multiset(vs) && i < j < |vs|
    ensures exists a, b ::
              && 0 <= a < b < |us|
              && ((us[a] == vs[i] && us[b] == vs[j]) || (us[a] == vs[j] && us[b] == vs[i]))
  {
    var x, y := vs[i], vs[j];
    assert x in multiset(us) && y in multiset(us);
    var a :| 0 <= a < |us| && us[a] == x;
    if x != y {
      var b :| 0 <= b < |us| && us[b] == y;
      if a > b { assert us[b] == y && us[a] == x; }
    } else {
      TwiceAmong(vs, x, i, j);
      SecondPlace(us, x, a);
    }
  }

  lemma TwiceAmong(vs: seq<Unit>, x: Unit, i: nat, j: nat)
    requires i < j < |vs| && vs[i] == x && vs[j] == x
    ensures multiset(vs)[x] >= 2
  {
    var p, q := vs[..j], vs[j..];
    assert vs == p + q && x == p[i] && x == q[0];
    assert multiset(vs)[x] == multiset(p)[x] + multiset(q)[x];
  }

  lemma SecondPlace(us: seq<Unit>, x: Unit, a: nat)
    requires a < |us| && us[a] == x && multiset(us)[x] >= 2
    ensures exists b :: 0 <= b < |us| && b != a && us[b] == x
  {
    var l, r := us[..a], us[a + 1..];
    assert us == l + [us[a]] + r;
    assert multiset(us)[x] == multiset(l)[x] + 1 + multiset(r)[x];
    if x in l {
      var b :| 0 <= b < |l| && l[b] == x;
      assert us[b] == x;
    } else {
      assert x in r;
      var b :| 0 <= b < |r| && r[b] == x;
      assert us[a + 1 + b] == x;
    }
  }

  // ---------------------------------------------------------------------
  // What the per-module catalog does not keep
  // ---------------------------------------------------------------------

  /** Registration i outranks every earlier one of its name. */
  ghost predicate RunningBest(us: seq<Unit>, i: nat)
    requires i < |us|
  {
    forall j :: 0 <= j < i && us[j].name == us[i].name ==> us[j].moduleIndex < us[i].moduleIndex
  }

  lemma SameRunningBest(us: seq<Unit>, k: nat, i: nat)
    requires i < k <= |us|
    ensures RunningBest(us[..k], i) <==> RunningBest(us, i)
  {
    assert forall j :: 0 <= j < k ==> us[j] == us[..k][j];
  }

  /** A module's unit is filed in the per-module catalog exactly when no better one was registered before it. */
  lemma {:induction false} FiledIffRunningBest(us: seq<Unit>, n: Name, i: nat)
    requires Run(us).Accepted? && OneDistro(us, n) && i < |us| && us[i].name == n
    requires forall j, k :: 0 <= j < k < |us| && us[j].name == n && us[k].name == n ==>
             us[j].moduleName != us[k].moduleName
    ensures Has(Run(us).state.byModule, us[i].moduleName, n) <==> RunningBest(us, i)
    decreases |us|
  {
    var k := |us| - 1;
    var earlier, r := us[..k], us[k];
    assert forall j :: 0 <= j < k ==> us[j] == earlier[j];
    assert OneDistro(earlier, n);
    var s := Run(earlier).state;
    StoreHas(s.byModule, r, us[i].moduleName, n);
    if i < k {
      FiledIffRunningBest(earlier, n, i);
      SameRunningBest(us, k, i);
      assert r.name == n ==> r.moduleName != us[i].moduleName;
    } else {
      NotFiledYet(earlier, n, r.moduleName);
      FiledLast(us);
    }
  }

  lemma RunThree(a: Unit, b: Unit, c: Unit)
    requires Registered(EMPTY, a).Accepted? && Registered(Registered(EMPTY, a).state, b).Accepted?
    ensures Run([a]) == Registered(EMPTY, a) && Run([a, b]) == Registered(Run([a]).state, b)
    ensures Run([a, b, c]) == Registered(Run([a, b]).state, c)
  {
    assert [a, b, c][..2] == [a, b] && [a, b][..1] == [a] && [a][..0] == [];
  }

  /** Three modules with a name, two of them of one priority: whether the run is refused depends on the order. */
  lemma TieDependsOnOrder(x: Unit, y: Unit, z: Unit)
    requires x.name == y.name == z.name && x.distro == y.distro == z.distro
    requires x.moduleIndex == y.moduleIndex == 1 && z.moduleIndex == 2
    ensures multiset([z, x, y]) == multiset([x, y, z]) && Run([z, x, y]).Accepted? && Run([x, y, z]).Duplicate?
  {
    RunThree(z, x, y);
    assert [x, y, z][..2] == [x, y] && [x, y][..1] == [x] && [x][..0] == [];
    assert Run([x]) == Registered(EMPTY, x);
    assert Run([x, y]).Duplicate?;
  }

  /** Registered after a better one, a module's unit is not filed; registered before it, it is. */
  lemma FiledDependsOnOrder(x: Unit, z: Unit)
    requires x.name == z.name && x.distro == z.distro && x.moduleIndex < z.moduleIndex && x.moduleName != z.moduleName
    ensures Run([z, x]).Accepted? && !Has(Run([z, x]).state.byModule, x.moduleName, x.name)
    ensures Run([x, z]).Accepted? && Has(Run([x, z]).state.byModule, x.moduleName, x.name)
  {
    RunThree(z, x, x);
    RunThree(x, z, x);
    StoreHas(map[], z, x.moduleName, x.name);
    StoreHas(Store(map[], x), z, x.moduleName, x.name);
  }

  lemma FiledLast(us: seq<Unit>)
    requires us != [] && Run(us).Accepted? && OneDistro(us, us[|us| - 1].name)
    requires !Has(Run(us[..|us| - 1]).state.byModule, us[|us| - 1].moduleName, us[|us| - 1].name)
    ensures Has(Run(us).state.byModule, us[|us| - 1].moduleName, us[|us| - 1].name) <==> RunningBest(us, |us| - 1)
  {
    var k := |us| - 1;
    var earlier, r := us[..k], us[k];
    var s := Run(earlier).state;
    assert forall j :: 0 <= j < k ==> us[j] == earlier[j];
    assert OneDistro(earlier, r.name);
    RunSettles(earlier, r.name);
    LastRunningBest(us, s);
    StoreHas(s.byModule, r, r.moduleName, r.name);
  }

  lemma LastRunningBest(us: seq<Unit>, s: Registry)
    requires us != [] && OneDistro(us, us[|us| - 1].name) && Registered(s, us[|us| - 1]).Accepted?
    requires Settled(us[..|us| - 1], us[|us| - 1].name, s)
    ensures RunningBest(us, |us| - 1) <==>
            (us[|us| - 1].name in s.units ==> us[|us| - 1].moduleIndex > s.units[us[|us| - 1].name].moduleIndex)
    ensures us[|us| - 1].name in s.units ==> !CrossDistro(us[|us| - 1], s.units[us[|us| - 1].name])
  {
    var k := |us| - 1;
    var earlier, r := us[..k], us[k];
    assert forall j :: 0 <= j < k ==> us[j] == earlier[j];
    if r.name in s.units {
      var x :| 0 <= x < |earlier| && earlier[x] == s.units[r.name];
      assert us[x] == earlier[x] && !CrossDistro(us[k], us[x]);
    }
  }

  lemma {:induction false} NotFiledYet(us: seq<Unit>, n: Name, m: Name)
    requires Run(us).Accepted? && forall j :: 0 <= j < |us| && us[j].name == n ==> us[j].moduleName != m
    ensures !Has(Run(us).state.byModule, m, n)
    decreases |us|
  {
    if us == [] {
    } else {
      var earlier := us[..|us| - 1];
      assert forall j :: 0 <= j < |earlier| ==> us[j] == earlier[j];
      NotFiledYet(earlier, n, m);
      StoreHas(Run(earlier).state.byModule, us[|us| - 1], m, n);
    }
  }

  // ---------------------------------------------------------------------
  // The engine's fields
  // ---------------------------------------------------------------------

  class Engine {
    var units: map<Name, Unit>
    var unitsByModule: ByModule
    var shadows: seq<Shadow>

    function State(): Registry
      reads this
    {
      Registry(units, unitsByModule, shadows)
    }

    constructor ()
      ensures State() == EMPTY
    {
      units, unitsByModule, shadows := map[], map[], [];
    }

    /** A refused registration changes nothing; otherwise the unit now standing for the name is returned. */
    method RegisterUnit(r: Unit) returns (ok: bool, standing: Unit)
      modifies this
      ensures ok <==> Registered(old(State()), r).Accepted?
      ensures State() == if ok then Registered(old(State()), r).state else old(State())
      ensures ok && !(r.name in old(units) && CrossDistro(r, old(units)[r.name])) ==> units[r.name] == standing
      ensures ok && r.name in old(units) && CrossDistro(r, old(units)[r.name]) ==> units == old(units) && standing == r
      ensures r.name !in old(units) ==> ok && units == old(units)[r.name := r] && shadows == old(shadows)
      ensures r.name in old(units) ==>
                var e := old(units)[r.name];
                if r.distro != "" && e.distro != "" && r.distro != e.distro then
                  ok && units == old(units) && shadows == old(shadows)
                else if r.moduleIndex == e.moduleIndex then
                  !ok && units == old(units) && shadows == old(shadows) && unitsByModule == old(unitsByModule)
                else if r.moduleIndex < e.moduleIndex then
                  && ok && standing == e && units == old(units) && unitsByModule == old(unitsByModule)
                  && shadows == old(shadows)
                     + [Shadow(r.name, e.moduleName, e.definedIn, r.moduleName, r.definedIn)]
                else
                  && ok && standing == r && units == old(units)[r.name := r]
                  && shadows == old(shadows)
                     + [Shadow(r.name, r.moduleName, r.definedIn, e.moduleName, e.definedIn)]
      ensures ok && standing == r ==> FiledOnly(old(unitsByModule), unitsByModule, r)
    {
      standing := r;
      var crossDistro := r.name in units && CrossDistro(r, units[r.name]);
      if r.name in units && !crossDistro {
        var existing := units[r.name];
        if r.moduleIndex == existing.moduleIndex {
          return false, r;
        }
        if r.moduleIndex < existing.moduleIndex {
          shadows := shadows + [ShadowOf(r.name, existing, r)];
          return true, existing;
        }
        shadows := shadows + [ShadowOf(r.name, r, existing)];
      }
      if !crossDistro {
        units := units[r.name := r];
      }
      StoreFiles(unitsByModule, r);
      unitsByModule := Store(unitsByModule, r);
      ok := true;
    }
  }
}
