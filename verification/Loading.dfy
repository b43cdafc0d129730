/**
 What registration leaves for the resolvers: the loader's order of registrations
 (internal/starlark/loader.go, internal/starlark/builtins.go) against the catalogs the
 lookups start from.
 */
module Loading {
  import opened Names
  import opened Catalogs
  import opened Lookup
  import opened Views
  import opened Agreement
  import C = Closure
  import R = Register
  import T = Runtime

  // ---------------------------------------------------------------------
  // The catalogs of a run
  // ---------------------------------------------------------------------

  function CatalogOf(s: R.Registry): Catalog {
    Catalog(s.units, s.byModule)
  }

  /** Whatever is catalogued was registered, and is catalogued under its own name and module. */
  ghost predicate FromRun(us: seq<Unit>, cat: Catalog) {
    && (forall n :: n in cat.flat ==> cat.flat[n] in us && cat.flat[n].name == n)
    && (forall m, n {:trigger Has(cat.byModule, m, n)} :: Has(cat.byModule, m, n) ==>
          n in cat.flat && cat.byModule[m][n] in us && cat.byModule[m][n].name == n
            && cat.byModule[m][n].moduleName == m)
  }

  lemma FromRunStep(us: seq<Unit>, r: Unit, s: R.Registry)
    requires FromRun(us, CatalogOf(s)) && R.Registered(s, r).Accepted?
    ensures FromRun(us + [r], CatalogOf(R.Registered(s, r).state))
  {
    var after := R.Registered(s, r).state;
    forall m, n | Has(after.byModule, m, n)
      ensures n in after.units && after.byModule[m][n] in us + [r]
      ensures after.byModule[m][n].name == n && after.byModule[m][n].moduleName == m
    {
      StoreHas(s.byModule, r, m, n);
    }
  }

  lemma {:induction false} RunCatalogued(us: seq<Unit>)
    requires R.Run(us).Accepted?
    ensures FromRun(us, CatalogOf(R.Run(us).state))
  {
    if us == [] {
    } else {
      var k := |us| - 1;
      RunCatalogued(us[..k]);
      FromRunStep(us[..k], us[k], R.Run(us[..k]).state);
      assert us[..k] + [us[k]] == us;
    }
  }

  /** Modules and their priorities determine each other. */
  ghost predicate OneIndexPerModule(us: seq<Unit>) {
    forall i, j :: 0 <= i < |us| && 0 <= j < |us| ==>
      (us[i].moduleName == us[j].moduleName <==> us[i].moduleIndex == us[j].moduleIndex)
  }

  /** An accepted run leaves the catalogs the lookups start from, if no module bears the name of a feed. */
  lemma RegisteredWellFormed(c: Config, us: seq<Unit>)
    requires R.Run(us).Accepted? && OneIndexPerModule(us) && FeedsTagged(c)
    requires forall i :: 0 <= i < |us| ==> FeedIndex(c.feeds, us[i].moduleName) == |c.feeds|
    ensures WellFormed(c, CatalogOf(R.Run(us).state))
  {
    RunCatalogued(us);
  }

  // ---------------------------------------------------------------------
  // The loader's order
  // ---------------------------------------------------------------------

  /** The name's registrations come as in one phase of evaluation: the project's own, of index root, and then the
      modules' by ascending index. */
  ghost predicate LoaderOrder(us: seq<Unit>, n: Name, root: int) {
    && (forall i :: 0 <= i < |us| && us[i].name == n ==> us[i].moduleIndex <= root)
    && (forall i, j :: 0 <= i < j < |us| && us[i].name == n && us[j].name == n && us[i].moduleIndex != root ==>
          us[j].moduleIndex != root && us[i].moduleIndex <= us[j].moduleIndex)
  }

  /** No module registers the name twice. */
  ghost predicate OnceEach(us: seq<Unit>, n: Name) {
    forall i, j :: 0 <= i < j < |us| && us[i].name == n && us[j].name == n ==> us[i].moduleName != us[j].moduleName
  }

  /** The flat unit is filed, outranks all that some distro sees beside it, and is the project's own if that has one. */
  ghost predicate FlatLeads(us: seq<Unit>, n: Name, root: int, cat: Catalog) {
    && (n in cat.flat <==> exists i :: 0 <= i < |us| && us[i].name == n)
    && (n in cat.flat ==>
          && Filed(cat.byModule, cat.flat[n])
          && (forall m {:trigger Has(cat.byModule, m, n)} ::
                Has(cat.byModule, m, n) && !R.CrossDistro(cat.byModule[m][n], cat.flat[n]) ==>
                  cat.byModule[m][n].moduleIndex <= cat.flat[n].moduleIndex)
          && ((exists i :: 0 <= i < |us| && us[i].name == n && us[i].moduleIndex == root) ==>
                cat.flat[n].moduleIndex == root))
  }

  lemma LeadsOther(us: seq<Unit>, r: Unit, n: Name, root: int, s: R.Registry)
    requires FlatLeads(us, n, root, CatalogOf(s)) && FromRun(us, CatalogOf(s)) && r.name != n
             && R.Registered(s, r).Accepted?
    ensures FlatLeads(us + [r], n, root, CatalogOf(R.Registered(s, r).state))
  {
    var all, after := us + [r], R.Registered(s, r).state;
    R.OtherName(s, r, n);
    R.NamedAfter(us, r, n);
    if i :| 0 <= i < |all| && all[i].name == n && all[i].moduleIndex == root { assert us[i] == all[i]; }
    if n in s.units {
      assert s.units[n].name == n && Has(s.byModule, s.units[n].moduleName, n);
    }
  }

  lemma LeadsSame(us: seq<Unit>, r: Unit, root: int, s: R.Registry)
    requires FlatLeads(us, r.name, root, CatalogOf(s)) && FromRun(us, CatalogOf(s)) && R.Registered(s, r).Accepted?
    requires LoaderOrder(us + [r], r.name, root) && OnceEach(us + [r], r.name)
    ensures FlatLeads(us + [r], r.name, root, CatalogOf(R.Registered(s, r).state))
  {
    var n, all, after := r.name, us + [r], R.Registered(s, r).state;
    R.NamedAfter(us, r, n);
    assert all[|us|] == r && forall i :: 0 <= i < |us| ==> all[i] == us[i];
    forall m | Has(s.byModule, m, n) ensures m != r.moduleName {
      var i :| 0 <= i < |us| && us[i] == s.byModule[m][n];
    }
    forall m ensures Has(after.byModule, m, n) ==>
      (m == r.moduleName && after.byModule[m][n] == r)
      || (Has(s.byModule, m, n) && after.byModule[m][n] == s.byModule[m][n])
             ensures Has(s.byModule, m, n) ==> Has(after.byModule, m, n) && after.byModule[m][n] == s.byModule[m][n]
    {
      StoreHas(s.byModule, r, m, n);
    }
    StoreHas(s.byModule, r, r.moduleName, n);
    if n in s.units && !R.CrossDistro(r, s.units[n]) && r.moduleIndex > s.units[n].moduleIndex {
      NewLeader(us, r, root, s);
    }
    if r.moduleIndex == root && n in s.units {
      assert s.units[n].moduleIndex == root by {
        var i :| 0 <= i < |us| && us[i] == s.units[n];
        assert all[i] == us[i];
      }
    }
  }

  /** A unit that displaces the flat one outranks every unit registered so far. */
  lemma NewLeader(us: seq<Unit>, r: Unit, root: int, s: R.Registry)
    requires FlatLeads(us, r.name, root, CatalogOf(s)) && FromRun(us, CatalogOf(s))
             && LoaderOrder(us + [r], r.name, root)
    requires r.name in s.units && r.moduleIndex > s.units[r.name].moduleIndex
    ensures forall m {:trigger Has(s.byModule, m, r.name)} :: Has(s.byModule, m, r.name) ==>
            s.byModule[m][r.name].moduleIndex <= r.moduleIndex
  {
    var n, all := r.name, us + [r];
    assert all[|us|] == r && forall i :: 0 <= i < |us| ==> all[i] == us[i];
    forall m | Has(s.byModule, m, n) ensures s.byModule[m][n].moduleIndex <= r.moduleIndex {
      var i :| 0 <= i < |us| && us[i] == s.byModule[m][n];
      assert all[i] == us[i];
    }
  }

  lemma {:induction false} RunLeads(us: seq<Unit>, n: Name, root: int)
    requires R.Run(us).Accepted? && LoaderOrder(us, n, root) && OnceEach(us, n)
    ensures FlatLeads(us, n, root, CatalogOf(R.Run(us).state))
  {
    if us == [] {
    } else {
      var k := |us| - 1;
      var earlier, r := us[..k], us[k];
      assert earlier + [r] == us && forall i :: 0 <= i < k ==> earlier[i] == us[i];
      RunLeads(earlier, n, root);
      RunCatalogued(earlier);
      if r.name == n {
        LeadsSame(earlier, r, root, R.Run(earlier).state);
      } else {
        LeadsOther(earlier, r, n, root, R.Run(earlier).state);
      }
    }
  }

  /** In the loader's order, within a phase, the flat catalog never hides a better unit from a distro. */
  lemma LoaderOrderTop(us: seq<Unit>, n: Name, root: int, distro: Name)
    requires R.Run(us).Accepted? && LoaderOrder(us, n, root) && OnceEach(us, n) && distro != ""
    ensures TopFlat(CatalogOf(R.Run(us).state), n, distro)
  {
    RunLeads(us, n, root);
    RunCatalogued(us);
    var cat := CatalogOf(R.Run(us).state);
    if n in cat.flat && Visible(cat.flat[n], distro) {
      var w := cat.flat[n];
      assert Has(cat.byModule, w.moduleName, n);
      assert Top(cat.byModule, n, distro, w.moduleName);
    }
  }

  // ---------------------------------------------------------------------
  // Through the lookups
  // ---------------------------------------------------------------------

  /** Lookups do not make the flat catalog hide a better unit. */
  lemma TopFlatGrown(c: Config, cat0: Catalog, cat: Catalog, n: Name, distro: Name)
    requires WellFormed(c, cat0) && Grown(c, cat0, cat) && distro != "" && FromPin(c, cat0.byModule, n, distro).Miss?
    requires TopFlat(cat0, n, distro)
    ensures TopFlat(cat, n, distro)
  {
    if n in cat.flat && Visible(cat.flat[n], distro) {
      if n in cat0.flat {
        var m :| Top(cat0.byModule, n, distro, m) && cat0.byModule[m][n] == cat0.flat[n];
        assert Has(cat0.byModule, m, n);
        forall k | Candidate(cat.byModule, n, distro, k)
          ensures cat.byModule[k][n].moduleIndex <= cat.byModule[m][n].moduleIndex
        {
          NoneAdded(c, cat0, cat, n, distro, k);
          assert Candidate(cat0.byModule, n, distro, k);
        }
        assert Top(cat.byModule, n, distro, m);
      } else {
        var m := cat.flat[n].moduleName;
        assert Filed(cat.byModule, cat.flat[n]) && Candidate(cat.byModule, n, distro, m);
        forall k | Candidate(cat.byModule, n, distro, k) ensures cat.byModule[k][n] == cat.flat[n] {
          assert !Has(cat0.byModule, k, n);
          AddedIsRule(c, cat0, cat, n, distro, k);
        }
        assert Top(cat.byModule, n, distro, m);
      }
    }
  }

  /** A name registered in one phase, in the loader's order, once looked up resolves alike for the engine and for the
      project. */
  lemma LoadedNamesAgree(c: Config, us: seq<Unit>, root: int, cat: Catalog, n: Name, distro: Name)
    requires R.Run(us).Accepted? && OneIndexPerModule(us) && LoaderOrder(us, n, root) && OnceEach(us, n)
             && FeedsTagged(c)
    requires forall i :: 0 <= i < |us| ==> FeedIndex(c.feeds, us[i].moduleName) == |c.feeds|
    requires distro != "" && Grown(c, CatalogOf(R.Run(us).state), cat) && Settled(c, cat, n, distro)
    requires RuleFor(c, CatalogOf(R.Run(us).state), n, distro).Hit?
    ensures Preferred(c, cat, n, distro)
    ensures ResolveRule(c.pins, cat.byModule, distro, n) == RuleFor(c, CatalogOf(R.Run(us).state), n, distro)
  {
    var cat0 := CatalogOf(R.Run(us).state);
    RegisteredWellFormed(c, us);
    LoaderOrderTop(us, n, root, distro);
    PinsAgree(c, cat0, cat, n, distro);
    FromPinKept(c, cat0, cat, n, distro);
    if FromPin(c, cat0.byModule, n, distro).Miss? { TopFlatGrown(c, cat0, cat, n, distro); }
    AnswersAgreeIff(c, cat0, cat, n, distro);
  }

  /** So the two runtime closures of a project are the same if each of its names is registered in one phase. */
  lemma LoadedClosuresAgree(e: Engine, us: seq<Unit>, root: int, views: ViewTable, alias: map<Name, Name>, distro: Name,
                            roots: seq<Name>, deps: map<Name, seq<Name>>, out: seq<Name>)
    requires R.Run(us).Accepted? && OneIndexPerModule(us) && e.initial == CatalogOf(R.Run(us).state)
    requires forall i :: 0 <= i < |us| ==> LoaderOrder(us, us[i].name, root) && OnceEach(us, us[i].name)
    requires forall i :: 0 <= i < |us| ==> FeedIndex(e.config.feeds, us[i].moduleName) == |e.config.feeds|
    requires BothDone(e, views, alias, distro, roots, deps)
    requires forall n :: n in out <==>
               T.Included(T.ProjectLook(e.config.pins, e.unitsByModule, views, alias, distro), alias, distro, roots, n)
    ensures Elems(out) == deps.Keys
  {
    var look := C.EngineLook(e.config, e.initial, distro);
    forall x | C.Needed(look, distro, roots, x)
      ensures Preferred(e.config, e.Now(), Resolve(e.config, x, distro), distro)
    {
      var n := Resolve(e.config, x, distro);
      assert C.Covered(look, deps.Keys, x) && Call(x, distro) in e.asked;
      if i :| 0 <= i < |us| && us[i].name == n { assert OnceEach(us, us[i].name) && LoaderOrder(us, us[i].name, root); }
      LoadedNamesAgree(e.config, us, root, e.Now(), n, distro);
    }
    ClosuresAgree(e, views, alias, distro, roots, deps, out);
  }

  /** Three registrations, the last of which takes the flat slot and ranks below the second. */
  lemma ThreeRuns(d: Unit, a: Unit, u: Unit)
    requires d.name == a.name == u.name && R.CrossDistro(a, d) && !R.CrossDistro(u, d) && d.moduleIndex < u.moduleIndex
    ensures R.Run([d, a, u]) ==
            R.Accepted(R.Registry(map[d.name := u], Store(Store(Store(map[], d), a), u), [R.ShadowOf(u.name, u, d)]))
  {
    assert [d, a, u][..2] == [d, a] && [d, a][..1] == [d] && [d][..0] == [];
    assert R.Run([d]) == R.Registered(R.EMPTY, d);
    assert R.Run([d, a]) == R.Registered(R.Run([d]).state, a);
  }

  /** Over two phases they may part: debian's unit and alpine's better one, then, a phase later, an untagged one
      between. */
  lemma OrderCanSplit() returns (c: Config, us: seq<Unit>)
    ensures |us| == 3 && R.Run(us).Accepted? && WellFormed(c, CatalogOf(R.Run(us).state))
    ensures LoaderOrder(us[..2], "p", 8) && LoaderOrder(us[2..], "p", 8)
            && us[0].name == us[1].name == us[2].name == "p"
    ensures OnceEach(us, "p") && OneIndexPerModule(us)
    ensures Settled(c, CatalogOf(R.Run(us).state), "p", "alpine")
    ensures RuleFor(c, CatalogOf(R.Run(us).state), "p", "alpine") == Hit(us[2])
    ensures ResolveRule(c.pins, R.Run(us).state.byModule, "alpine", "p") == Hit(us[1]) != Hit(us[2])
  {
    var d := Unit("p", "debian", "d", 1, "", [], map[], []);
    var a := Unit("p", "alpine", "a", 7, "", [], map[], []);
    var u := Unit("p", "", "u", 2, "", [], map[], []);
    c, us := Config([], map[], map[]), [d, a, u];
    assert "debian" != "alpine" by { assert "debian"[0] != "alpine"[0]; }
    ThreeRuns(d, a, u);
    TwoPhases(us);
    RegisteredWellFormed(c, us);
    BestOfThree(R.Run(us).state.byModule, d, a, u);
  }

  lemma TwoPhases(us: seq<Unit>)
    requires |us| == 3 && us[0].moduleIndex == 1 && us[1].moduleIndex == 7 && us[2].moduleIndex == 2
    requires us[0].moduleName == "d" && us[1].moduleName == "a" && us[2].moduleName == "u"
    ensures forall n :: LoaderOrder(us[..2], n, 8) && LoaderOrder(us[2..], n, 8) && OnceEach(us, n)
    ensures OneIndexPerModule(us)
  {
    assert us[2..] == [us[2]];
  }

  lemma BestOfThree(b: ByModule, d: Unit, a: Unit, u: Unit)
    requires b == Store(Store(Store(map[], d), a), u) && d.name == a.name == u.name == "p"
    requires d.moduleName == "d" && a.moduleName == "a" && u.moduleName == "u"
    requires d.distro == "debian" && a.distro == "alpine" && u.distro == "" && a.moduleIndex > u.moduleIndex
    ensures BestVisible(b, "p", "alpine") == Hit(a)
  {
    assert "debian" != "alpine" by { assert "debian"[0] != "alpine"[0]; }
    assert Has(b, "a", "p") && b["a"]["p"] == a && Has(b, "u", "p") && b["u"]["p"] == u && Has(b, "d", "p")
      && b["d"]["p"] == d;
    assert forall m :: Has(b, m, "p") ==> m in {"a", "u", "d"};
    assert Top(b, "p", "alpine", "a");
    assert Unambiguous(b, "p", "alpine");
    BestIs(b, "p", "alpine", "a");
  }
}
