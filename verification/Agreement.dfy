/**
 Two resolvers of one project: the engine's lookup, which fills the catalogs while
 images are evaluated (internal/starlark/closure.go), and the loaded project's, which
 reads them afterwards (internal/starlark/types.go, internal/resolve/runtime.go). When
 do they find the same unit, and when do the two runtime closures agree?
 */
module Agreement {
  import opened Names
  import opened Catalogs
  import opened Lookup
  import opened Views
  import opened Closure
  import R = Runtime

  // ---------------------------------------------------------------------
  // One name
  // ---------------------------------------------------------------------

  /** The flat catalog's unit, where the distro sees it, is one of greatest priority among those the distro sees. */
  ghost predicate TopFlat(cat: Catalog, n: Name, distro: Name) {
    n in cat.flat && Visible(cat.flat[n], distro) ==> IsBest(cat.byModule, n, distro, Hit(cat.flat[n]))
  }

  /** A pin decides the name, or the flat catalog does not hide a better unit. */
  ghost predicate Preferred(c: Config, cat: Catalog, n: Name, distro: Name) {
    PinHolds(c.pins, cat.byModule, distro, n) || TopFlat(cat, n, distro)
  }

  /** A unit added for a name the initial catalog had would be that catalog's own. */
  lemma NoneAdded(c: Config, cat0: Catalog, cat: Catalog, n: Name, distro: Name, k: Name)
    requires WellFormed(c, cat0) && Grown(c, cat0, cat) && distro != "" && FromPin(c, cat0.byModule, n, distro).Miss?
    requires n in cat0.flat && Visible(cat0.flat[n], distro) && Candidate(cat.byModule, n, distro, k)
    ensures Has(cat0.byModule, k, n)
  {
    if !Has(cat0.byModule, k, n) {
      AddedIsRule(c, cat0, cat, n, distro, k);
    }
  }

  /** Lookups never make two units tie for a name that no pin decides. */
  lemma GrownUnambiguous(c: Config, cat0: Catalog, cat: Catalog, n: Name, distro: Name)
    requires WellFormed(c, cat0) && Grown(c, cat0, cat) && distro != "" && FromPin(c, cat0.byModule, n, distro).Miss?
    ensures Unambiguous(cat.byModule, n, distro)
  {
    if n in cat0.flat && Visible(cat0.flat[n], distro) {
      forall m, k | Top(cat.byModule, n, distro, m) && Top(cat.byModule, n, distro, k)
        ensures cat.byModule[m][n] == cat.byModule[k][n]
      {
        NoneAdded(c, cat0, cat, n, distro, m);
        NoneAdded(c, cat0, cat, n, distro, k);
        assert Candidate(cat.byModule, n, distro, m) && Candidate(cat.byModule, n, distro, k);
      }
    } else {
      BestKeptOrAdded(c, cat0, cat, n, distro);
    }
  }

  /** For a name looked up, the engine's pin answers exactly when the project's does, and alike. */
  lemma PinsAgree(c: Config, cat0: Catalog, cat: Catalog, n: Name, distro: Name)
    requires WellFormed(c, cat0) && Grown(c, cat0, cat) && distro != "" && Settled(c, cat, n, distro)
    ensures var p := FromPin(c, cat.byModule, n, distro);
            && (p.Hit? ==>
                  && PinHolds(c.pins, cat.byModule, distro, n)
                  && ResolveRule(c.pins, cat.byModule, distro, n) == p)
            && (p.Miss? ==> !PinHolds(c.pins, cat.byModule, distro, n))
  {
    var b, m := cat.byModule, Pin(c, n, distro);
    assert PinFor(c.pins, distro, n) == m;
    if m != "" {
      var i := FeedIndex(c.feeds, m);
      if i < |c.feeds| {
        if Has(b, m, n) {
          assert Has(cat0.byModule, m, n) ==> b[m][n] == cat0.byModule[m][n];
          assert Genuine(c, m, n, b[m][n]);
        }
        if FromPin(c, b, n, distro).Hit? { FeedHitFacts(c, i, n, distro); }
      }
    }
  }

  /** A name looked up resolves alike on both sides exactly when a pin decides it or the flat catalog hides no better
      unit. */
  lemma AnswersAgreeIff(c: Config, cat0: Catalog, cat: Catalog, n: Name, distro: Name)
    requires WellFormed(c, cat0) && Grown(c, cat0, cat) && distro != ""
    requires Settled(c, cat, n, distro) && RuleFor(c, cat0, n, distro).Hit?
    ensures ResolveRule(c.pins, cat.byModule, distro, n) == RuleFor(c, cat0, n, distro) <==>
            Preferred(c, cat, n, distro)
    ensures PinHolds(c.pins, cat.byModule, distro, n) || Unambiguous(cat.byModule, n, distro)
  {
    RuleKept(c, cat0, cat, n, distro);
    PinsAgree(c, cat0, cat, n, distro);
    FromPinKept(c, cat0, cat, n, distro);
    if FromPin(c, cat.byModule, n, distro).Miss? {
      GrownUnambiguous(c, cat0, cat, n, distro);
      if n in cat.flat && Visible(cat.flat[n], distro) {
        OneBest(cat.byModule, n, distro, Hit(cat.flat[n]));
      }
    }
  }

  /** The same, with the views between. */
  lemma LooksAgreeIff(c: Config, cat0: Catalog, cat: Catalog, views: ViewTable, alias: map<Name, Name>, distro: Name,
                      x: Name)
    requires WellFormed(c, cat0) && Grown(c, cat0, cat) && distro != ""
    requires BuiltFrom(c.pins, cat.byModule, views) && distro in views
    requires Settled(c, cat, Resolve(c, x, distro), distro) && R.Route(alias, x) == Resolve(c, x, distro)
    requires EngineLook(c, cat0, distro)(x).Hit?
    ensures R.ProjectLook(c.pins, cat.byModule, views, alias, distro)(x) == EngineLook(c, cat0, distro)(x)
       <==> Preferred(c, cat, Resolve(c, x, distro), distro)
  {
    var n := Resolve(c, x, distro);
    AnswersAgreeIff(c, cat0, cat, n, distro);
    RuleHit(c, cat0, n, distro);
    RuleResolves(c.pins, cat.byModule, distro, n);
    if n in views[distro] {
      assert ViewedFrom(c.pins, cat.byModule, distro, views[distro], n);
    }
    assert LookupRule(c.pins, cat.byModule, views, distro, n) == ResolveRule(c.pins, cat.byModule, distro, n);
  }

  // ---------------------------------------------------------------------
  // Whole closures
  // ---------------------------------------------------------------------

  /** Lookups that agree on needed names have the same closure. */
  lemma SameClosure(a: Look, b: Look, alias: map<Name, Name>, distro: Name, roots: seq<Name>,
                    deps: map<Name, seq<Name>>, out: seq<Name>)
    requires IsClosure(a, distro, roots, deps)
    requires forall x :: Needed(a, distro, roots, x) ==> a(x) == b(x) && a(x).Hit? && a(x).u.name == R.Route(alias, x)
    requires forall n :: n in out <==> R.Included(b, alias, distro, roots, n)
    ensures Elems(out) == deps.Keys
  {
    SameNeeds(a, b, distro, roots);
    forall n | n in out ensures n in deps {
      var x :| Needed(b, distro, roots, x) && b(x).Hit? && R.Route(alias, x) == n;
      assert Covered(a, deps.Keys, x);
    }
    forall k | k in deps ensures k in out {
      assert Entry(a, distro, roots, k, deps[k]);
      var x :| Needed(a, distro, roots, x) && a(x) == a(k);
      assert R.Included(b, alias, distro, roots, k);
    }
  }

  /** The engine's closure is done, so its catalogs hold what it needed; the project has its views, and routes names
      alike. */
  ghost predicate BothDone(e: Engine, views: ViewTable, alias: map<Name, Name>, distro: Name, roots: seq<Name>,
                           deps: map<Name, seq<Name>>)
    reads e
  {
    var look := EngineLook(e.config, e.initial, distro);
    && e.Valid() && distro != "" && AliasesFinal(e.config, distro)
    && IsClosure(look, distro, roots, deps)
    && (forall x :: Needed(look, distro, roots, x) ==>
          Call(x, distro) in e.asked && R.Route(alias, x) == Resolve(e.config, x, distro))
    && BuiltFrom(e.config.pins, e.unitsByModule, views) && distro in views
  }

  /** After a successful closure, both sides find the same unit for every needed name exactly when each of these names
      is decided by a pin or hides no better unit in the flat catalog. */
  lemma ClosureLooksAgreeIff(e: Engine, views: ViewTable, alias: map<Name, Name>, distro: Name, roots: seq<Name>,
                             deps: map<Name, seq<Name>>)
    requires BothDone(e, views, alias, distro, roots, deps)
    ensures var a, b := EngineLook(e.config, e.initial, distro),
            R.ProjectLook(e.config.pins, e.unitsByModule, views, alias, distro);
            (forall x :: Needed(a, distro, roots, x) ==> a(x) == b(x)) <==>
            (forall x :: Needed(a, distro, roots, x) ==>
              Preferred(e.config, e.Now(), Resolve(e.config, x, distro), distro))
  {
    var a, b := EngineLook(e.config, e.initial, distro),
      R.ProjectLook(e.config.pins, e.unitsByModule, views, alias, distro);
    forall x | Needed(a, distro, roots, x)
      ensures a(x) == b(x) <==> Preferred(e.config, e.Now(), Resolve(e.config, x, distro), distro)
    {
      assert Covered(a, deps.Keys, x) && Call(x, distro) in e.asked;
      LooksAgreeIff(e.config, e.initial, e.Now(), views, alias, distro, x);
    }
  }

  /** And then RuntimeClosure lists exactly the units of the engine's closure. */
  lemma ClosuresAgree(e: Engine, views: ViewTable, alias: map<Name, Name>, distro: Name, roots: seq<Name>,
                      deps: map<Name, seq<Name>>, out: seq<Name>)
    requires BothDone(e, views, alias, distro, roots, deps)
    requires forall x :: Needed(EngineLook(e.config, e.initial, distro), distro, roots, x) ==>
               Preferred(e.config, e.Now(), Resolve(e.config, x, distro), distro)
    requires forall n :: n in out <==>
               R.Included(R.ProjectLook(e.config.pins, e.unitsByModule, views, alias, distro), alias, distro, roots, n)
    ensures Elems(out) == deps.Keys
  {
    var a, b := EngineLook(e.config, e.initial, distro),
      R.ProjectLook(e.config.pins, e.unitsByModule, views, alias, distro);
    ClosureLooksAgreeIff(e, views, alias, distro, roots, deps);
    forall x | Needed(a, distro, roots, x) ensures a(x).Hit? && a(x).u.name == R.Route(alias, x) {
      assert Covered(a, deps.Keys, x);
      RuleHit(e.config, e.initial, Resolve(e.config, x, distro), distro);
    }
    SameClosure(a, b, alias, distro, roots, deps, out);
  }
}
