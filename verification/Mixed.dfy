/**
 Image evaluation both walks closures and registers units, so lookups and registrations
 interleave (internal/starlark/closure.go, internal/starlark/builtins.go). When are the
 answers those of the registrations so far, as if no lookup had come before them?
 */
module Mixed {
  import opened Names
  import opened Catalogs
  import opened Lookup
  import opened Loading
  import R = Register

  datatype Event = Enter(u: Unit) | Look(raw: Name, distro: Name)

  // ---------------------------------------------------------------------
  // Runs
  // ---------------------------------------------------------------------

  /** A lookup may add feed units to both catalogs; shadow events it leaves alone. */
  ghost function Looked(c: Config, s: R.Registry, raw: Name, distro: Name): R.Registry {
    var cat := After(c, CatalogOf(s), raw, distro);
    R.Registry(cat.flat, cat.byModule, s.shadows)
  }

  /** A run of both, stopping at the first registration that is refused. */
  ghost function MixedRun(c: Config, es: seq<Event>): R.Outcome {
    if es == [] then R.Accepted(R.EMPTY)
    else
      var before := MixedRun(c, es[..|es| - 1]);
      if before.Duplicate? then before
      else
        match es[|es| - 1]
        case Enter(u) => R.Registered(before.state, u)
        case Look(raw, distro) => R.Accepted(Looked(c, before.state, raw, distro))
  }

  /** The registrations of a run. */
  function Entered(es: seq<Event>): seq<Unit> {
    if es == [] then []
    else
      var e := es[|es| - 1];
      Entered(es[..|es| - 1]) + (if e.Enter? then [e.u] else [])
  }

  /** A feed's unit holds the flat slot of r's name, and r is tagged for another distro. */
  predicate HeldAcross(c: Config, s: R.Registry, r: Unit) {
    r.name in s.units && IsFed(c, s.units[r.name]) && R.CrossDistro(r, s.units[r.name])
  }

  predicate IsFed(c: Config, u: Unit) {
    FeedIndex(c.feeds, u.moduleName) < |c.feeds|
  }

  /** No registration of the run meets a flat slot held across distros. */
  ghost predicate Guarded(c: Config, es: seq<Event>) {
    es == [] || (
      var before := MixedRun(c, es[..|es| - 1]);
      && Guarded(c, es[..|es| - 1])
      && (before.Accepted? && es[|es| - 1].Enter? ==> !HeldAcross(c, before.state, es[|es| - 1].u)))
  }

  // ---------------------------------------------------------------------
  // What registrations leave
  // ---------------------------------------------------------------------

  /** A module's unit: of no feed, and above every feed. */
  predicate Above(c: Config, u: Unit) {
    !IsFed(c, u) && forall k :: 0 <= k < |c.feeds| ==> c.feeds[k].priority < u.moduleIndex
  }

  /** The catalogs of registrations alone. */
  ghost predicate Plain(c: Config, cat: Catalog) {
    && WellFormed(c, cat)
    && (forall n :: n in cat.flat ==> Above(c, cat.flat[n]))
    && (forall m, n {:trigger Has(cat.byModule, m, n)} :: Has(cat.byModule, m, n) ==>
          Above(c, cat.byModule[m][n]) && cat.byModule[m][n].moduleName == m)
  }

  /** Registrations as the loader makes them. */
  ghost predicate Loadable(c: Config, us: seq<Unit>) {
    && FeedsTagged(c) && OneIndexPerModule(us)
    && (forall i :: 0 <= i < |us| ==> Above(c, us[i]) && OnceEach(us, us[i].name))
  }

  lemma RunPlain(c: Config, us: seq<Unit>)
    requires Loadable(c, us) && R.Run(us).Accepted?
    ensures Plain(c, CatalogOf(R.Run(us).state))
  {
    RunCatalogued(us);
    RegisteredWellFormed(c, us);
  }

  // ---------------------------------------------------------------------
  // Registrations with lookups between, against registrations alone
  // ---------------------------------------------------------------------

  /** u is a feed's unit, and the first any feed has for its own distro, unless a pin decides there. */
  ghost predicate Fed(c: Config, cat0: Catalog, n: Name, u: Unit) {
    && u.name == n && u.distro != "" && Genuine(c, u.moduleName, n, u)
    && (FromPin(c, cat0.byModule, n, u.distro).Miss? ==> AskAll(c.feeds, n, u.distro) == Hit(u))
  }

  /** cat is cat0 plus feed units. */
  ghost predicate Follows(c: Config, cat0: Catalog, cat: Catalog) {
    && (forall n :: n in cat0.flat ==> n in cat.flat && cat.flat[n] == cat0.flat[n])
    && (forall n :: n in cat.flat && n !in cat0.flat ==> Fed(c, cat0, n, cat.flat[n]))
    && FollowsModules(c, cat0, cat.byModule)
  }

  ghost predicate FollowsModules(c: Config, cat0: Catalog, b: ByModule) {
    && Within(cat0.byModule, b)
    && (forall m, n {:trigger Has(b, m, n)} :: Has(b, m, n) && !Has(cat0.byModule, m, n) ==>
          Fed(c, cat0, n, b[m][n]) && b[m][n].moduleName == m)
  }

  lemma FedIsBelow(c: Config, n: Name, u: Unit, r: Unit)
    requires Genuine(c, u.moduleName, n, u) && Above(c, r)
    ensures u.moduleIndex < r.moduleIndex && IsFed(c, u)
  {
  }

  lemma PinKept(c: Config, cat0: Catalog, b: ByModule, n: Name, distro: Name)
    requires FollowsModules(c, cat0, b)
    ensures FromPin(c, b, n, distro) == FromPin(c, cat0.byModule, n, distro)
  {
    var m := Pin(c, n, distro);
    if FeedIndex(c.feeds, m) == |c.feeds| {
      assert Has(b, m, n) <==> Has(cat0.byModule, m, n);
    }
  }

  /** Registered units outrank fed ones. */
  lemma BestRegistered(c: Config, cat0: Catalog, b: ByModule, n: Name, distro: Name, m0: Name)
    requires Plain(c, cat0) && FollowsModules(c, cat0, b) && Top(cat0.byModule, n, distro, m0)
    ensures BestVisible(b, n, distro) == BestVisible(cat0.byModule, n, distro) == Hit(cat0.byModule[m0][n])
  {
    var b0 := cat0.byModule;
    DistinctIsUnambiguous(b0, n, distro);
    BestIs(b0, n, distro, m0);
    assert Has(b0, m0, n);
    forall k | Candidate(b, n, distro, k)
      ensures b[k][n].moduleIndex <= b[m0][n].moduleIndex
      ensures b[k][n].moduleIndex == b[m0][n].moduleIndex ==> b[k][n] == b[m0][n]
    {
      if Has(b0, k, n) {
        assert Candidate(b0, n, distro, k);
      } else {
        FedIsBelow(c, n, b[k][n], b0[m0][n]);
      }
    }
    assert Candidate(b, n, distro, m0) && Top(b, n, distro, m0);
    BestIs(b, n, distro, m0);
  }

  /** Where no registered unit is visible, a fed one is what the feeds answer. */
  lemma BestFed(c: Config, cat0: Catalog, b: ByModule, n: Name, distro: Name)
    requires FollowsModules(c, cat0, b) && distro != "" && FromPin(c, cat0.byModule, n, distro).Miss?
    requires forall m :: !Candidate(cat0.byModule, n, distro, m)
    ensures BestVisible(b, n, distro) == Miss || BestVisible(b, n, distro) == AskAll(c.feeds, n, distro)
  {
    forall k | Candidate(b, n, distro, k) ensures Hit(b[k][n]) == AskAll(c.feeds, n, distro) {
      assert !Candidate(cat0.byModule, n, distro, k);
    }
    BestIsBest(b, n, distro);
  }

  /** The answers for a distro are those of the registrations alone. */
  lemma FollowsAnswers(c: Config, cat0: Catalog, cat: Catalog, n: Name, distro: Name)
    requires Plain(c, cat0) && Follows(c, cat0, cat) && distro != ""
    ensures RuleFor(c, cat, n, distro) == RuleFor(c, cat0, n, distro)
  {
    PinKept(c, cat0, cat.byModule, n, distro);
    if FromPin(c, cat0.byModule, n, distro).Miss? {
      if k :| Candidate(cat0.byModule, n, distro, k) {
        assert Has(cat0.byModule, k, n);
        BestExists(cat0.byModule, n, distro, k);
        var m0 :| Top(cat0.byModule, n, distro, m0);
        BestRegistered(c, cat0, cat.byModule, n, distro, m0);
      } else {
        NoBest(cat0.byModule, n, distro);
        BestFed(c, cat0, cat.byModule, n, distro);
      }
    }
  }

  // ---------------------------------------------------------------------
  // A lookup
  // ---------------------------------------------------------------------

  lemma StoreFollows(c: Config, cat0: Catalog, cat: Catalog, n: Name, u: Unit)
    requires Plain(c, cat0) && Follows(c, cat0, cat) && Fed(c, cat0, n, u)
    ensures FollowsModules(c, cat0, Store(cat.byModule, u))
  {
    var b := cat.byModule;
    forall m, k ensures Has(cat0.byModule, m, k) ==>
      Has(Store(b, u), m, k) && Store(b, u)[m][k] == cat0.byModule[m][k] {
      StoreHas(b, u, m, k);
      if Has(cat0.byModule, m, k) { assert Has(b, m, k) && !IsFed(c, cat0.byModule[m][k]); }
    }
    forall m, k | Has(Store(b, u), m, k) && !Has(cat0.byModule, m, k)
      ensures Fed(c, cat0, k, Store(b, u)[m][k]) && Store(b, u)[m][k].moduleName == m
    {
      StoreHas(b, u, m, k);
    }
  }

  /** What a lookup stores is fed. */
  lemma StoredIsFed(c: Config, cat0: Catalog, cat: Catalog, name: Name, distro: Name)
    requires Plain(c, cat0) && Follows(c, cat0, cat)
    ensures var p, i := FromPin(c, cat.byModule, name, distro), FeedIndex(c.feeds, Pin(c, name, distro));
            && (p.Hit? && i < |c.feeds| ==> Fed(c, cat0, name, p.u))
            && (p.Miss? && AskAll(c.feeds, name, distro).Hit? ==> Fed(c, cat0, name, AskAll(c.feeds, name, distro).u))
  {
    PinKept(c, cat0, cat.byModule, name, distro);
    var p, i := FromPin(c, cat.byModule, name, distro), FeedIndex(c.feeds, Pin(c, name, distro));
    if p.Hit? && i < |c.feeds| {
      FeedHitFacts(c, i, name, distro);
    } else if p.Miss? && AskAll(c.feeds, name, distro).Hit? {
      if distro == "" {
        FirstIsFed(c, cat0, name);
      } else {
        var k := AskAllHit(c.feeds, name, distro);
        FeedHitFacts(c, k, name, distro);
      }
    }
  }

  lemma FirstIsFed(c: Config, cat0: Catalog, name: Name)
    requires FeedsTagged(c) && AskAll(c.feeds, name, "").Hit?
    ensures Fed(c, cat0, name, AskAll(c.feeds, name, "").u)
  {
    AskFirstKnowing(c.feeds, name);
    var i := FirstKnowing(c.feeds, name);
    FeedHitFacts(c, i, name, "");
    AskFromKnowing(c.feeds, name, c.feeds[i].distro);
    assert Ask(c.feeds[i], name, c.feeds[i].distro) == Ask(c.feeds[i], name, "");
  }

  lemma StoredFollows(c: Config, cat0: Catalog, cat: Catalog, name: Name, u: Unit)
    requires Plain(c, cat0) && Follows(c, cat0, cat) && Fed(c, cat0, name, u)
    ensures Follows(c, cat0, cat.(byModule := Store(cat.byModule, u))) && Follows(c, cat0, Remember(cat, name, u))
  {
    StoreFollows(c, cat0, cat, name, u);
  }

  lemma LookFollows(c: Config, cat0: Catalog, cat: Catalog, raw: Name, distro: Name)
    requires Plain(c, cat0) && Follows(c, cat0, cat)
    ensures Follows(c, cat0, After(c, cat, raw, distro))
  {
    var name := Resolve(c, raw, distro);
    var p, i := FromPin(c, cat.byModule, name, distro), FeedIndex(c.feeds, Pin(c, name, distro));
    StoredIsFed(c, cat0, cat, name, distro);
    if p.Hit? && i < |c.feeds| {
      StoredFollows(c, cat0, cat, name, p.u);
    } else if p.Miss? && FromCatalog(cat, name, distro).Miss? && AskAll(c.feeds, name, distro).Hit? {
      StoredFollows(c, cat0, cat, name, AskAll(c.feeds, name, distro).u);
    } else {
      Unchanged(c, cat, raw, distro);
    }
  }

  lemma Unchanged(c: Config, cat: Catalog, raw: Name, distro: Name)
    requires var name := Resolve(c, raw, distro);
             var p := FromPin(c, cat.byModule, name, distro);
             && !(p.Hit? && FeedIndex(c.feeds, Pin(c, name, distro)) < |c.feeds|)
             && !(p.Miss? && FromCatalog(cat, name, distro).Miss? && AskAll(c.feeds, name, distro).Hit?)
    ensures After(c, cat, raw, distro) == cat
  {
  }

  // ---------------------------------------------------------------------
  // A registration
  // ---------------------------------------------------------------------

  /** A registration does not take a pin's answer away. */
  lemma PinStays(c: Config, cat0: Catalog, r: Unit, n: Name, distro: Name)
    requires !IsFed(c, r) && !Has(cat0.byModule, r.moduleName, r.name)
    requires FromPin(c, Store(cat0.byModule, r), n, distro).Miss?
    ensures FromPin(c, cat0.byModule, n, distro).Miss?
  {
    var m := Pin(c, n, distro);
    StoreHas(cat0.byModule, r, m, n);
  }

  /** Fed units stay fed when registrations are added. */
  lemma FedStays(c: Config, cat0: Catalog, cat1: Catalog, r: Unit, n: Name, u: Unit)
    requires Fed(c, cat0, n, u) && !IsFed(c, r) && !Has(cat0.byModule, r.moduleName, r.name)
    requires cat1.byModule == cat0.byModule || cat1.byModule == Store(cat0.byModule, r)
    ensures Fed(c, cat1, n, u)
  {
    if FromPin(c, cat1.byModule, n, u.distro).Miss? && cat1.byModule != cat0.byModule {
      PinStays(c, cat0, r, n, u.distro);
    }
  }

  lemma EnterModules(c: Config, cat0: Catalog, cat1: Catalog, b: ByModule, r: Unit)
    requires FollowsModules(c, cat0, b) && !IsFed(c, r) && !Has(cat0.byModule, r.moduleName, r.name)
    requires cat1.byModule == Store(cat0.byModule, r)
    ensures FollowsModules(c, cat1, Store(b, r))
  {
    forall m, n ensures Has(cat1.byModule, m, n) ==>
      Has(Store(b, r), m, n) && Store(b, r)[m][n] == cat1.byModule[m][n] {
      StoreHas(cat0.byModule, r, m, n);
      StoreHas(b, r, m, n);
      assert Has(cat0.byModule, m, n) ==> Has(b, m, n);
    }
    forall m, n | Has(Store(b, r), m, n) && !Has(cat1.byModule, m, n)
      ensures Fed(c, cat1, n, Store(b, r)[m][n]) && Store(b, r)[m][n].moduleName == m
    {
      StoreHas(cat0.byModule, r, m, n);
      StoreHas(b, r, m, n);
      FedStays(c, cat0, cat1, r, n, b[m][n]);
    }
  }

  /** Both sides take the same branch, unless a fed unit holds the slot across distros. */
  lemma SameBranch(c: Config, s0: R.Registry, s: R.Registry, r: Unit)
    requires Follows(c, CatalogOf(s0), CatalogOf(s)) && Above(c, r)
    requires R.Registered(s0, r).Accepted? && !HeldAcross(c, s, r)
    ensures R.Registered(s, r).Accepted?
    ensures var t0, t := R.Registered(s0, r).state, R.Registered(s, r).state;
            || (t0.units == s0.units && t.units == s.units && t0.byModule == s0.byModule && t.byModule == s.byModule)
            || (&& t0.byModule == Store(s0.byModule, r) && t.byModule == Store(s.byModule, r)
                && ((t0.units == s0.units && t.units == s.units && r.name in s0.units)
                    || (t0.units == s0.units[r.name := r] && t.units == s.units[r.name := r])))
  {
    if r.name in s.units && r.name !in s0.units { FedIsBelow(c, r.name, s.units[r.name], r); }
  }

  lemma EnterFollows(c: Config, s0: R.Registry, s: R.Registry, r: Unit)
    requires Follows(c, CatalogOf(s0), CatalogOf(s)) && Above(c, r) && !Has(s0.byModule, r.moduleName, r.name)
    requires R.Registered(s0, r).Accepted? && !HeldAcross(c, s, r)
    ensures R.Registered(s, r).Accepted?
    ensures Follows(c, CatalogOf(R.Registered(s0, r).state), CatalogOf(R.Registered(s, r).state))
  {
    SameBranch(c, s0, s, r);
    var t0, t := CatalogOf(R.Registered(s0, r).state), CatalogOf(R.Registered(s, r).state);
    if t.byModule == s.byModule && t0.byModule == s0.byModule {
      EnterNothing(c, CatalogOf(s0), t0, s.byModule, r);
    } else {
      EnterModules(c, CatalogOf(s0), t0, s.byModule, r);
    }
    EnterFlat(c, CatalogOf(s0), s.units, t0, t.flat, r);
  }

  lemma EnterFlat(c: Config, cat0: Catalog, flat: map<Name, Unit>, t0: Catalog, t: map<Name, Unit>, r: Unit)
    requires forall n :: n in cat0.flat ==> n in flat && flat[n] == cat0.flat[n]
    requires forall n :: n in flat && n !in cat0.flat ==> Fed(c, cat0, n, flat[n])
    requires !IsFed(c, r) && !Has(cat0.byModule, r.moduleName, r.name)
    requires t0.byModule == cat0.byModule || t0.byModule == Store(cat0.byModule, r)
    requires (t0.flat == cat0.flat && t == flat) || (t0.flat == cat0.flat[r.name := r] && t == flat[r.name := r])
    ensures forall n :: n in t0.flat ==> n in t && t[n] == t0.flat[n]
    ensures forall n :: n in t && n !in t0.flat ==> Fed(c, t0, n, t[n])
  {
    forall n | n in t && n !in t0.flat ensures Fed(c, t0, n, t[n]) {
      FedStays(c, cat0, t0, r, n, flat[n]);
    }
  }

  lemma EnterNothing(c: Config, cat0: Catalog, cat1: Catalog, b: ByModule, r: Unit)
    requires FollowsModules(c, cat0, b) && !IsFed(c, r) && !Has(cat0.byModule, r.moduleName, r.name)
    requires cat1.byModule == cat0.byModule
    ensures FollowsModules(c, cat1, b)
  {
    forall m, n | Has(b, m, n) && !Has(cat1.byModule, m, n) ensures Fed(c, cat1, n, b[m][n]) {
      FedStays(c, cat0, cat1, r, n, b[m][n]);
    }
  }

  // ---------------------------------------------------------------------
  // Whole runs
  // ---------------------------------------------------------------------

  lemma LoadableBefore(c: Config, us: seq<Unit>, k: nat)
    requires Loadable(c, us) && k <= |us|
    ensures Loadable(c, us[..k])
  {
    forall i | 0 <= i < k ensures Above(c, us[..k][i]) && OnceEach(us[..k], us[..k][i].name) {
      assert Above(c, us[i]) && OnceEach(us, us[i].name);
    }
  }

  /** The last unit's slot is still free. */
  lemma SlotFree(c: Config, us: seq<Unit>)
    requires us != [] && Loadable(c, us) && R.Run(us[..|us| - 1]).Accepted?
    ensures !Has(R.Run(us[..|us| - 1]).state.byModule, us[|us| - 1].moduleName, us[|us| - 1].name)
  {
    var k := |us| - 1;
    var b := R.Run(us[..k]).state.byModule;
    RunCatalogued(us[..k]);
    assert OnceEach(us, us[k].name);
    assert forall x :: x in us[..k] && x.name == us[k].name ==> x.moduleName != us[k].moduleName;
  }

  lemma EnteredAccepted(us: seq<Unit>, k: nat)
    requires R.Run(us).Accepted? && k == |us| - 1
    ensures R.Run(us[..k]).Accepted? && R.Run(us) == R.Registered(R.Run(us[..k]).state, us[k])
  {
  }

  lemma {:induction false} MixedFollows(c: Config, es: seq<Event>)
    requires Loadable(c, Entered(es)) && R.Run(Entered(es)).Accepted? && Guarded(c, es)
    ensures MixedRun(c, es).Accepted?
    ensures Follows(c, CatalogOf(R.Run(Entered(es)).state), CatalogOf(MixedRun(c, es).state))
    decreases |es|
  {
    if es == [] {
    } else {
      var k := |es| - 1;
      var us, before := Entered(es), Entered(es[..k]);
      if es[k].Enter? {
        assert us == before + [es[k].u] && us[..|us| - 1] == before;
        LoadableBefore(c, us, |us| - 1);
        EnteredAccepted(us, |us| - 1);
        MixedFollows(c, es[..k]);
        SlotFree(c, us);
        EnterFollows(c, R.Run(before).state, MixedRun(c, es[..k]).state, es[k].u);
      } else {
        assert us == before;
        MixedFollows(c, es[..k]);
        RunPlain(c, us);
        LookFollows(c, CatalogOf(R.Run(us).state), CatalogOf(MixedRun(c, es[..k]).state), es[k].raw, es[k].distro);
      }
    }
  }

  /** Over every run that mixes registrations and lookups, if no registration meets a flat slot that a feed's unit holds
      across distros, nothing is refused that the registrations alone would not be, and every lookup for a distro
      answers by the rule on the registrations so far. */
  lemma MixedRefines(c: Config, es: seq<Event>, raw: Name, distro: Name)
    requires Loadable(c, Entered(es)) && R.Run(Entered(es)).Accepted? && Guarded(c, es) && distro != ""
    ensures MixedRun(c, es).Accepted?
    ensures Rule(c, CatalogOf(MixedRun(c, es).state), raw, distro) ==
            Rule(c, CatalogOf(R.Run(Entered(es)).state), raw, distro)
  {
    MixedFollows(c, es);
    RunPlain(c, Entered(es));
    FollowsAnswers(c, CatalogOf(R.Run(Entered(es)).state), CatalogOf(MixedRun(c, es).state), Resolve(c, raw, distro),
      distro);
  }

  /** The guard cannot be dropped: once r was registered across a held slot, an untagged unit that ranks between the
      feed's and r takes the slot, which r would have kept had there been no lookup, and r's own distro gets the wrong
      unit. */
  lemma GuardNeeded(c: Config, s0: R.Registry, s: R.Registry, r: Unit, u: Unit)
    requires Plain(c, CatalogOf(s0)) && Follows(c, CatalogOf(s0), CatalogOf(s)) && r.name !in s0.units
             && HeldAcross(c, s, r)
    requires Above(c, r) && Above(c, u) && u.name == r.name && u.distro == "" && u.moduleIndex < r.moduleIndex
    requires Pin(c, r.name, r.distro) == ""
    ensures R.Registered(s0, r).Accepted? && R.Registered(R.Registered(s0, r).state, u).Accepted?
    ensures R.Registered(s, r).Accepted? && R.Registered(R.Registered(s, r).state, u).Accepted?
    ensures RuleFor(c, CatalogOf(R.Registered(R.Registered(s0, r).state, u).state), r.name, r.distro) == Hit(r)
    ensures RuleFor(c, CatalogOf(R.Registered(R.Registered(s, r).state, u).state), r.name, r.distro) == Hit(u) != Hit(r)
  {
    FedIsBelow(c, r.name, s.units[r.name], u);
  }

  lemma DistinctStored(b: ByModule, r: Unit)
    requires DistinctPriorities(b) && !Has(b, r.moduleName, r.name)
    requires forall m :: Has(b, m, r.name) ==> b[m][r.name].moduleIndex != r.moduleIndex
    ensures DistinctPriorities(Store(b, r))
  {
    forall m, k, n | Has(Store(b, r), m, n) && Has(Store(b, r), k, n) && m != k
      ensures Store(b, r)[m][n].moduleIndex != Store(b, r)[k][n].moduleIndex
    {
      StoreHas(b, r, m, n);
      StoreHas(b, r, k, n);
    }
  }

  lemma PlainStored(c: Config, cat: Catalog, r: Unit, flat: map<Name, Unit>)
    requires Plain(c, cat) && Above(c, r) && DistinctPriorities(Store(cat.byModule, r))
    requires flat == cat.flat[r.name := r] || (flat == cat.flat && r.name in cat.flat)
    ensures Plain(c, Catalog(flat, Store(cat.byModule, r)))
  {
    forall m, n | Has(Store(cat.byModule, r), m, n)
      ensures Above(c, Store(cat.byModule, r)[m][n]) && Store(cat.byModule, r)[m][n].moduleName == m
      ensures n in flat && Store(cat.byModule, r)[m][n].name == n && FeedIndex(c.feeds, m) == |c.feeds|
    {
      StoreHas(cat.byModule, r, m, n);
    }
  }

  /** A registration that the slots allow leaves catalogs of registrations. */
  lemma PlainStep(c: Config, s: R.Registry, r: Unit)
    requires Plain(c, CatalogOf(s)) && Above(c, r) && R.Registered(s, r).Accepted?
             && !Has(s.byModule, r.moduleName, r.name)
    requires forall m :: Has(s.byModule, m, r.name) ==> s.byModule[m][r.name].moduleIndex != r.moduleIndex
    ensures Plain(c, CatalogOf(R.Registered(s, r).state))
  {
    var t := R.Registered(s, r).state;
    if t.byModule != s.byModule || t.units != s.units {
      DistinctStored(s.byModule, r);
      PlainStored(c, CatalogOf(s), r, t.units);
    }
  }

  /** What one more registration of the name by another module can show. */
  ghost predicate AgreeAfter(c: Config, s0: R.Registry, s: R.Registry, r: Unit, u: Unit)
    requires R.Registered(s0, r).Accepted? && R.Registered(s, r).Accepted?
  {
    var a, b := R.Registered(R.Registered(s0, r).state, u), R.Registered(R.Registered(s, r).state, u);
    a.Accepted? && b.Accepted? &&
    RuleFor(c, CatalogOf(b.state), r.name, r.distro) == RuleFor(c, CatalogOf(a.state), r.name, r.distro)
  }

  ghost predicate Rival(c: Config, r: Unit, u: Unit) {
    u.name == r.name && Above(c, u) && u.moduleName != r.moduleName && u.moduleIndex != r.moduleIndex
  }

  /** The guard is exact: with a feed's unit in the slot of a name new to the registrations, r may be registered without
      any rival afterwards parting the answers for r's distro exactly when r does not meet the slot held across distros.
      m is some other module's name, and there is room for an index below r's. */
  lemma GuardIff(c: Config, s0: R.Registry, s: R.Registry, r: Unit, m: Name)
    requires Plain(c, CatalogOf(s0)) && Follows(c, CatalogOf(s0), CatalogOf(s)) && r.name !in s0.units && Above(c, r)
    requires r.distro != "" && Pin(c, r.name, r.distro) == "" && m != r.moduleName
    requires Above(c, r.(moduleName := m, moduleIndex := r.moduleIndex - 1))
    ensures R.Registered(s0, r).Accepted? && R.Registered(s, r).Accepted?
    ensures (forall u {:trigger Rival(c, r, u)} :: Rival(c, r, u) ==> AgreeAfter(c, s0, s, r, u)) <==>
            !HeldAcross(c, s, r)
  {
    if r.name in s.units { FedIsBelow(c, r.name, s.units[r.name], r); }
    if HeldAcross(c, s, r) {
      var u := Unit(r.name, "", m, r.moduleIndex - 1, "", [], map[], []);
      GuardNeeded(c, s0, s, r, u);
      assert Rival(c, r, u) && !AgreeAfter(c, s0, s, r, u);
    } else {
      EnterFollows(c, s0, s, r);
      PlainStep(c, s0, r);
      forall u | Rival(c, r, u) ensures AgreeAfter(c, s0, s, r, u) {
        RivalAgrees(c, s0, s, r, u);
      }
    }
  }

  lemma RivalAgrees(c: Config, s0: R.Registry, s: R.Registry, r: Unit, u: Unit)
    requires Plain(c, CatalogOf(s0)) && Follows(c, CatalogOf(s0), CatalogOf(s)) && r.name !in s0.units && Above(c, r)
    requires r.distro != "" && Rival(c, r, u) && !HeldAcross(c, s, r)
    requires R.Registered(s0, r).Accepted? && R.Registered(s, r).Accepted?
    ensures AgreeAfter(c, s0, s, r, u)
  {
    EnterFollows(c, s0, s, r);
    PlainStep(c, s0, r);
    var t0, t := R.Registered(s0, r).state, R.Registered(s, r).state;
    assert t0.units[r.name] == r == t.units[r.name];
    StoreHas(s0.byModule, r, u.moduleName, r.name);
    forall m | Has(t0.byModule, m, r.name) ensures m == r.moduleName && t0.byModule[m][r.name] == r {
      StoreHas(s0.byModule, r, m, r.name);
    }
    EnterFollows(c, t0, t, u);
    PlainStep(c, t0, u);
    FollowsAnswers(c, CatalogOf(R.Registered(t0, u).state), CatalogOf(R.Registered(t, u).state), r.name, r.distro);
  }

  /** Such a state comes of one lookup: debian's p is fed, then the project registers alpine's p. */
  lemma GuardCanFail() returns (c: Config, s: R.Registry, r: Unit, u: Unit)
    ensures MixedRun(c, [Look("p", "debian")]) == R.Accepted(s)
    ensures Plain(c, CatalogOf(R.EMPTY)) && Follows(c, CatalogOf(R.EMPTY), CatalogOf(s)) && HeldAcross(c, s, r)
    ensures Above(c, r) && Above(c, u) && u.name == r.name && u.distro == "" && u.moduleIndex < r.moduleIndex
    ensures Pin(c, r.name, r.distro) == ""
  {
    var d := Unit("p", "debian", "", 0, "", [], map[], []);
    var f := Feed("debian.main", "debian", 0, map["p" := Offered(d)]);
    c := Config([f], map[], map[]);
    r := Unit("p", "alpine", "", 8, "", [], map[], []);
    u := Unit("p", "", "u", 2, "", [], map[], []);
    assert "alpine"[0] != "debian"[0] && |"debian.main"| > 1;
    var es := [Look("p", "debian")];
    assert es[..0] == [];
    assert MixedRun(c, es) == R.Accepted(Looked(c, R.EMPTY, "p", "debian"));
    s := Looked(c, R.EMPTY, "p", "debian");
    LookFollows(c, CatalogOf(R.EMPTY), CatalogOf(R.EMPTY), "p", "debian");
    assert AskAll(c.feeds, "p", "debian") == Hit(Stamp(f, d));
    assert FeedIndex(c.feeds, "debian.main") == 0;
  }
}
