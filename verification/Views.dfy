/**
 The per-distro views of a loaded project (internal/starlark/loader.go), the lookup
 that reads them and the routing of virtual names (internal/starlark/types.go). A view
 is computed once and never refreshed, while the catalog below it keeps growing.
 */
module Views {
  import opened Names
  import opened Catalogs

  type Pins = map<Name, map<Name, Name>>
  type ViewTable = map<Name, map<Name, Unit>>

  /** The module prefer_modules names for a unit, or "" for none. */
  function PinFor(pins: Pins, distro: Name, n: Name): Name {
    if distro in pins && n in pins[distro] then pins[distro][n] else ""
  }

  /** The pin names a module that holds a visible unit of that name. */
  predicate PinHolds(pins: Pins, b: ByModule, distro: Name, n: Name) {
    PinFor(pins, distro, n) != "" && Candidate(b, n, distro, PinFor(pins, distro, n))
  }

  /** An answer the rule allows: the pinned module's unit, else some visible one of greatest priority. */
  ghost predicate Resolves(pins: Pins, b: ByModule, distro: Name, n: Name, f: Found) {
    if PinHolds(pins, b, distro, n) then f == Hit(b[PinFor(pins, distro, n)][n]) else IsBest(b, n, distro, f)
  }

  /** One such answer; the only one where no two visible units tie. */
  ghost function ResolveRule(pins: Pins, b: ByModule, distro: Name, n: Name): Found {
    if PinHolds(pins, b, distro, n) then Hit(b[PinFor(pins, distro, n)][n]) else BestVisible(b, n, distro)
  }

  lemma RuleResolves(pins: Pins, b: ByModule, distro: Name, n: Name)
    ensures Resolves(pins, b, distro, n, ResolveRule(pins, b, distro, n))
    ensures PinHolds(pins, b, distro, n) || Unambiguous(b, n, distro) ==>
              forall f :: Resolves(pins, b, distro, n, f) ==> f == ResolveRule(pins, b, distro, n)
  {
    BestIsBest(b, n, distro);
    if Unambiguous(b, n, distro) {
      forall f | IsBest(b, n, distro, f) ensures f == BestVisible(b, n, distro) { OneBest(b, n, distro, f); }
    }
  }

  /** The unit is visible, and is the pinned one or outranked by no other visible one; it is missing only if none is. */
  lemma RuleChoosesWell(pins: Pins, b: ByModule, distro: Name, n: Name, f: Found)
    requires Resolves(pins, b, distro, n, f)
    ensures f.Hit? <==> exists m :: Candidate(b, n, distro, m)
    ensures f.Hit? ==>
              && Visible(f.u, distro)
              && (exists m :: Has(b, m, n) && f.u == b[m][n])
              && (PinHolds(pins, b, distro, n) ==> f.u == b[PinFor(pins, distro, n)][n])
              && (!PinHolds(pins, b, distro, n) ==> forall m :: Candidate(b, n, distro, m) ==>
                    b[m][n].moduleIndex <= f.u.moduleIndex)
  {
    if PinHolds(pins, b, distro, n) {
      assert Has(b, PinFor(pins, distro, n), n);
    } else if f.Hit? {
      var m :| Top(b, n, distro, m) && f.u == b[m][n];
      assert Has(b, m, n);
    }
  }

  // ---------------------------------------------------------------------
  // Late additions
  // ---------------------------------------------------------------------

  /** Both catalogs hold the same units of that name. */
  ghost predicate SameUnits(b: ByModule, b': ByModule, n: Name) {
    forall m {:trigger Has(b, m, n)} {:trigger Has(b', m, n)} ::
      (Has(b, m, n) <==> Has(b', m, n)) && (Has(b, m, n) ==> b[m][n] == b'[m][n])
  }

  lemma AlsoTop(b: ByModule, b': ByModule, n: Name, distro: Name, x: Name)
    requires Top(b, n, distro, x) && SameUnits(b, b', n)
    ensures Top(b', n, distro, x) && b'[x][n] == b[x][n]
  {
    assert Has(b, x, n);
    forall k | Candidate(b', n, distro, k) ensures b'[k][n].moduleIndex <= b'[x][n].moduleIndex {
      assert Has(b, k, n) && Candidate(b, n, distro, k);
    }
  }

  /** Two catalogs that agree on a name resolve it alike. */
  lemma SameNameResolves(pins: Pins, b: ByModule, b': ByModule, distro: Name, n: Name, f: Found)
    requires SameUnits(b, b', n) && Resolves(pins, b, distro, n, f)
    ensures Resolves(pins, b', distro, n, f)
  {
    assert Has(b, PinFor(pins, distro, n), n) <==> Has(b', PinFor(pins, distro, n), n);
    if !PinHolds(pins, b, distro, n) {
      if f.Hit? {
        var m :| Top(b, n, distro, m) && f.u == b[m][n];
        AlsoTop(b, b', n, distro, m);
      } else {
        forall m ensures !Candidate(b', n, distro, m) {
          assert Has(b, m, n) <==> Has(b', m, n);
          assert !Candidate(b, n, distro, m);
        }
      }
    }
  }

  function StoreAll(b: ByModule, us: seq<Unit>): ByModule
    decreases |us|
  {
    if us == [] then b else StoreAll(Store(b, us[0]), us[1..])
  }

  lemma {:induction false} StoreAllOthers(b: ByModule, us: seq<Unit>, m: Name, n: Name)
    requires forall i :: 0 <= i < |us| ==> us[i].name != n
    ensures Has(StoreAll(b, us), m, n) <==> Has(b, m, n)
    ensures Has(b, m, n) ==> StoreAll(b, us)[m][n] == b[m][n]
    decreases |us|
  {
    if us == [] {
    } else {
      StoreHas(b, us[0], m, n);
      StoreAllOthers(Store(b, us[0]), us[1..], m, n);
    }
  }

  /** What a view must hold: for every known distro, an answer of the rule for every name that has one. */
  ghost predicate BuiltFrom(pins: Pins, b: ByModule, views: ViewTable) {
    forall d, n {:trigger n in views[d]} :: d in views ==> ViewedFrom(pins, b, d, views[d], n)
  }

  ghost predicate ViewedFrom(pins: Pins, b: ByModule, distro: Name, view: map<Name, Unit>, n: Name) {
    && (n in view <==> exists m :: Candidate(b, n, distro, m))
    && (n in view ==> Resolves(pins, b, distro, n, Hit(view[n])))
  }

  /** An answer LookupUnit may give: the view's, behind it the live catalog's; nothing for an unknown distro. */
  ghost predicate LookupAnswers(pins: Pins, b: ByModule, views: ViewTable, distro: Name, n: Name, f: Found) {
    if distro in views then
      if n in views[distro] then f == Hit(views[distro][n]) else Resolves(pins, b, distro, n, f)
    else if views != map[] then f == Miss
    else IsBest(b, n, "", f)
  }

  /** One such answer. */
  ghost function LookupRule(pins: Pins, b: ByModule, views: ViewTable, distro: Name, n: Name): Found {
    if distro in views then
      if n in views[distro] then Hit(views[distro][n]) else ResolveRule(pins, b, distro, n)
    else if views != map[] then Miss
    else BestVisible(b, n, "")
  }

  /** No tie can make two lookups of one name differ. */
  ghost predicate Determined(pins: Pins, b: ByModule, views: ViewTable, distro: Name) {
    forall n {:trigger Unambiguous(b, n, distro)} {:trigger LookupRule(pins, b, views, distro, n)} ::
      if distro in views then n in views[distro] || PinHolds(pins, b, distro, n) || Unambiguous(b, n, distro)
      else views != map[] || Unambiguous(b, n, "")
  }

  lemma LookupDetermined(pins: Pins, b: ByModule, views: ViewTable, distro: Name, n: Name, f: Found)
    requires Determined(pins, b, views, distro)
    ensures LookupAnswers(pins, b, views, distro, n, f) <==> f == LookupRule(pins, b, views, distro, n)
  {
    RuleResolves(pins, b, distro, n);
    assert LookupRule(pins, b, views, distro, n) == LookupRule(pins, b, views, distro, n);
    if distro !in views && views == map[] { OneBest(b, n, "", f); }
  }

  /** Fresh views settle every tie: a name they lack has no visible unit at all. */
  lemma FreshViewsDetermine(pins: Pins, b: ByModule, views: ViewTable, distro: Name)
    requires BuiltFrom(pins, b, views) && distro in views
    ensures Determined(pins, b, views, distro)
  {
    forall n | n !in views[distro] ensures Unambiguous(b, n, distro) {
      assert ViewedFrom(pins, b, distro, views[distro], n);
    }
  }

  /** After any late additions of names a distro's view lacks, lookups follow the rule on the live catalog. */
  lemma FrozenViewAgrees(pins: Pins, b: ByModule, views: ViewTable, us: seq<Unit>, distro: Name, n: Name, f: Found)
    requires BuiltFrom(pins, b, views) && distro in views
    requires forall i :: 0 <= i < |us| ==> us[i].name !in views[distro]
    requires LookupAnswers(pins, StoreAll(b, us), views, distro, n, f)
    ensures Resolves(pins, StoreAll(b, us), distro, n, f)
  {
    if n in views[distro] {
      assert ViewedFrom(pins, b, distro, views[distro], n);
      forall m ensures (Has(b, m, n) <==> Has(StoreAll(b, us), m, n))
        && (Has(b, m, n) ==> b[m][n] == StoreAll(b, us)[m][n])
      {
        StoreAllOthers(b, us, m, n);
      }
      SameNameResolves(pins, b, StoreAll(b, us), distro, n, f);
    }
  }

  /** u, from a module that had no such name, would displace the viewed unit. */
  predicate Displaces(pins: Pins, b: ByModule, distro: Name, u: Unit, viewed: Unit) {
    && Visible(u, distro)
    && !PinHolds(pins, b, distro, u.name)
    && (u.moduleIndex > viewed.moduleIndex || (u.moduleName != "" && PinFor(pins, distro, u.name) == u.moduleName))
  }

  /** Units are stored under the module they come from. */
  ghost predicate AtHome(b: ByModule) {
    forall m, n :: Has(b, m, n) ==> b[m][n].moduleName == m
  }

  /** Adding a name the view does hold leaves the view right exactly when the newcomer would not displace it. */
  lemma ViewGoesStaleIff(pins: Pins, b: ByModule, views: ViewTable, distro: Name, u: Unit)
    requires BuiltFrom(pins, b, views) && distro in views && u.name in views[distro]
    requires AtHome(b) && !Has(b, u.moduleName, u.name)
    ensures Resolves(pins, Store(b, u), distro, u.name, Hit(views[distro][u.name]))
       <==> !Displaces(pins, b, distro, u, views[distro][u.name])
  {
    var n, b', v := u.name, Store(b, u), views[distro][u.name];
    assert ViewedFrom(pins, b, distro, views[distro], n);
    StoreHas(b, u, PinFor(pins, distro, n), n);
    if PinHolds(pins, b, distro, n) {
      assert PinHolds(pins, b', distro, n);
    } else {
      var t :| Top(b, n, distro, t) && v == b[t][n];
      assert Has(b, t, n) && v.moduleName == t;
      if !PinHolds(pins, b', distro, n) { NewcomerRanks(b, u, distro, t); }
    }
  }

  /** Without pins the old best stays best exactly when the newcomer is not visible or does not rank above it. */
  lemma NewcomerRanks(b: ByModule, u: Unit, distro: Name, t: Name)
    requires AtHome(b) && !Has(b, u.moduleName, u.name) && Top(b, u.name, distro, t)
    ensures IsBest(Store(b, u), u.name, distro, Hit(b[t][u.name])) <==>
            !(Visible(u, distro) && u.moduleIndex > b[t][u.name].moduleIndex)
  {
    var n := u.name;
    var b': ByModule := Store(b, u);
    assert Has(b, t, n) && t != u.moduleName;
    StoreHas(b, u, t, n);
    StoreHas(b, u, u.moduleName, n);
    if Visible(u, distro) && u.moduleIndex > b[t][n].moduleIndex {
      assert Candidate(b', n, distro, u.moduleName);
    } else {
      forall k | Candidate(b', n, distro, k) ensures b'[k][n].moduleIndex <= b'[t][n].moduleIndex {
        StoreHas(b, u, k, n);
        if k != u.moduleName { assert Candidate(b, n, distro, k); }
      }
      assert Top(b', n, distro, t);
    }
  }

  /** A view that holds module m's unit, and a better one that comes too late. */
  lemma ViewCanGoStale() returns (b: ByModule, views: ViewTable, u: Unit)
    ensures BuiltFrom(map[], b, views) && AtHome(b) && "d" in views && "p" in views["d"] && u.name == "p"
            && !Has(b, u.moduleName, "p")
    ensures !Resolves(map[], Store(b, u), "d", "p", Hit(views["d"]["p"]))
  {
    var v := Unit("p", "d", "m", 1, "", [], map[], []);
    u := Unit("p", "d", "k", 2, "", [], map[], []);
    b, views := map["m" := map["p" := v]], map["d" := map["p" := v]];
    assert "m"[0] != "k"[0];
    assert Has(b, "m", "p") && forall m, n :: Has(b, m, n) ==> m == "m" && n == "p";
    assert Candidate(b, "p", "d", "m") && Top(b, "p", "d", "m");
    forall d, n | d in views ensures ViewedFrom(map[], b, d, views[d], n) {}
    ViewGoesStaleIff(map[], b, views, "d", u);
  }

  // ---------------------------------------------------------------------
  // Virtual names
  // ---------------------------------------------------------------------

  /** ProvidesViews: not there while the project is loading. */
  datatype Index = NotBuilt | Built(table: map<Name, map<Name, Name>>)

  /** A loaded project; provided is the global table, from virtual name to unit name. */
  datatype Loaded = Loaded(pins: Pins, byModule: ByModule, views: ViewTable, index: Index, provided: map<Name, Name>)

  /** Some unit tagged for the distro has that name and offers v. */
  ghost predicate Offers(b: ByModule, distro: Name, v: Name, name: Name) {
    exists m, n :: Has(b, m, n) && b[m][n].distro == distro && v in b[m][n].offers && b[m][n].name == name
  }

  predicate HasEntry(table: map<Name, map<Name, Name>>, d: Name, v: Name) {
    d in table && v in table[d]
  }

  /** The index names, for every distro and virtual name some tagged unit offers, one such unit. */
  ghost predicate IndexFrom(b: ByModule, table: map<Name, map<Name, Name>>) {
    forall d, v {:trigger HasEntry(table, d, v)} :: d != "" && v != "" ==>
      (HasEntry(table, d, v) <==> exists name :: Offers(b, d, v, name))
      && (HasEntry(table, d, v) ==> Offers(b, d, v, table[d][v]))
  }

  /** The lookup found a unit tagged for the distro itself. */
  predicate Tagged(f: Found, distro: Name) {
    distro != "" && f.Hit? && f.u.distro == distro
  }

  /** The per-distro index, or the scan that stands in for it, has an answer. */
  ghost predicate Indexed(s: Loaded, v: Name, distro: Name) {
    distro != "" && match s.index
                    case Built(table) => HasEntry(table, distro, v)
                    case NotBuilt => exists name :: Offers(s.byModule, distro, v, name)
  }

  function GlobalOf(s: Loaded, v: Name): Name {
    if v in s.provided then s.provided[v] else ""
  }

  /** r is what ResolveProvidesForDistro returns when LookupUnit answers f. */
  ghost predicate Provides(s: Loaded, v: Name, distro: Name, f: Found, r: Name) {
    if v == "" then r == ""
    else if Tagged(f, distro) then r == f.u.name
    else if Indexed(s, v, distro) then
      match s.index
      case Built(table) => r == table[distro][v]
      case NotBuilt => Offers(s.byModule, distro, v, r)
    else r == GlobalOf(s, v)
  }

  /** Some module has a unit of that name the distro can see. */
  ghost predicate HasVisible(b: ByModule, distro: Name, n: Name) {
    exists m :: Candidate(b, n, distro, m)
  }

  /** Views and index are up to date, and units are stored under their names. */
  ghost predicate UpToDate(s: Loaded) {
    && BuiltFrom(s.pins, s.byModule, s.views)
    && (s.index.Built? ==> IndexFrom(s.byModule, s.index.table))
    && forall m, n :: Has(s.byModule, m, n) ==> s.byModule[m][n].name == n
  }

  /** What the documentation promises, a provider the distro can see or none at all, holds exactly when the view or the
      index answers, or the global provider is one the distro can see, or there is none: the last resort is not
      filtered. */
  lemma ProviderVisibleIff(s: Loaded, v: Name, distro: Name, f: Found, r: Name)
    requires UpToDate(s) && v != "" && distro != ""
    requires LookupAnswers(s.pins, s.byModule, s.views, distro, v, f) && Provides(s, v, distro, f, r)
    ensures r == "" || HasVisible(s.byModule, distro, r)
       <==> || Tagged(f, distro)
            || Indexed(s, v, distro)
            || GlobalOf(s, v) == ""
            || HasVisible(s.byModule, distro, GlobalOf(s, v))
  {
    if Tagged(f, distro) {
      TaggedIsThere(s, v, distro, f);
    } else if Indexed(s, v, distro) {
      assert Offers(s.byModule, distro, v, r);
      var m, n :| Has(s.byModule, m, n) && s.byModule[m][n].distro == distro && v in s.byModule[m][n].offers
        && s.byModule[m][n].name == r;
      assert Candidate(s.byModule, r, distro, m);
    }
  }

  lemma TaggedIsThere(s: Loaded, v: Name, distro: Name, f: Found)
    requires UpToDate(s) && LookupAnswers(s.pins, s.byModule, s.views, distro, v, f) && Tagged(f, distro)
    ensures f.u.name == v && HasVisible(s.byModule, distro, v)
  {
    if distro in s.views {
      assert v in s.views[distro] ==> ViewedFrom(s.pins, s.byModule, distro, s.views[distro], v);
      RuleChoosesWell(s.pins, s.byModule, distro, v, f);
    } else {
      var m :| Top(s.byModule, v, "", m) && f.u == s.byModule[m][v];
      assert Has(s.byModule, m, v) && Candidate(s.byModule, v, distro, m);
    }
  }

  /** The index over some of the units: an entry for what they offer, naming one of those that do. */
  ghost predicate IndexOver(b: ByModule, done: set<(Name, Name)>, table: map<Name, map<Name, Name>>) {
    forall d, v {:trigger HasEntry(table, d, v)} :: d != "" && v != "" ==>
      (HasEntry(table, d, v) <==> exists p :: p in done && OfferedBy(b, p, d, v))
      && (HasEntry(table, d, v) ==> exists p :: p in done && OfferedBy(b, p, d, v) && b[p.0][p.1].name == table[d][v])
  }

  predicate OfferedBy(b: ByModule, p: (Name, Name), d: Name, v: Name) {
    Has(b, p.0, p.1) && b[p.0][p.1].distro == d && v in b[p.0][p.1].offers
  }

  /** The index after the unit: its offers are added where they are new. */
  ghost predicate Added(table: map<Name, map<Name, Name>>, u: Unit, vs: seq<Name>, after: map<Name, map<Name, Name>>) {
    forall d, v {:trigger HasEntry(after, d, v)} :: d != "" && v != "" ==>
      (HasEntry(after, d, v) <==> HasEntry(table, d, v) || (d == u.distro && v in vs))
      && (HasEntry(table, d, v) ==> after[d][v] == table[d][v])
      && (HasEntry(after, d, v) && !HasEntry(table, d, v) ==> after[d][v] == u.name)
  }

  lemma OfferAdded(table: map<Name, map<Name, Name>>, u: Unit, i: nat, before: map<Name, map<Name, Name>>,
                   after: map<Name, map<Name, Name>>)
    requires i < |u.offers| && u.distro != "" && Added(table, u, u.offers[..i], before)
    requires var v, view := u.offers[i], if u.distro in before then before[u.distro] else map[];
             after == if v != "" && v !in view then before[u.distro := view[v := u.name]] else before
    ensures Added(table, u, u.offers[..i + 1], after)
  {
    assert u.offers[..i + 1] == u.offers[..i] + [u.offers[i]];
    forall d, v | d != "" && v != ""
      ensures HasEntry(after, d, v) <==> HasEntry(table, d, v) || (d == u.distro && v in u.offers[..i + 1])
      ensures HasEntry(table, d, v) ==> after[d][v] == table[d][v]
      ensures HasEntry(after, d, v) && !HasEntry(table, d, v) ==> after[d][v] == u.name
    {
      assert HasEntry(before, d, v) <==> HasEntry(table, d, v) || (d == u.distro && v in u.offers[..i]);
    }
  }

  lemma IndexStep(b: ByModule, done: set<(Name, Name)>, table: map<Name, map<Name, Name>>, p: (Name, Name),
                  after: map<Name, map<Name, Name>>)
    requires IndexOver(b, done, table) && Has(b, p.0, p.1) && Added(table, b[p.0][p.1], b[p.0][p.1].offers, after)
    ensures IndexOver(b, done + {p}, after)
  {
    forall d, v | d != "" && v != ""
      ensures HasEntry(after, d, v) <==> exists q :: q in done + {p} && OfferedBy(b, q, d, v)
      ensures HasEntry(after, d, v) ==>
              exists q :: q in done + {p} && OfferedBy(b, q, d, v) && b[q.0][q.1].name == after[d][v]
    {
      assert HasEntry(after, d, v) <==> HasEntry(table, d, v) || OfferedBy(b, p, d, v);
      if HasEntry(table, d, v) {
        var q :| q in done && OfferedBy(b, q, d, v) && b[q.0][q.1].name == table[d][v];
        assert q in done + {p};
      } else if OfferedBy(b, p, d, v) {
        assert p in done + {p};
      }
    }
  }

  lemma IndexComplete(b: ByModule, done: set<(Name, Name)>, table: map<Name, map<Name, Name>>)
    requires IndexOver(b, done, table) && forall m, n :: Has(b, m, n) ==> (m, n) in done
    ensures IndexFrom(b, table)
  {
    forall d, v | d != "" && v != ""
      ensures HasEntry(table, d, v) <==> exists name :: Offers(b, d, v, name)
      ensures HasEntry(table, d, v) ==> Offers(b, d, v, table[d][v])
    {
      if name :| Offers(b, d, v, name) {
        var m, n :| Has(b, m, n) && b[m][n].distro == d && v in b[m][n].offers && b[m][n].name == name;
        assert (m, n) in done && OfferedBy(b, (m, n), d, v);
      }
      if HasEntry(table, d, v) {
        var p :| p in done && OfferedBy(b, p, d, v) && b[p.0][p.1].name == table[d][v];
        assert Has(b, p.0, p.1) && Offers(b, d, v, table[d][v]);
      }
    }
  }

  /** A toolchain only debian has, asked for by alpine: the global table hands it out all the same. */
  lemma CrossDistroProvider() returns (s: Loaded)
    ensures UpToDate(s) && LookupAnswers(s.pins, s.byModule, s.views, "alpine", "toolchain", Miss)
    ensures Provides(s, "toolchain", "alpine", Miss, "glibc") && !HasVisible(s.byModule, "alpine", "glibc")
  {
    var u := Unit("glibc", "debian", "m", 1, "", [], map[], ["toolchain"]);
    var b: ByModule := map["m" := map["glibc" := u]];
    var views: ViewTable := map["alpine" := map[], "debian" := map["glibc" := u]];
    assert "alpine" != "debian" by { assert "alpine"[0] != "debian"[0]; }
    assert "glibc" != "toolchain" by { assert "glibc"[0] != "toolchain"[0]; }
    var table: map<Name, map<Name, Name>> := map["debian" := map["toolchain" := "glibc"]];
    s := Loaded(map[], b, views, Built(table), map["toolchain" := "glibc"]);
    assert Has(b, "m", "glibc") && forall m, n :: Has(b, m, n) ==> m == "m" && n == "glibc";
    forall d, n | d in views ensures ViewedFrom(s.pins, b, d, views[d], n) {
      if d == "debian" && n == "glibc" {
        assert Candidate(b, n, d, "m");
        assert Top(b, n, d, "m");
      }
    }
    assert "toolchain" !in views["alpine"];
    forall d, v | d != "" && v != ""
      ensures HasEntry(table, d, v) <==> exists name :: Offers(b, d, v, name)
      ensures HasEntry(table, d, v) ==> Offers(b, d, v, table[d][v])
    {
      if HasEntry(table, d, v) { assert Has(b, "m", "glibc") && Offers(b, d, v, "glibc"); }
    }
  }

  /** The unit of the module pinned for the name if that has one the distro sees, else one of greatest index. */
  ghost predicate Chosen(pins: Pins, b: ByModule, distro: Name, n: Name, f: Found) {
    if distro in pins && n in pins[distro] && pins[distro][n] != "" && Sees(b, pins[distro][n], n, distro)
    then f == Hit(b[pins[distro][n]][n])
    else BestSeen(b, n, distro, f)
  }

  lemma ViewedChosen(pins: Pins, b: ByModule, distro: Name, view: map<Name, Unit>, n: Name)
    requires ViewedFrom(pins, b, distro, view, n)
    ensures Chosen(pins, b, distro, n, if n in view then Hit(view[n]) else Miss)
  {
    forall m ensures Candidate(b, n, distro, m) <==> Sees(b, m, n, distro) {}
    if n in view { BestMeans(b, n, distro, Hit(view[n])); }
  }

  // ---------------------------------------------------------------------
  // The project
  // ---------------------------------------------------------------------

  function CatalogNames(b: ByModule): (r: set<Name>)
    ensures forall m, n :: Has(b, m, n) ==> n in r
  {
    set m, n | m in b && n in b[m] :: n
  }

  /** The distro tags units carry. */
  function Tags(b: ByModule): set<Name> {
    set m, n | m in b && n in b[m] && b[m][n].distro != "" :: b[m][n].distro
  }

  class Project {
    const pins: Pins
    const defaultDistro: Name
    const defaultDistroOverride: Name
    var unitsByModule: ByModule
    var views: ViewTable
    var index: Index
    var provided: map<Name, Name>

    ghost function Now(): Loaded
      reads this
    {
      Loaded(pins, unitsByModule, views, index, provided)
    }

    constructor (pins: Pins, defaultDistro: Name, defaultDistroOverride: Name, unitsByModule: ByModule,
        provided: map<Name, Name>)
      ensures Now() == Loaded(pins, unitsByModule, map[], NotBuilt, provided)
      ensures this.defaultDistro == defaultDistro && this.defaultDistroOverride == defaultDistroOverride
    {
      this.pins, this.unitsByModule, views, index := pins, unitsByModule, map[], NotBuilt;
      this.defaultDistro, this.defaultDistroOverride, this.provided := defaultDistro, defaultDistroOverride, provided;
    }

    /** The distros that get a view: the defaults, every pinned one, every tag. */
    function KnownDistros(): set<Name>
      reads this
    {
      ({defaultDistro, defaultDistroOverride} - {""}) + pins.Keys + Tags(unitsByModule)
    }

    method ResolveForDistro(distro: Name, n: Name) returns (f: Found)
      ensures Resolves(pins, unitsByModule, distro, n, f)
      ensures Chosen(pins, unitsByModule, distro, n, f)
    {
      if distro in pins && n in pins[distro] && pins[distro][n] != "" {
        var m := pins[distro][n];
        if m in unitsByModule && n in unitsByModule[m] && Visible(unitsByModule[m][n], distro) {
          return Hit(unitsByModule[m][n]);
        }
      }
      f := FindVisible(unitsByModule, n, distro);
    }

    /** One distro's view: every catalogued name that resolves there. */
    method BuildView(distro: Name) returns (view: map<Name, Unit>)
      ensures forall n :: ViewedFrom(pins, unitsByModule, distro, view, n)
    {
      var all := CatalogNames(unitsByModule);
      var left := all;
      view := map[];
      while left != {}
        invariant left <= all && view.Keys <= all - left
        invariant forall n :: n in all - left ==> ViewedFrom(pins, unitsByModule, distro, view, n)
        decreases left
      {
        var n :| n in left;
        var f := ResolveForDistro(distro, n);
        RuleChoosesWell(pins, unitsByModule, distro, n, f);
        ghost var before := view;
        if f.Hit? { view := view[n := f.u]; }
        left := left - {n};
        forall k | k in all - left ensures ViewedFrom(pins, unitsByModule, distro, view, k) {
          if k != n { assert ViewedFrom(pins, unitsByModule, distro, before, k); }
        }
      }
      forall n ensures ViewedFrom(pins, unitsByModule, distro, view, n) {
        if n !in all {
          assert forall m :: Candidate(unitsByModule, n, distro, m) ==> Has(unitsByModule, m, n);
        }
      }
    }

    method BuildDistroViews()
      modifies this`views
      ensures BuiltFrom(pins, unitsByModule, views) && views.Keys == KnownDistros()
      ensures forall d :: d in pins || (d != "" && (d == defaultDistro || d == defaultDistroOverride)) ==> d in views
      ensures forall m, n {:trigger n in unitsByModule[m]} ::
                (m in unitsByModule && n in unitsByModule[m] && unitsByModule[m][n].distro != "") ==>
                  unitsByModule[m][n].distro in views
      ensures forall d :: d in views && d !in pins && d != defaultDistro && d != defaultDistroOverride ==>
                d != "" && exists m, n :: m in unitsByModule && n in unitsByModule[m] && unitsByModule[m][n].distro == d
      ensures forall d, n {:trigger n in views[d]} :: d in views ==>
                Chosen(pins, unitsByModule, d, n, if n in views[d] then Hit(views[d][n]) else Miss)
    {
      var left := KnownDistros();
      var built: ViewTable := map[];
      while left != {}
        invariant left <= KnownDistros() && built.Keys == KnownDistros() - left
        invariant BuiltFrom(pins, unitsByModule, built)
        decreases left
      {
        var d :| d in left;
        var view := BuildView(d);
        ghost var before := built;
        built := built[d := view];
        forall k, n | k in built ensures ViewedFrom(pins, unitsByModule, k, built[k], n) {
          if k != d { assert k in before && built[k] == before[k] && (n in before[k] || n !in before[k]); }
        }
        left := left - {d};
      }
      views := built;
      forall d, n | d in views
        ensures Chosen(pins, unitsByModule, d, n, if n in views[d] then Hit(views[d][n]) else Miss)
      {
        assert ViewedFrom(pins, unitsByModule, d, views[d], n);
        ViewedChosen(pins, unitsByModule, d, views[d], n);
      }
    }

    /** The view's unit; the live catalog's for a name the view lacks; nothing for a distro without a view; and before
        there are views, any unit of greatest index. */
    method LookupUnit(distro: Name, n: Name) returns (f: Found)
      ensures LookupAnswers(pins, unitsByModule, views, distro, n, f)
      ensures distro in views && n in views[distro] ==> f == Hit(views[distro][n])
      ensures distro in views && n !in views[distro] ==> Chosen(pins, unitsByModule, distro, n, f)
      ensures distro !in views && views != map[] ==> f == Miss
      ensures views == map[] ==> BestSeen(unitsByModule, n, "", f)
    {
      if distro in views {
        if n in views[distro] {
          return Hit(views[distro][n]);
        }
        f := ResolveForDistro(distro, n);
      } else if |views| > 0 {
        f := Miss;
      } else {
        f := AnyUnit(n);
      }
    }

    /** Some unit of greatest priority of that name, whatever its distro; the one, where no two tie. */
    method AnyUnit(n: Name) returns (f: Found)
      ensures IsBest(unitsByModule, n, "", f) && BestSeen(unitsByModule, n, "", f)
      ensures Unambiguous(unitsByModule, n, "") ==> f == BestVisible(unitsByModule, n, "")
    {
      f := FindVisible(unitsByModule, n, "");
    }

    /** One unit's offers, each kept unless another unit was there first. */
    method AddOffers(table0: map<Name, map<Name, Name>>, u: Unit) returns (table: map<Name, map<Name, Name>>)
      ensures Added(table0, u, u.offers, table)
    {
      table := table0;
      if u.distro == "" || |u.offers| == 0 {
        return;
      }
      for i := 0 to |u.offers|
        invariant Added(table0, u, u.offers[..i], table)
      {
        var v := u.offers[i];
        ghost var before := table;
        var view := if u.distro in table then table[u.distro] else map[];
        if v != "" && v !in view {
          table := table[u.distro := view[v := u.name]];
        }
        OfferAdded(table0, u, i, before, table);
      }
      assert u.offers[..|u.offers|] == u.offers;
    }

    /** The index holds exactly what the tagged units offer, whichever order they are met in. */
    method BuildProvidesViews()
      modifies this`index
      ensures index.Built? && IndexFrom(unitsByModule, index.table)
    {
      var all := set m, n | m in unitsByModule && n in unitsByModule[m] :: (m, n);
      var left := all;
      var table: map<Name, map<Name, Name>> := map[];
      while left != {}
        invariant left <= all && IndexOver(unitsByModule, all - left, table)
        decreases left
      {
        var p :| p in left;
        ghost var before := table;
        table := AddOffers(table, unitsByModule[p.0][p.1]);
        IndexStep(unitsByModule, all - left, before, p, table);
        assert all - left + {p} == all - (left - {p});
        left := left - {p};
      }
      assert all - {} == all;
      IndexComplete(unitsByModule, all, table);
      index := Built(table);
    }

    /** The unit that stands for a virtual name in a distro, or "" for none. */
    method ResolveProvidesForDistro(v: Name, distro: Name) returns (r: Name)
      ensures exists f :: LookupAnswers(pins, unitsByModule, views, distro, v, f) && Provides(Now(), v, distro, f, r)
    {
      var f := LookupUnit(distro, v);
      if v == "" {
        return "";
      }
      if distro != "" && f.Hit? && f.u.distro == distro {
        return f.u.name;
      }
      if distro != "" && index.Built? && distro in index.table && v in index.table[distro] {
        return index.table[distro][v];
      }
      if distro != "" && index.NotBuilt? {
        var found;
        found, r := Scan(v, distro);
        if found {
          return;
        }
      }
      r := if v in provided then provided[v] else "";
    }

    /** The scan that stands in for the index while the project is loading. */
    method Scan(v: Name, distro: Name) returns (found: bool, name: Name)
      ensures found ==> Offers(unitsByModule, distro, v, name)
      ensures !found ==> forall other :: !Offers(unitsByModule, distro, v, other)
    {
      var all := set m, n | m in unitsByModule && n in unitsByModule[m] :: (m, n);
      var left := all;
      while left != {}
        invariant left <= all && forall p :: p in all - left ==> !OfferedBy(unitsByModule, p, distro, v)
        decreases left
      {
        var p :| p in left;
        var u := unitsByModule[p.0][p.1];
        if u.distro == distro && v in u.offers {
          assert Has(unitsByModule, p.0, p.1);
          return true, u.name;
        }
        left := left - {p};
      }
      found, name := false, "";
      forall m, n | Has(unitsByModule, m, n) ensures !OfferedBy(unitsByModule, (m, n), distro, v) {
        assert (m, n) in all - left;
      }
      assert forall m, n :: Has(unitsByModule, m, n) ==> !OfferedBy(unitsByModule, (m, n), distro, v);
    }

    /** The engine materialises a unit late: it is filed, every other slot keeps its unit, and the frozen views stay
        right for every name they lack, and for a name they hold exactly if the newcomer would not displace its unit. */
    method Materialize(u: Unit)
      modifies this`unitsByModule
      ensures Filed(unitsByModule, u)
      ensures forall m, n :: !(m == u.moduleName && n == u.name) ==> SameSlot(old(unitsByModule), unitsByModule, m, n)
      ensures BuiltFrom(pins, old(unitsByModule), views) ==>
                forall d, n, f ::
                  (d in views && u.name !in views[d] && LookupAnswers(pins, unitsByModule, views, d, n, f)) ==>
                    Resolves(pins, unitsByModule, d, n, f)
      ensures BuiltFrom(pins, old(unitsByModule), views) && AtHome(old(unitsByModule))
              && !Has(old(unitsByModule), u.moduleName, u.name) ==>
                forall d :: d in views && u.name in views[d] ==>
                  (Resolves(pins, unitsByModule, d, u.name, Hit(views[d][u.name])) <==>
                   !Displaces(pins, old(unitsByModule), d, u, views[d][u.name]))
    {
      ghost var b := unitsByModule;
      unitsByModule := Store(unitsByModule, u);
      forall m, n | !(m == u.moduleName && n == u.name) ensures SameSlot(b, unitsByModule, m, n) {
        StoreHas(b, u, m, n);
      }
      StoreHas(b, u, u.moduleName, u.name);
      if BuiltFrom(pins, b, views) { LateUnit(pins, b, views, u); }
    }
  }

  /** Both catalogs have the same unit there, or none. */
  predicate SameSlot(b: ByModule, b': ByModule, m: Name, n: Name) {
    (Has(b', m, n) <==> Has(b, m, n)) && (Has(b, m, n) ==> b'[m][n] == b[m][n])
  }

  lemma LateUnit(pins: Pins, b: ByModule, views: ViewTable, u: Unit)
    requires BuiltFrom(pins, b, views)
    ensures forall d, n, f :: d in views && u.name !in views[d] && LookupAnswers(pins, Store(b, u), views, d, n, f) ==>
              Resolves(pins, Store(b, u), d, n, f)
    ensures AtHome(b) && !Has(b, u.moduleName, u.name) ==>
              forall d :: d in views && u.name in views[d] ==>
                (Resolves(pins, Store(b, u), d, u.name, Hit(views[d][u.name])) <==>
                  !Displaces(pins, b, d, u, views[d][u.name]))
  {
    assert StoreAll(b, [u]) == Store(b, u) by { assert StoreAll(Store(b, u), [u][1..]) == Store(b, u); }
    forall d, n, f | d in views && u.name !in views[d] && LookupAnswers(pins, Store(b, u), views, d, n, f)
      ensures Resolves(pins, Store(b, u), d, n, f)
    {
      FrozenViewAgrees(pins, b, views, [u], d, n, f);
    }
    if AtHome(b) && !Has(b, u.moduleName, u.name) {
      forall d | d in views && u.name in views[d]
        ensures Resolves(pins, Store(b, u), d, u.name, Hit(views[d][u.name])) <==>
                !Displaces(pins, b, d, u, views[d][u.name])
      {
        ViewGoesStaleIff(pins, b, views, d, u);
      }
    }
  }
}
