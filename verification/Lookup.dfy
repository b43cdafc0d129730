/**
 lookupOrMaterialize of internal/starlark/closure.go: provides routing, per-distro
 pins, the two catalogs, and feeds that materialise a unit on first reference.
 The stateful lookup is shown to refine a rule over the initial catalog.
 */
module Lookup {
  import opened Names
  import opened Catalogs

  /** What a feed's Lookup callback answers for a name it knows. */
  datatype Offer = Offered(u: Unit) | Broken

  datatype Feed = Feed(name: Name, distro: Name, priority: int, entries: map<Name, Offer>)

  /** Feeds in order, prefer_modules pins and provides aliases per distro. */
  datatype Config = Config(feeds: seq<Feed>, pins: map<Name, map<Name, Name>>, aliases: map<Name, map<Name, Name>>)

  function Resolve(c: Config, raw: Name, distro: Name): Name {
    if distro in c.aliases && raw in c.aliases[distro] && c.aliases[distro][raw] != ""
    then c.aliases[distro][raw]
    else raw
  }

  /** The pinned module for a name, or "" for none. */
  function Pin(c: Config, name: Name, distro: Name): Name {
    if distro != "" && distro in c.pins && name in c.pins[distro] then c.pins[distro][name] else ""
  }

  /** A materialised unit carries its feed's name and priority. */
  function Stamp(f: Feed, u: Unit): Unit {
    u.(moduleName := f.name, moduleIndex := f.priority)
  }

  function Ask(f: Feed, name: Name, distro: Name): Found {
    if name !in f.entries then Miss
    else
      match f.entries[name]
      case Broken => Fault(f.name)
      case Offered(u) => if Visible(u, distro) then Hit(Stamp(f, u)) else Miss
  }

  /** The first feed that answers. */
  function AskAll(feeds: seq<Feed>, name: Name, distro: Name): Found {
    if feeds == [] then Miss
    else
      var a := Ask(feeds[0], name, distro);
      if a.Miss? then AskAll(feeds[1..], name, distro) else a
  }

  /** Position of the feed called m, or |feeds| when m is a real module. */
  function FeedIndex(feeds: seq<Feed>, m: Name): (i: nat)
    ensures i <= |feeds| && (i < |feeds| ==> feeds[i].name == m)
    ensures forall k :: 0 <= k < i ==> feeds[k].name != m
  {
    if feeds == [] || feeds[0].name == m then 0 else 1 + FeedIndex(feeds[1..], m)
  }

  // ---------------------------------------------------------------------
  // The rule: pin, then catalog, then first matching feed
  // ---------------------------------------------------------------------

  /** lookupInModule: ask the feed of that name, else consult the per-module catalog. */
  function FromModule(c: Config, b: ByModule, name: Name, m: Name, distro: Name): Found {
    var i := FeedIndex(c.feeds, m);
    if i < |c.feeds| then Ask(c.feeds[i], name, distro)
    else if Has(b, m, name) && Visible(b[m][name], distro) then Hit(b[m][name])
    else Miss
  }

  function FromPin(c: Config, b: ByModule, name: Name, distro: Name): Found {
    var m := Pin(c, name, distro);
    if m == "" then Miss else FromModule(c, b, name, m, distro)
  }

  ghost function FromCatalog(cat: Catalog, name: Name, distro: Name): Found {
    if name !in cat.flat then Miss
    else if Visible(cat.flat[name], distro) then Hit(cat.flat[name])
    else BestVisible(cat.byModule, name, distro)
  }

  ghost function RuleFor(c: Config, cat: Catalog, name: Name, distro: Name): Found {
    var p := FromPin(c, cat.byModule, name, distro);
    if !p.Miss? then p else
    var q := FromCatalog(cat, name, distro);
    if !q.Miss? then q else AskAll(c.feeds, name, distro)
  }

  ghost function Rule(c: Config, cat: Catalog, raw: Name, distro: Name): Found {
    RuleFor(c, cat, Resolve(c, raw, distro), distro)
  }

  /** The catalogs a lookup leaves behind. */
  ghost function After(c: Config, cat: Catalog, raw: Name, distro: Name): Catalog {
    var name := Resolve(c, raw, distro);
    var p := FromPin(c, cat.byModule, name, distro);
    if !p.Miss? then
      if p.Hit? && FeedIndex(c.feeds, Pin(c, name, distro)) < |c.feeds|
      then cat.(byModule := Store(cat.byModule, p.u)) else cat
    else if !FromCatalog(cat, name, distro).Miss? then cat
    else
      var a := AskAll(c.feeds, name, distro);
      if a.Hit? then Remember(cat, name, a.u) else cat
  }

  /** A fed unit always enters the per-module catalog, and the flat one if its name is free. */
  function Remember(cat: Catalog, name: Name, u: Unit): Catalog {
    Catalog(if name in cat.flat then cat.flat else cat.flat[name := u], Store(cat.byModule, u))
  }

  // ---------------------------------------------------------------------
  // Assumptions on the feeds and on the initial catalog
  // ---------------------------------------------------------------------

  /** Feed names are distinct; a feed answers with the requested name, tagged with its own distro. */
  ghost predicate FeedsTagged(c: Config) {
    && (forall i, j :: 0 <= i < j < |c.feeds| ==> c.feeds[i].name != c.feeds[j].name)
    && (forall i :: 0 <= i < |c.feeds| ==> c.feeds[i].distro != "")
    && (forall i, n :: 0 <= i < |c.feeds| && n in c.feeds[i].entries && c.feeds[i].entries[n].Offered? ==>
          c.feeds[i].entries[n].u.name == n && c.feeds[i].entries[n].u.distro == c.feeds[i].distro)
  }

  /** u is what the feed m materialises for n. */
  ghost predicate Genuine(c: Config, m: Name, n: Name, u: Unit) {
    var i := FeedIndex(c.feeds, m);
    && i < |c.feeds| && n in c.feeds[i].entries
    && c.feeds[i].entries[n].Offered? && u == Stamp(c.feeds[i], c.feeds[i].entries[n].u)
  }

  /** What registration leaves: every catalogued name is in the flat catalog too, under its own name. */
  ghost predicate WellFormed(c: Config, cat: Catalog) {
    && FeedsTagged(c)
    && DistinctPriorities(cat.byModule)
    && (forall n :: n in cat.flat ==> cat.flat[n].name == n)
    && (forall m, n :: Has(cat.byModule, m, n) ==> n in cat.flat && cat.byModule[m][n].name == n)
    && (forall m, n :: Has(cat.byModule, m, n) && FeedIndex(c.feeds, m) < |c.feeds| ==>
          Genuine(c, m, n, cat.byModule[m][n]))
    && (forall n :: n in cat.flat && FeedIndex(c.feeds, cat.flat[n].moduleName) < |c.feeds| ==>
          Filed(cat.byModule, cat.flat[n]))
  }

  // ---------------------------------------------------------------------
  // What any run of lookups keeps
  // ---------------------------------------------------------------------

  /** u is tagged, and is the rule's answer for its name in its own distro unless a pin there says otherwise. */
  ghost predicate RuledBy(c: Config, cat0: Catalog, n: Name, u: Unit) {
    && u.name == n && u.distro != ""
    && (FromPin(c, cat0.byModule, n, u.distro).Miss? ==> RuleFor(c, cat0, n, u.distro) == Hit(u))
  }

  /** cat is cat0 plus feed units, each of which the rule would have produced. */
  ghost predicate Grown(c: Config, cat0: Catalog, cat: Catalog) {
    && (forall n :: n in cat0.flat ==> n in cat.flat && cat.flat[n] == cat0.flat[n])
    && (forall n :: n in cat.flat && n !in cat0.flat ==>
          RuledBy(c, cat0, n, cat.flat[n]) && Genuine(c, cat.flat[n].moduleName, n, cat.flat[n])
            && Filed(cat.byModule, cat.flat[n]))
    && GrownModules(c, cat0, cat.byModule)
  }

  ghost predicate GrownModules(c: Config, cat0: Catalog, b: ByModule) {
    && Within(cat0.byModule, b)
    && (forall m, n {:trigger Has(b, m, n)} ::
          Has(b, m, n) && !Has(cat0.byModule, m, n) ==> Genuine(c, m, n, b[m][n]) && RuledBy(c, cat0, n, b[m][n]))
  }

  /** Every entry of b is one of b'. */
  ghost predicate Within(b: ByModule, b': ByModule) {
    forall m, n {:trigger Has(b', m, n)} {:trigger Has(b, m, n)} :: Has(b, m, n) ==>
      Has(b', m, n) && b'[m][n] == b[m][n]
  }

  /** An entry that was added and is visible to the distro is the rule's answer there, if no pin is. */
  lemma AddedIsRule(c: Config, cat0: Catalog, cat: Catalog, name: Name, distro: Name, k: Name)
    requires Grown(c, cat0, cat) && distro != "" && FromPin(c, cat0.byModule, name, distro).Miss?
    requires Candidate(cat.byModule, name, distro, k) && !Has(cat0.byModule, k, name)
    ensures RuleFor(c, cat0, name, distro) == Hit(cat.byModule[k][name])
  {
  }

  lemma FromPinKept(c: Config, cat0: Catalog, cat: Catalog, name: Name, distro: Name)
    requires Grown(c, cat0, cat)
    ensures FromPin(c, cat.byModule, name, distro) == FromPin(c, cat0.byModule, name, distro)
  {
    var m := Pin(c, name, distro);
    if FeedIndex(c.feeds, m) == |c.feeds| {
      assert Has(cat.byModule, m, name) <==> Has(cat0.byModule, m, name);
    }
  }

  /** Where the initial catalog already has a visible unit, additions do not change the best one. */
  lemma BestKept(c: Config, cat0: Catalog, cat: Catalog, name: Name, distro: Name, m0: Name)
    requires WellFormed(c, cat0) && Grown(c, cat0, cat) && distro != ""
    requires Top(cat0.byModule, name, distro, m0) && FromPin(c, cat0.byModule, name, distro).Miss?
    requires RuleFor(c, cat0, name, distro) == Hit(cat0.byModule[m0][name])
    ensures Unambiguous(cat.byModule, name, distro)
    ensures BestVisible(cat.byModule, name, distro) == Hit(cat0.byModule[m0][name])
  {
    var b0, b := cat0.byModule, cat.byModule;
    assert Has(b0, m0, name);
    forall k | Candidate(b, name, distro, k)
      ensures b[k][name].moduleIndex <= b[m0][name].moduleIndex
      ensures b[k][name].moduleIndex == b[m0][name].moduleIndex ==> b[k][name] == b[m0][name]
    {
      if Has(b0, k, name) {
        assert Candidate(b0, name, distro, k);
      } else {
        AddedIsRule(c, cat0, cat, name, distro, k);
      }
    }
    assert Candidate(b, name, distro, m0);
    assert Top(b, name, distro, m0);
    BestIs(b, name, distro, m0);
  }

  /** Where it has none, any candidate is the rule's answer. */
  lemma BestAdded(c: Config, cat0: Catalog, cat: Catalog, name: Name, distro: Name)
    requires Grown(c, cat0, cat) && distro != "" && FromPin(c, cat0.byModule, name, distro).Miss?
    requires forall m :: !Candidate(cat0.byModule, name, distro, m)
    ensures Unambiguous(cat.byModule, name, distro)
    ensures BestVisible(cat.byModule, name, distro) == Miss
         || BestVisible(cat.byModule, name, distro) == RuleFor(c, cat0, name, distro)
  {
    var b0, b := cat0.byModule, cat.byModule;
    forall k | Candidate(b, name, distro, k) ensures RuleFor(c, cat0, name, distro) == Hit(b[k][name]) {
      assert !Candidate(b0, name, distro, k);
      AddedIsRule(c, cat0, cat, name, distro, k);
    }
  }

  lemma BestKeptOrAdded(c: Config, cat0: Catalog, cat: Catalog, name: Name, distro: Name)
    requires WellFormed(c, cat0) && Grown(c, cat0, cat) && distro != ""
    requires FromPin(c, cat0.byModule, name, distro).Miss?
    requires name in cat0.flat ==> !Visible(cat0.flat[name], distro)
    ensures Unambiguous(cat.byModule, name, distro)
    ensures BestVisible(cat.byModule, name, distro) == Miss ==>
            AskAll(c.feeds, name, distro) == RuleFor(c, cat0, name, distro)
    ensures BestVisible(cat.byModule, name, distro) != Miss ==>
              BestVisible(cat.byModule, name, distro) == RuleFor(c, cat0, name, distro)
  {
    var b0 := cat0.byModule;
    DistinctIsUnambiguous(b0, name, distro);
    if k :| Candidate(b0, name, distro, k) {
      BestExists(b0, name, distro, k);
      var m0 :| Top(b0, name, distro, m0);
      BestIs(b0, name, distro, m0);
      assert Has(b0, m0, name);
      BestKept(c, cat0, cat, name, distro, m0);
    } else {
      NoBest(b0, name, distro);
      BestAdded(c, cat0, cat, name, distro);
    }
  }

  /** On a grown catalog the rule answers as it did on the initial one. */
  lemma RuleKept(c: Config, cat0: Catalog, cat: Catalog, name: Name, distro: Name)
    requires WellFormed(c, cat0) && Grown(c, cat0, cat) && distro != ""
    ensures RuleFor(c, cat, name, distro) == RuleFor(c, cat0, name, distro)
  {
    FromPinKept(c, cat0, cat, name, distro);
    if FromPin(c, cat0.byModule, name, distro).Miss? {
      if name in cat0.flat && Visible(cat0.flat[name], distro) {
      } else {
        BestKeptOrAdded(c, cat0, cat, name, distro);
      }
    }
  }

  lemma {:induction false} AskAllHit(feeds: seq<Feed>, name: Name, distro: Name) returns (i: nat)
    requires AskAll(feeds, name, distro).Hit?
    ensures i < |feeds| && Ask(feeds[i], name, distro) == AskAll(feeds, name, distro)
  {
    if Ask(feeds[0], name, distro).Miss? {
      i := AskAllHit(feeds[1..], name, distro);
      i := i + 1;
    } else {
      i := 0;
    }
  }

  lemma FeedHitFacts(c: Config, i: nat, name: Name, distro: Name)
    requires FeedsTagged(c) && i < |c.feeds| && Ask(c.feeds[i], name, distro).Hit?
    ensures var u := Ask(c.feeds[i], name, distro).u;
            && u.name == name && u.distro == c.feeds[i].distro != "" && (distro != "" ==> u.distro == distro)
            && u.moduleName == c.feeds[i].name && Genuine(c, u.moduleName, name, u)
  {
    var k := FeedIndex(c.feeds, c.feeds[i].name);
    assert k == i;
  }

  /** A feed has one unit of a name, so storing it again overwrites nothing. */
  lemma StoreKeeps(c: Config, cat0: Catalog, b: ByModule, name: Name, u: Unit)
    requires WellFormed(c, cat0) && GrownModules(c, cat0, b) && u.name == name && Genuine(c, u.moduleName, name, u)
    ensures Within(b, Store(b, u)) && Filed(Store(b, u), u)
  {
    StoreHas(b, u, u.moduleName, name);
    forall m, n | Has(b, m, n) ensures Has(Store(b, u), m, n) && Store(b, u)[m][n] == b[m][n] {
      StoreHas(b, u, m, n);
      if m == u.moduleName && n == name {
        assert Has(cat0.byModule, m, n) ==> b[m][n] == cat0.byModule[m][n];
        assert Genuine(c, m, n, b[m][n]);
      }
    }
  }

  lemma StoreGrows(c: Config, cat0: Catalog, b: ByModule, name: Name, u: Unit)
    requires WellFormed(c, cat0) && GrownModules(c, cat0, b)
    requires Genuine(c, u.moduleName, name, u) && RuledBy(c, cat0, name, u)
    ensures GrownModules(c, cat0, Store(b, u))
  {
    StoreKeeps(c, cat0, b, name, u);
    forall m, n | Has(Store(b, u), m, n) && !Has(cat0.byModule, m, n)
      ensures Genuine(c, m, n, Store(b, u)[m][n]) && RuledBy(c, cat0, n, Store(b, u)[m][n])
    {
      StoreHas(b, u, m, n);
    }
    forall m, n | Has(cat0.byModule, m, n) ensures Has(Store(b, u), m, n) && Store(b, u)[m][n] == cat0.byModule[m][n] {
      assert Has(b, m, n);
    }
  }

  /** Storing a feed's answer keeps the catalog grown, if the rule says the same. */
  lemma GrownStore(c: Config, cat0: Catalog, cat: Catalog, name: Name, u: Unit)
    requires WellFormed(c, cat0) && Grown(c, cat0, cat)
    requires Genuine(c, u.moduleName, name, u) && RuledBy(c, cat0, name, u)
    ensures Grown(c, cat0, cat.(byModule := Store(cat.byModule, u)))
    ensures Grown(c, cat0, Remember(cat, name, u))
  {
    StoreGrows(c, cat0, cat.byModule, name, u);
    StoreKeeps(c, cat0, cat.byModule, name, u);
    var stored := cat.(byModule := Store(cat.byModule, u));
    forall n | n in cat.flat && n !in cat0.flat ensures Filed(stored.byModule, cat.flat[n]) {
      assert Filed(cat.byModule, cat.flat[n]);
      assert Has(cat.byModule, cat.flat[n].moduleName, cat.flat[n].name);
    }
    assert Grown(c, cat0, stored);
  }

  /** What the rule answers from a feed, for a distro, is ruled. */
  lemma AnswerRuled(c: Config, cat0: Catalog, name: Name, distro: Name, i: nat)
    requires WellFormed(c, cat0) && distro != "" && i < |c.feeds| && Ask(c.feeds[i], name, distro).Hit?
    requires RuleFor(c, cat0, name, distro) == Ask(c.feeds[i], name, distro)
    ensures RuledBy(c, cat0, name, Ask(c.feeds[i], name, distro).u)
  {
    FeedHitFacts(c, i, name, distro);
  }

  /** So is what the first feed that knows a new name answers without a distro: it is the first to answer for its own
      distro. */
  lemma DistrolessRuled(c: Config, cat0: Catalog, name: Name, i: nat)
    requires WellFormed(c, cat0) && name !in cat0.flat
    requires i == FirstKnowing(c.feeds, name) && i < |c.feeds| && Ask(c.feeds[i], name, "").Hit?
    ensures RuledBy(c, cat0, name, Ask(c.feeds[i], name, "").u)
  {
    FeedHitFacts(c, i, name, "");
    var distro := c.feeds[i].distro;
    AskFromKnowing(c.feeds, name, distro);
    assert Ask(c.feeds[i], name, distro) == Ask(c.feeds[i], name, "");
  }

  /** Every lookup keeps the catalog grown. */
  lemma GrownStep(c: Config, cat0: Catalog, cat: Catalog, raw: Name, distro: Name)
    requires WellFormed(c, cat0) && Grown(c, cat0, cat)
    ensures Grown(c, cat0, After(c, cat, raw, distro))
  {
    var name := Resolve(c, raw, distro);
    if distro != "" { RuleKept(c, cat0, cat, name, distro); }
    var p := FromPin(c, cat.byModule, name, distro);
    if !p.Miss? {
      var i := FeedIndex(c.feeds, Pin(c, name, distro));
      if p.Hit? && i < |c.feeds| {
        FeedHitFacts(c, i, name, distro);
        AnswerRuled(c, cat0, name, distro, i);
        GrownStore(c, cat0, cat, name, p.u);
      }
    } else if FromCatalog(cat, name, distro).Miss? {
      if AskAll(c.feeds, name, distro).Hit? { GrownFed(c, cat0, cat, name, distro); }
    }
  }

  lemma GrownFed(c: Config, cat0: Catalog, cat: Catalog, name: Name, distro: Name)
    requires WellFormed(c, cat0) && Grown(c, cat0, cat)
    requires FromPin(c, cat.byModule, name, distro).Miss? && FromCatalog(cat, name, distro).Miss?
             && AskAll(c.feeds, name, distro).Hit?
    requires distro != "" ==> RuleFor(c, cat, name, distro) == RuleFor(c, cat0, name, distro)
    ensures Grown(c, cat0, Remember(cat, name, AskAll(c.feeds, name, distro).u))
  {
    var u := AskAll(c.feeds, name, distro).u;
    if distro == "" {
      AskFirstKnowing(c.feeds, name);
      var i := FirstKnowing(c.feeds, name);
      FeedHitFacts(c, i, name, distro);
      DistrolessRuled(c, cat0, name, i);
    } else {
      var i := AskAllHit(c.feeds, name, distro);
      FeedHitFacts(c, i, name, distro);
      AnswerRuled(c, cat0, name, distro, i);
    }
    GrownStore(c, cat0, cat, name, u);
  }

  lemma GrownInitially(c: Config, cat0: Catalog)
    ensures Grown(c, cat0, cat0)
  {
  }

  // ---------------------------------------------------------------------
  // Whole runs
  // ---------------------------------------------------------------------

  datatype Call = Call(raw: Name, distro: Name)

  ghost function RunCatalog(c: Config, cat: Catalog, calls: seq<Call>): Catalog
    decreases |calls|
  {
    if calls == [] then cat
    else RunCatalog(c, After(c, cat, calls[0].raw, calls[0].distro), calls[1..])
  }

  ghost function RunAnswers(c: Config, cat: Catalog, calls: seq<Call>): (r: seq<Found>)
    ensures |r| == |calls|
    decreases |calls|
  {
    if calls == [] then []
    else [Rule(c, cat, calls[0].raw, calls[0].distro)]
         + RunAnswers(c, After(c, cat, calls[0].raw, calls[0].distro), calls[1..])
  }

  /** The i-th answer is the rule's on the catalog the calls before it left, which has only grown. */
  lemma {:induction false} RunFrom(c: Config, cat0: Catalog, cat: Catalog, calls: seq<Call>, i: nat)
    requires WellFormed(c, cat0) && Grown(c, cat0, cat) && i < |calls|
    ensures Grown(c, cat0, RunCatalog(c, cat, calls[..i]))
    ensures RunAnswers(c, cat, calls)[i] == Rule(c, RunCatalog(c, cat, calls[..i]), calls[i].raw, calls[i].distro)
    decreases |calls|
  {
    if i == 0 {
      assert calls[..0] == [];
    } else {
      var x, rest := calls[0], calls[1..];
      GrownStep(c, cat0, cat, x.raw, x.distro);
      RunFrom(c, cat0, After(c, cat, x.raw, x.distro), rest, i - 1);
      assert calls[..i][1..] == rest[..i - 1] && calls[..i][0] == x && calls[i] == rest[i - 1];
    }
  }

  /** Over any run, interleaved across distros and with lookups for none, each answer for a distro is the rule's on the
      initial catalog. */
  lemma LookupRefinesRule(c: Config, cat0: Catalog, calls: seq<Call>, i: nat)
    requires WellFormed(c, cat0) && i < |calls| && calls[i].distro != ""
    ensures RunAnswers(c, cat0, calls)[i] == Rule(c, cat0, calls[i].raw, calls[i].distro)
  {
    GrownInitially(c, cat0);
    RunFrom(c, cat0, cat0, calls, i);
    RuleKept(c, cat0, RunCatalog(c, cat0, calls[..i]), Resolve(c, calls[i].raw, calls[i].distro), calls[i].distro);
  }

  /** Without a distro the answer does depend on what was looked up before. */
  lemma DistrolessLookupIsStateful() returns (c: Config, calls: seq<Call>)
    ensures WellFormed(c, Catalog(map[], map[])) && |calls| == 2 && calls[1].distro == ""
    ensures RunAnswers(c, Catalog(map[], map[]), calls)[1]
         != Rule(c, Catalog(map[], map[]), calls[1].raw, calls[1].distro)
  {
    var ua := Unit("p", "alpine", "", 0, "", [], map[], []);
    var ud := Unit("p", "debian", "", 0, "", [], map[], []);
    var fa := Feed("alpine.main", "alpine", -2, map["p" := Offered(ua)]);
    var fd := Feed("debian.main", "debian", -1, map["p" := Offered(ud)]);
    c := Config([fa, fd], map[], map[]);
    var cat := Catalog(map[], map[]);
    calls := [Call("p", "debian"), Call("p", "")];
    assert fa.name != fd.name by { assert fa.name[0] != fd.name[0]; }
    assert "debian" != "alpine" by { assert "debian"[0] != "alpine"[0]; }
    assert c.feeds[1..] == [fd];
    assert Ask(fa, "p", "debian") == Miss;
    assert Ask(fd, "p", "debian") == Hit(Stamp(fd, ud));
    assert AskAll([fd], "p", "debian") == Hit(Stamp(fd, ud));
    assert AskAll(c.feeds, "p", "debian") == Hit(Stamp(fd, ud));
    var after := After(c, cat, "p", "debian");
    assert after == Remember(cat, "p", Stamp(fd, ud));
    assert Rule(c, after, "p", "") == Hit(Stamp(fd, ud));
    assert Ask(fa, "p", "") == Hit(Stamp(fa, ua));
    assert Rule(c, cat, "p", "") == Hit(Stamp(fa, ua));
    assert calls[1..] == [Call("p", "")];
    assert RunAnswers(c, after, calls[1..])[0] == Rule(c, after, "p", "");
  }

  /** The first feed that knows a name, or |feeds|. */
  function FirstKnowing(feeds: seq<Feed>, name: Name): (i: nat)
    ensures i <= |feeds| && (i < |feeds| ==> name in feeds[i].entries)
    ensures forall k :: 0 <= k < i ==> name !in feeds[k].entries
  {
    if feeds == [] || name in feeds[0].entries then 0 else 1 + FirstKnowing(feeds[1..], name)
  }

  /** Feeds before the first that knows a name have no say. */
  lemma {:induction false} AskFromKnowing(feeds: seq<Feed>, name: Name, distro: Name)
    ensures AskAll(feeds, name, distro) == AskAll(feeds[FirstKnowing(feeds, name)..], name, distro)
  {
    if feeds == [] || name in feeds[0].entries {
      assert feeds[0..] == feeds;
    } else {
      AskFromKnowing(feeds[1..], name, distro);
      assert feeds[1..][FirstKnowing(feeds[1..], name)..] == feeds[FirstKnowing(feeds, name)..];
    }
  }

  /** Without a distro, those beyond it are never asked. */
  lemma AskFirstKnowing(feeds: seq<Feed>, name: Name)
    ensures AskAll(feeds, name, "") ==
            var i := FirstKnowing(feeds, name);
            if i < |feeds| then Ask(feeds[i], name, "") else Miss
  {
    AskFromKnowing(feeds, name, "");
    var rest := feeds[FirstKnowing(feeds, name)..];
    assert rest != [] ==> rest[0] == feeds[FirstKnowing(feeds, name)];
  }

  /** The name was there from the start, has not been fed yet, or was fed by the first feed that knows it. */
  ghost predicate Unaffected(c: Config, cat0: Catalog, cat: Catalog, name: Name) {
    || name in cat0.flat
    || name !in cat.flat
    || (FirstKnowing(c.feeds, name) < |c.feeds|
          && cat.flat[name].moduleName == c.feeds[FirstKnowing(c.feeds, name)].name)
  }

  /** After any lookups, one without a distro obeys the rule on the initial catalog exactly when its name is
      unaffected. */
  lemma DistrolessAgreesIff(c: Config, cat0: Catalog, calls: seq<Call>, i: nat)
    requires WellFormed(c, cat0) && i < |calls| && calls[i].distro == ""
    ensures RunAnswers(c, cat0, calls)[i] == Rule(c, cat0, calls[i].raw, "")
       <==> Unaffected(c, cat0, RunCatalog(c, cat0, calls[..i]), Resolve(c, calls[i].raw, ""))
  {
    GrownInitially(c, cat0);
    RunFrom(c, cat0, cat0, calls, i);
    DistrolessOn(c, cat0, RunCatalog(c, cat0, calls[..i]), Resolve(c, calls[i].raw, ""));
  }

  lemma DistrolessOn(c: Config, cat0: Catalog, cat: Catalog, name: Name)
    requires WellFormed(c, cat0) && Grown(c, cat0, cat)
    ensures RuleFor(c, cat, name, "") == RuleFor(c, cat0, name, "") <==> Unaffected(c, cat0, cat, name)
  {
    DistrolessRule(c, cat, name);
    DistrolessRule(c, cat0, name);
    if name in cat.flat && name !in cat0.flat {
      var u := cat.flat[name];
      assert Genuine(c, u.moduleName, name, u);
      FedByFirst(c, name, u);
    }
  }

  lemma DistrolessRule(c: Config, cat: Catalog, name: Name)
    ensures RuleFor(c, cat, name, "") == if name in cat.flat then Hit(cat.flat[name]) else AskAll(c.feeds, name, "")
  {
    assert FromPin(c, cat.byModule, name, "") == Miss;
  }

  /** A fed unit is what the first feed that knows its name says exactly when that feed made it. */
  lemma FedByFirst(c: Config, name: Name, u: Unit)
    requires FeedsTagged(c) && Genuine(c, u.moduleName, name, u)
    ensures var i := FirstKnowing(c.feeds, name);
            AskAll(c.feeds, name, "") == Hit(u) <==> i < |c.feeds| && u.moduleName == c.feeds[i].name
  {
    AskFirstKnowing(c.feeds, name);
    var i, k := FirstKnowing(c.feeds, name), FeedIndex(c.feeds, u.moduleName);
    assert i <= k;
    assert i < k ==> c.feeds[i].name != c.feeds[k].name;
  }

  // ---------------------------------------------------------------------
  // What a lookup leaves for later ones
  // ---------------------------------------------------------------------

  /** Looking the name up again would change nothing: what a feed answers for it is in the catalogs. */
  ghost predicate Settled(c: Config, cat: Catalog, name: Name, distro: Name) {
    var p := FromPin(c, cat.byModule, name, distro);
    && (p.Hit? && FeedIndex(c.feeds, Pin(c, name, distro)) < |c.feeds| ==> Filed(cat.byModule, p.u))
    && (p.Miss? && AskAll(c.feeds, name, distro).Hit? ==> FromCatalog(cat, name, distro).Hit?)
  }

  /** cat' holds all that cat holds. */
  ghost predicate Extends(cat: Catalog, cat': Catalog) {
    (forall n :: n in cat.flat ==> n in cat'.flat && cat'.flat[n] == cat.flat[n]) && Within(cat.byModule, cat'.byModule)
  }

  /** A lookup leaves the catalogs alone, or adds to them what a feed has of the name. */
  lemma AfterStores(c: Config, cat: Catalog, raw: Name, distro: Name) returns (u: Unit)
    requires FeedsTagged(c)
    ensures var name, after := Resolve(c, raw, distro), After(c, cat, raw, distro);
            || after == cat
            || (&& u.name == name && Genuine(c, u.moduleName, name, u)
                && (after == cat.(byModule := Store(cat.byModule, u)) || after == Remember(cat, name, u)))
  {
    var name := Resolve(c, raw, distro);
    var p := FromPin(c, cat.byModule, name, distro);
    var i := FeedIndex(c.feeds, Pin(c, name, distro));
    if p.Hit? && i < |c.feeds| {
      u := p.u;
      FeedHitFacts(c, i, name, distro);
    } else if p.Miss? && FromCatalog(cat, name, distro).Miss? && AskAll(c.feeds, name, distro).Hit? {
      u := AskAll(c.feeds, name, distro).u;
      var k := AskAllHit(c.feeds, name, distro);
      FeedHitFacts(c, k, name, distro);
    } else {
      u := *;
    }
  }

  lemma AfterExtends(c: Config, cat0: Catalog, cat: Catalog, raw: Name, distro: Name)
    requires WellFormed(c, cat0) && Grown(c, cat0, cat)
    ensures Extends(cat, After(c, cat, raw, distro))
  {
    var u := AfterStores(c, cat, raw, distro);
    if After(c, cat, raw, distro) != cat { StoreExtends(c, cat0, cat, Resolve(c, raw, distro), u); }
  }

  lemma StoreExtends(c: Config, cat0: Catalog, cat: Catalog, name: Name, u: Unit)
    requires WellFormed(c, cat0) && Grown(c, cat0, cat) && u.name == name && Genuine(c, u.moduleName, name, u)
    ensures Extends(cat, cat.(byModule := Store(cat.byModule, u))) && Extends(cat, Remember(cat, name, u))
  {
    StoreKeeps(c, cat0, cat.byModule, name, u);
  }

  lemma CatalogHit(cat: Catalog, name: Name, distro: Name)
    ensures FromCatalog(cat, name, distro).Hit? <==>
            name in cat.flat
              && (Visible(cat.flat[name], distro) || exists m :: Candidate(cat.byModule, name, distro, m))
  {
    BestIsBest(cat.byModule, name, distro);
    if m :| Candidate(cat.byModule, name, distro, m) { BestExists(cat.byModule, name, distro, m); }
  }

  lemma SettledAfter(c: Config, cat0: Catalog, cat: Catalog, raw: Name, distro: Name)
    requires WellFormed(c, cat0) && Grown(c, cat0, cat)
    ensures Settled(c, After(c, cat, raw, distro), Resolve(c, raw, distro), distro)
  {
    var name, after := Resolve(c, raw, distro), After(c, cat, raw, distro);
    GrownStep(c, cat0, cat, raw, distro);
    FromPinKept(c, cat0, cat, name, distro);
    FromPinKept(c, cat0, after, name, distro);
    var p := FromPin(c, cat.byModule, name, distro);
    var i := FeedIndex(c.feeds, Pin(c, name, distro));
    if p.Hit? && i < |c.feeds| {
      FeedHitFacts(c, i, name, distro);
      StoreHas(cat.byModule, p.u, p.u.moduleName, name);
    } else if p.Miss? && FromCatalog(cat, name, distro).Miss? && AskAll(c.feeds, name, distro).Hit? {
      var k := AskAllHit(c.feeds, name, distro);
      FeedHitFacts(c, k, name, distro);
      var u := AskAll(c.feeds, name, distro).u;
      StoreHas(cat.byModule, u, u.moduleName, name);
      assert Candidate(after.byModule, name, distro, u.moduleName);
      CatalogHit(after, name, distro);
    }
  }

  lemma SettledStays(c: Config, cat0: Catalog, cat: Catalog, cat': Catalog, name: Name, distro: Name)
    requires Grown(c, cat0, cat) && Grown(c, cat0, cat') && Extends(cat, cat') && Settled(c, cat, name, distro)
    ensures Settled(c, cat', name, distro)
  {
    FromPinKept(c, cat0, cat, name, distro);
    FromPinKept(c, cat0, cat', name, distro);
    CatalogHit(cat, name, distro);
    CatalogHit(cat', name, distro);
    if m :| Candidate(cat.byModule, name, distro, m) {
      assert Has(cat.byModule, m, name) && Candidate(cat'.byModule, name, distro, m);
    }
  }

  // ---------------------------------------------------------------------
  // The rule, over the tables themselves
  // ---------------------------------------------------------------------

  predicate Pinned(c: Config, n: Name, distro: Name) {
    distro != "" && distro in c.pins && n in c.pins[distro] && c.pins[distro][n] != ""
  }

  /** The feed knows the name, and breaks on it or has a unit the distro can see. */
  predicate Speaks(f: Feed, n: Name, distro: Name) {
    n in f.entries
    && match f.entries[n]
       case Broken => true
       case Offered(u) => distro == "" || u.distro == "" || u.distro == distro
  }

  /** What it says then; a unit comes with the feed's name and priority. */
  function Says(f: Feed, n: Name): Found
    requires n in f.entries
  {
    match f.entries[n]
    case Broken => Fault(f.name)
    case Offered(u) => Hit(u.(moduleName := f.name, moduleIndex := f.priority))
  }

  predicate HoldsFlat(cat: Catalog, n: Name, distro: Name) {
    n in cat.flat && (distro == "" || cat.flat[n].distro == "" || cat.flat[n].distro == distro)
  }

  /** The pinned module's unit or the pinned feed's answer, if there is one. */
  ghost predicate FollowsPin(c: Config, cat: Catalog, n: Name, distro: Name, f: Found) {
    Pinned(c, n, distro) ==>
      var m := c.pins[distro][n];
      && (forall i :: 0 <= i < |c.feeds| && c.feeds[i].name == m && Speaks(c.feeds[i], n, distro) ==>
            f == Says(c.feeds[i], n))
      && ((forall i :: 0 <= i < |c.feeds| ==> c.feeds[i].name != m) && Sees(cat.byModule, m, n, distro) ==>
            f == Hit(cat.byModule[m][n]))
  }

  /** No pin decides: none is set, or it names a feed that is silent or a module without such a unit. */
  ghost predicate Unpinned(c: Config, cat: Catalog, n: Name, distro: Name) {
    Pinned(c, n, distro) ==>
      var m := c.pins[distro][n];
      && (forall i :: 0 <= i < |c.feeds| && c.feeds[i].name == m ==> !Speaks(c.feeds[i], n, distro))
      && ((forall i :: 0 <= i < |c.feeds| ==> c.feeds[i].name != m) ==> !Sees(cat.byModule, m, n, distro))
  }

  /** The flat unit if it is visible; behind an invisible one, some visible unit of greatest priority. */
  ghost predicate FollowsCatalog(cat: Catalog, n: Name, distro: Name, f: Found) {
    && (HoldsFlat(cat, n, distro) ==> f == Hit(cat.flat[n]))
    && (n in cat.flat && !HoldsFlat(cat, n, distro) && (exists m :: Sees(cat.byModule, m, n, distro)) ==>
          && f.Hit?
          && (exists m :: Sees(cat.byModule, m, n, distro) && f.u == cat.byModule[m][n])
          && forall m :: Sees(cat.byModule, m, n, distro) ==> cat.byModule[m][n].moduleIndex <= f.u.moduleIndex)
  }

  /** A name the catalogs cannot answer: the first feed that speaks, or a miss. */
  ghost predicate FollowsFeeds(c: Config, cat: Catalog, n: Name, distro: Name, f: Found) {
    n !in cat.flat || (!HoldsFlat(cat, n, distro) && forall m :: !Sees(cat.byModule, m, n, distro)) ==>
      FirstSpeaks(c.feeds, n, distro, f)
  }

  ghost predicate FirstSpeaks(feeds: seq<Feed>, n: Name, distro: Name, f: Found) {
    if f.Miss? then forall i :: 0 <= i < |feeds| ==> !Speaks(feeds[i], n, distro)
    else
      exists i :: 0 <= i < |feeds| && Speaks(feeds[i], n, distro) && f == Says(feeds[i], n)
        && forall k :: 0 <= k < i ==> !Speaks(feeds[k], n, distro)
  }

  /** f is the right answer for the name n. */
  ghost predicate Follows(c: Config, cat: Catalog, n: Name, distro: Name, f: Found) {
    && (f.Hit? ==> f.u.name == n && (distro == "" || f.u.distro == "" || f.u.distro == distro))
    && FollowsPin(c, cat, n, distro, f)
    && (Unpinned(c, cat, n, distro) ==> FollowsCatalog(cat, n, distro, f) && FollowsFeeds(c, cat, n, distro, f))
  }

  lemma AskMeans(f: Feed, n: Name, distro: Name)
    ensures Ask(f, n, distro) == if Speaks(f, n, distro) then Says(f, n) else Miss
  {
  }

  lemma {:induction false} AskAllMeans(feeds: seq<Feed>, n: Name, distro: Name)
    ensures FirstSpeaks(feeds, n, distro, AskAll(feeds, n, distro))
  {
    if feeds == [] {
    } else {
      AskMeans(feeds[0], n, distro);
      var f := AskAll(feeds[1..], n, distro);
      AskAllMeans(feeds[1..], n, distro);
      if !Speaks(feeds[0], n, distro) {
        if f.Miss? {
          assert forall i :: 1 <= i < |feeds| ==> feeds[i] == feeds[1..][i - 1];
        } else {
          var i :| 0 <= i < |feeds[1..]| && Speaks(feeds[1..][i], n, distro) && f == Says(feeds[1..][i], n)
            && forall k :: 0 <= k < i ==> !Speaks(feeds[1..][k], n, distro);
          assert feeds[i + 1] == feeds[1..][i];
          assert forall k :: 1 <= k < i + 1 ==> feeds[k] == feeds[1..][k - 1];
        }
      }
    }
  }

  lemma PinMeans(c: Config, cat: Catalog, n: Name, distro: Name)
    requires FeedsTagged(c)
    ensures FromPin(c, cat.byModule, n, distro).Miss? <==> Unpinned(c, cat, n, distro)
    ensures !FromPin(c, cat.byModule, n, distro).Miss? ==>
              FollowsPin(c, cat, n, distro, FromPin(c, cat.byModule, n, distro))
  {
    if Pinned(c, n, distro) {
      var m := c.pins[distro][n];
      var i := FeedIndex(c.feeds, m);
      if i < |c.feeds| {
        AskMeans(c.feeds[i], n, distro);
        assert forall k :: 0 <= k < |c.feeds| && c.feeds[k].name == m ==> k == i;
      }
    }
  }

  lemma CatalogMeans(cat: Catalog, n: Name, distro: Name)
    ensures !FromCatalog(cat, n, distro).Miss? ==>
            n in cat.flat && FollowsCatalog(cat, n, distro, FromCatalog(cat, n, distro))
    ensures !FromCatalog(cat, n, distro).Miss? ==>
              HoldsFlat(cat, n, distro) || exists m :: Sees(cat.byModule, m, n, distro)
    ensures FromCatalog(cat, n, distro).Miss? ==>
              !HoldsFlat(cat, n, distro) && (n in cat.flat ==> forall m :: !Sees(cat.byModule, m, n, distro))
  {
    forall m ensures Candidate(cat.byModule, n, distro, m) <==> Sees(cat.byModule, m, n, distro) {}
    BestIsBest(cat.byModule, n, distro);
    var f := BestVisible(cat.byModule, n, distro);
    if f.Hit? {
      var m :| Top(cat.byModule, n, distro, m) && f.u == cat.byModule[m][n];
      assert Sees(cat.byModule, m, n, distro);
    }
  }

  lemma StoredNamed(c: Config, cat0: Catalog, cat: Catalog, m: Name, n: Name)
    requires WellFormed(c, cat0) && Grown(c, cat0, cat) && Has(cat.byModule, m, n)
    ensures cat.byModule[m][n].name == n
  {
    if Has(cat0.byModule, m, n) { assert cat.byModule[m][n] == cat0.byModule[m][n]; }
  }

  lemma HitNamed(c: Config, cat0: Catalog, cat: Catalog, n: Name, distro: Name)
    requires WellFormed(c, cat0) && Grown(c, cat0, cat) && RuleFor(c, cat, n, distro).Hit?
    ensures var u := RuleFor(c, cat, n, distro).u;
            u.name == n && (distro == "" || u.distro == "" || u.distro == distro)
  {
    var m := Pin(c, n, distro);
    var i := FeedIndex(c.feeds, m);
    if FromPin(c, cat.byModule, n, distro).Hit? {
      if i < |c.feeds| { FeedHitFacts(c, i, n, distro); } else { StoredNamed(c, cat0, cat, m, n); }
    } else if FromCatalog(cat, n, distro).Hit? {
      if !Visible(cat.flat[n], distro) {
        var k :| Top(cat.byModule, n, distro, k) && BestVisible(cat.byModule, n, distro) == Hit(cat.byModule[k][n]);
        assert Candidate(cat.byModule, n, distro, k);
        StoredNamed(c, cat0, cat, k, n);
      }
    } else {
      var k := AskAllHit(c.feeds, n, distro);
      FeedHitFacts(c, k, n, distro);
    }
  }

  /** What the rule says of a name, told from the tables. */
  lemma RuleFollows(c: Config, cat0: Catalog, cat: Catalog, n: Name, distro: Name)
    requires WellFormed(c, cat0) && Grown(c, cat0, cat)
    ensures Follows(c, cat, n, distro, RuleFor(c, cat, n, distro))
  {
    PinMeans(c, cat, n, distro);
    CatalogMeans(cat, n, distro);
    AskAllMeans(c.feeds, n, distro);
    if RuleFor(c, cat, n, distro).Hit? { HitNamed(c, cat0, cat, n, distro); }
  }

  /** Nothing is lost or replaced, and all that is new is the unit found. */
  ghost predicate AddsOnly(cat: Catalog, cat': Catalog, found: Found) {
    && (forall n :: n in cat.flat ==> n in cat'.flat && cat'.flat[n] == cat.flat[n])
    && (forall m, n {:trigger n in cat.byModule[m]} :: m in cat.byModule && n in cat.byModule[m] ==>
          m in cat'.byModule && n in cat'.byModule[m] && cat'.byModule[m][n] == cat.byModule[m][n])
    && (forall n :: n in cat'.flat && n !in cat.flat ==> found == Hit(cat'.flat[n]) && n == found.u.name)
    && (forall m, n {:trigger n in cat'.byModule[m]} ::
          m in cat'.byModule && n in cat'.byModule[m] && !(m in cat.byModule && n in cat.byModule[m]) ==>
            found == Hit(cat'.byModule[m][n]) && m == found.u.moduleName && n == found.u.name)
  }

  /** A unit the catalogs did not have is filed under its feed, and under its name unless a pin chose it. */
  ghost predicate Files(c: Config, cat: Catalog, cat': Catalog, n: Name, distro: Name, found: Found) {
    && (found.Hit?
          && (n !in cat.flat || (!HoldsFlat(cat, n, distro) && forall m :: !Sees(cat.byModule, m, n, distro))) ==>
          && found.u.moduleName in cat'.byModule && n in cat'.byModule[found.u.moduleName]
          && cat'.byModule[found.u.moduleName][n] == found.u)
    && (found.Hit? && Unpinned(c, cat, n, distro) ==> n in cat'.flat)
  }

  lemma StoreAddsOnly(c: Config, cat0: Catalog, cat: Catalog, n: Name, u: Unit)
    requires WellFormed(c, cat0) && Grown(c, cat0, cat) && u.name == n && Genuine(c, u.moduleName, n, u)
    ensures AddsOnly(cat, cat.(byModule := Store(cat.byModule, u)), Hit(u))
    ensures AddsOnly(cat, Remember(cat, n, u), Hit(u))
  {
    var b := Store(cat.byModule, u);
    StoreKeeps(c, cat0, cat.byModule, n, u);
    forall m, k | m in cat.byModule && k in cat.byModule[m]
      ensures m in b && k in b[m] && b[m][k] == cat.byModule[m][k]
    {
      assert Has(cat.byModule, m, k);
      assert Has(b, m, k);
    }
    forall m, k | m in b && k in b[m] && !(m in cat.byModule && k in cat.byModule[m])
      ensures u == b[m][k] && m == u.moduleName && k == n
    {
      StoreHas(cat.byModule, u, m, k);
    }
  }

  lemma AfterAdds(c: Config, cat0: Catalog, cat: Catalog, raw: Name, distro: Name)
    requires WellFormed(c, cat0) && Grown(c, cat0, cat)
    ensures AddsOnly(cat, After(c, cat, raw, distro), Rule(c, cat, raw, distro))
  {
    var name := Resolve(c, raw, distro);
    var p := FromPin(c, cat.byModule, name, distro);
    var i := FeedIndex(c.feeds, Pin(c, name, distro));
    if p.Hit? && i < |c.feeds| {
      FeedHitFacts(c, i, name, distro);
      StoreAddsOnly(c, cat0, cat, name, p.u);
    } else if p.Miss? && FromCatalog(cat, name, distro).Miss? && AskAll(c.feeds, name, distro).Hit? {
      var k := AskAllHit(c.feeds, name, distro);
      FeedHitFacts(c, k, name, distro);
      StoreAddsOnly(c, cat0, cat, name, AskAll(c.feeds, name, distro).u);
    }
  }

  lemma AfterFiles(c: Config, cat0: Catalog, cat: Catalog, raw: Name, distro: Name)
    requires WellFormed(c, cat0) && Grown(c, cat0, cat)
    ensures Files(c, cat, After(c, cat, raw, distro), Resolve(c, raw, distro), distro, Rule(c, cat, raw, distro))
  {
    var n, after := Resolve(c, raw, distro), After(c, cat, raw, distro);
    PinMeans(c, cat, n, distro);
    CatalogMeans(cat, n, distro);
    var p := FromPin(c, cat.byModule, n, distro);
    var i := FeedIndex(c.feeds, Pin(c, n, distro));
    if p.Hit? {
      if i < |c.feeds| {
        FeedHitFacts(c, i, n, distro);
        StoreHas(cat.byModule, p.u, p.u.moduleName, n);
      } else {
        assert Has(cat.byModule, Pin(c, n, distro), n);
        assert Sees(cat.byModule, Pin(c, n, distro), n, distro) && Has(cat0.byModule, Pin(c, n, distro), n);
      }
    } else if p.Miss? && FromCatalog(cat, n, distro).Miss? && AskAll(c.feeds, n, distro).Hit? {
      var k := AskAllHit(c.feeds, n, distro);
      FeedHitFacts(c, k, n, distro);
      var u := AskAll(c.feeds, n, distro).u;
      StoreHas(cat.byModule, u, u.moduleName, n);
    }
  }

  // ---------------------------------------------------------------------
  // The engine
  // ---------------------------------------------------------------------

  class Engine {
    const config: Config
    var units: map<Name, Unit>
    var unitsByModule: ByModule
    ghost const initial: Catalog
    ghost var asked: set<Call>

    ghost function Now(): Catalog
      reads this
    {
      Catalog(units, unitsByModule)
    }

    ghost predicate Valid()
      reads this
    {
      && WellFormed(config, initial) && Grown(config, initial, Now())
      && forall x :: x in asked ==> Settled(config, Now(), Resolve(config, x.raw, x.distro), x.distro)
    }

    constructor (config: Config, units: map<Name, Unit>, unitsByModule: ByModule)
      requires WellFormed(config, Catalog(units, unitsByModule))
      ensures Valid() && this.config == config && initial == Now() == Catalog(units, unitsByModule) && asked == {}
    {
      this.config := config;
      this.units, this.unitsByModule := units, unitsByModule;
      this.initial, this.asked := Catalog(units, unitsByModule), {};
      new;
      GrownInitially(config, initial);
    }

    /** Whatever was looked up before for whatever distro, the answer for a distro is the rule's on the initial
        catalog. */
    method LookupOrMaterialize(raw: Name, distro: Name) returns (found: Found)
      requires Valid()
      modifies this
      ensures Valid() && asked == old(asked) + {Call(raw, distro)}
      ensures Now() == After(config, old(Now()), raw, distro) && found == Rule(config, old(Now()), raw, distro)
      ensures distro != "" ==> found == Rule(config, initial, raw, distro)
      ensures var aliased := distro in config.aliases && raw in config.aliases[distro]
                             && config.aliases[distro][raw] != "";
              var name := if aliased then config.aliases[distro][raw] else raw;
              && Follows(config, old(Now()), name, distro, found)
              && (distro != "" ==> Follows(config, initial, name, distro, found))
              && Files(config, old(Now()), Now(), name, distro, found)
      ensures AddsOnly(old(Now()), Now(), found)
    {
      ghost var before := Now();
      RuleFollows(config, initial, before, Resolve(config, raw, distro), distro);
      AfterAdds(config, initial, before, raw, distro);
      AfterFiles(config, initial, before, raw, distro);
      found := Search(raw, distro);
      asked := asked + {Call(raw, distro)};
      GrownStep(config, initial, before, raw, distro);
      AfterExtends(config, initial, before, raw, distro);
      SettledAfter(config, initial, before, raw, distro);
      forall x | x in asked ensures Settled(config, Now(), Resolve(config, x.raw, x.distro), x.distro) {
        if x != Call(raw, distro) {
          SettledStays(config, initial, before, Now(), Resolve(config, x.raw, x.distro), x.distro);
        }
      }
      if distro != "" {
        RuleKept(config, initial, before, Resolve(config, raw, distro), distro);
        GrownInitially(config, initial);
        RuleFollows(config, initial, initial, Resolve(config, raw, distro), distro);
      }
    }

    /** The lookup proper. */
    method Search(raw: Name, distro: Name) returns (found: Found)
      requires WellFormed(config, initial) && Grown(config, initial, Now())
      modifies this`units, this`unitsByModule
      ensures Now() == After(config, old(Now()), raw, distro) && found == Rule(config, old(Now()), raw, distro)
    {
      var name := Resolve(config, raw, distro);
      var pinned := Pin(config, name, distro);
      if pinned != "" {
        found := LookupInModule(name, pinned, distro);
        if !found.Miss? {
          return;
        }
      }
      if name in units {
        if Visible(units[name], distro) {
          return Hit(units[name]);
        }
        FromPinKept(config, initial, Now(), name, distro);
        BestKeptOrAdded(config, initial, Now(), name, distro);
        found := FindVisible(unitsByModule, name, distro);
        if !found.Miss? {
          return;
        }
      }
      found := WalkFeeds(name, distro);
      if found.Hit? {
        if name !in units {
          units := units[name := found.u];
        }
        unitsByModule := Store(unitsByModule, found.u);
      }
    }

    method LookupInModule(name: Name, m: Name, distro: Name) returns (found: Found)
      modifies this`unitsByModule
      ensures found == FromModule(config, old(unitsByModule), name, m, distro)
      ensures unitsByModule == if found.Hit? && FeedIndex(config.feeds, m) < |config.feeds|
                               then Store(old(unitsByModule), found.u) else old(unitsByModule)
    {
      var i := 0;
      while i < |config.feeds| && config.feeds[i].name != m
        invariant i <= |config.feeds| && forall k :: 0 <= k < i ==> config.feeds[k].name != m
      {
        i := i + 1;
      }
      assert i == FeedIndex(config.feeds, m);
      if i < |config.feeds| {
        found := Ask(config.feeds[i], name, distro);
        if found.Hit? {
          unitsByModule := Store(unitsByModule, found.u);
        }
        return;
      }
      if Has(unitsByModule, m, name) && Visible(unitsByModule[m][name], distro) {
        return Hit(unitsByModule[m][name]);
      }
      found := Miss;
    }

    /** Ask the feeds in order until one answers. */
    method WalkFeeds(name: Name, distro: Name) returns (found: Found)
      ensures found == AskAll(config.feeds, name, distro) && FirstSpeaks(config.feeds, name, distro, found)
    {
      AskAllMeans(config.feeds, name, distro);
      var i := 0;
      assert config.feeds[0..] == config.feeds;
      while i < |config.feeds|
        invariant i <= |config.feeds| && AskAll(config.feeds[i..], name, distro) == AskAll(config.feeds, name, distro)
      {
        assert config.feeds[i..][1..] == config.feeds[i + 1..];
        found := Ask(config.feeds[i], name, distro);
        if !found.Miss? {
          return;
        }
        i := i + 1;
      }
      found := Miss;
    }
  }
}
