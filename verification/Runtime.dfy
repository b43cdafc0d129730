/**
 RuntimeClosure of internal/resolve/runtime.go: the same least set as the engine's
 closure walk, over the loaded project, except that a name with no visible unit is
 skipped instead of failing. Where units tie, each lookup may pick any of them.
 */
module Runtime {
  import opened Names
  import opened Catalogs
  import opened Views
  import opened Closure

  type Aliases = map<Name, Name>

  /** Provides routing: an alias stands for the unit it maps to. */
  function Route(alias: Aliases, x: Name): Name {
    if x in alias && alias[x] != "" then alias[x] else x
  }

  // ---------------------------------------------------------------------
  // What a lookup may answer
  // ---------------------------------------------------------------------

  /** The distro filter. */
  function Filtered(f: Found, distro: Name): Found {
    if f.Hit? && Visible(f.u, distro) then f else Miss
  }

  /** One answer for a routed name. */
  ghost function Answer(pins: Pins, b: ByModule, views: ViewTable, distro: Name, n: Name): Found {
    Filtered(LookupRule(pins, b, views, distro, n), distro)
  }

  ghost predicate MayAnswer(pins: Pins, b: ByModule, views: ViewTable, distro: Name, n: Name, f: Found) {
    exists g :: LookupAnswers(pins, b, views, distro, n, g) && f == Filtered(g, distro)
  }

  /** Routing and lookup, as one function of the name. */
  ghost function ProjectLook(pins: Pins, b: ByModule, views: ViewTable, alias: Aliases, distro: Name): Look {
    x => Answer(pins, b, views, distro, Route(alias, x))
  }

  /** A lookup the project may perform: for each routed name one answer it may give. */
  ghost predicate Possible(pins: Pins, b: ByModule, views: ViewTable, alias: Aliases, distro: Name, look: Look) {
    && (forall x {:trigger look(x)} :: MayAnswer(pins, b, views, distro, Route(alias, x), look(x)))
    && (forall x, y {:trigger look(x), look(y)} :: Route(alias, x) == Route(alias, y) ==> look(x) == look(y))
  }

  /** Once there are views, ties decide which unit is found, but not whether one is. Before, AnyUnit answers, which does
      not look at distros, and there must be no tie. */
  ghost predicate Settles(b: ByModule, views: ViewTable) {
    views != map[] || forall n :: Unambiguous(b, n, "")
  }

  lemma HitOrNot(pins: Pins, b: ByModule, views: ViewTable, distro: Name, n: Name, f: Found)
    requires Settles(b, views) && LookupAnswers(pins, b, views, distro, n, f)
    ensures Filtered(f, distro).Hit? <==> Answer(pins, b, views, distro, n).Hit?
  {
    RuleResolves(pins, b, distro, n);
    if distro in views {
      if n !in views[distro] {
        RuleChoosesWell(pins, b, distro, n, f);
        RuleChoosesWell(pins, b, distro, n, ResolveRule(pins, b, distro, n));
      }
    } else if views == map[] {
      OneBest(b, n, "", f);
    }
  }

  lemma AnswerIsPossible(pins: Pins, b: ByModule, views: ViewTable, distro: Name, n: Name)
    ensures MayAnswer(pins, b, views, distro, n, Answer(pins, b, views, distro, n))
  {
    RuleResolves(pins, b, distro, n);
    BestIsBest(b, n, "");
    assert LookupAnswers(pins, b, views, distro, n, LookupRule(pins, b, views, distro, n));
  }

  /** n is the routed form of some needed name that has a unit. */
  ghost predicate Included(look: Look, alias: Aliases, distro: Name, roots: seq<Name>, n: Name) {
    exists x :: Needed(look, distro, roots, x) && look(x).Hit? && Route(alias, x) == n
  }

  // ---------------------------------------------------------------------
  // The same, over the alias table and the units' own fields
  // ---------------------------------------------------------------------

  /** The unit x stands for is listed: the alias's target, or x itself without one. */
  predicate Listed(alias: Aliases, listed: set<Name>, x: Name) {
    if x in alias && alias[x] != "" then alias[x] in listed else x in listed
  }

  /** Every runtime dep of u that has a unit, its own or one it adds for the distro, is listed. */
  ghost predicate DepsListed(look: Look, alias: Aliases, distro: Name, listed: set<Name>, u: Unit) {
    && (forall d :: d in u.runtimeDeps && look(d).Hit? ==> Listed(alias, listed, d))
    && (distro in u.distroRuntimeDeps ==>
          forall d :: d in u.distroRuntimeDeps[distro] && look(d).Hit? ==> Listed(alias, listed, d))
  }

  ghost predicate ClosedSet(look: Look, alias: Aliases, distro: Name, roots: seq<Name>, listed: set<Name>) {
    && (forall x :: x in roots && look(x).Hit? ==> Listed(alias, listed, x))
    && (forall x :: look(x).Hit? && Listed(alias, listed, x) ==> DepsListed(look, alias, distro, listed, look(x).u))
  }

  /** Each answer is one for the alias's target, or for the name itself without one. */
  ghost predicate AnswersTarget(pins: Pins, b: ByModule, views: ViewTable, alias: Aliases, distro: Name, look: Look) {
    forall x {:trigger look(x)} ::
      if x in alias && alias[x] != "" then MayAnswer(pins, b, views, distro, alias[x], look(x))
      else MayAnswer(pins, b, views, distro, x, look(x))
  }

  lemma ListedChain(look: Look, alias: Aliases, distro: Name, roots: seq<Name>, listed: set<Name>, p: seq<Name>)
    requires distro != "" && ClosedSet(look, alias, distro, roots, listed) && Chain(look, distro, roots, p)
    ensures look(p[|p| - 1]).Hit? ==> Listed(alias, listed, p[|p| - 1])
    decreases |p|
  {
    if |p| == 1 {
    } else {
      var q := p[..|p| - 1];
      assert Chain(look, distro, roots, q);
      ListedChain(look, alias, distro, roots, listed, q);
      assert p[|p| - 1] in DepsOf(look, distro, q[|q| - 1]);
    }
  }

  /** What is included is the least closed set. */
  lemma IncludedIsLeast(pins: Pins, b: ByModule, views: ViewTable, look: Look, alias: Aliases, distro: Name,
                        roots: seq<Name>, listed: set<Name>)
    requires distro != "" && Possible(pins, b, views, alias, distro, look)
    requires forall n :: n in listed <==> Included(look, alias, distro, roots, n)
    ensures ClosedSet(look, alias, distro, roots, listed)
    ensures forall other :: ClosedSet(look, alias, distro, roots, other) ==> listed <= other
  {
    forall x | x in roots && look(x).Hit? ensures Listed(alias, listed, x) {
      NeededRoot(look, distro, roots, x);
      assert Included(look, alias, distro, roots, Route(alias, x));
    }
    forall x | look(x).Hit? && Listed(alias, listed, x) ensures DepsListed(look, alias, distro, listed, look(x).u) {
      IncludedDeps(look, alias, distro, roots, listed, x);
    }
    forall other | ClosedSet(look, alias, distro, roots, other) ensures listed <= other {
      forall n | n in listed ensures n in other {
        var x :| Needed(look, distro, roots, x) && look(x).Hit? && Route(alias, x) == n;
        var p :| Chain(look, distro, roots, p) && p[|p| - 1] == x;
        ListedChain(look, alias, distro, roots, other, p);
      }
    }
  }

  lemma IncludedDeps(look: Look, alias: Aliases, distro: Name, roots: seq<Name>, listed: set<Name>, x: Name)
    requires distro != "" && look(x).Hit? && Listed(alias, listed, x)
    requires forall y, z :: Route(alias, y) == Route(alias, z) ==> look(y) == look(z)
    requires forall n :: n in listed <==> Included(look, alias, distro, roots, n)
    ensures DepsListed(look, alias, distro, listed, look(x).u)
  {
    assert Included(look, alias, distro, roots, Route(alias, x));
    var y :| Needed(look, distro, roots, y) && look(y).Hit? && Route(alias, y) == Route(alias, x);
    forall d | d in DepsOf(look, distro, y) && look(d).Hit? ensures Listed(alias, listed, d) {
      NeededDep(look, distro, roots, y, d);
      assert Included(look, alias, distro, roots, Route(alias, d));
    }
    var u := look(y).u;
    assert forall d :: d in u.runtimeDeps ==> d in DepsOf(look, distro, y);
    assert distro in u.distroRuntimeDeps ==> forall d :: d in u.distroRuntimeDeps[distro] ==>
      d in DepsOf(look, distro, y);
  }

  // ---------------------------------------------------------------------
  // The walk
  // ---------------------------------------------------------------------

  /** Which routed names have a unit the distro can see. */
  type Sight = Name -> bool

  ghost function SightOf(pins: Pins, b: ByModule, views: ViewTable, distro: Name): Sight {
    n => Answer(pins, b, views, distro, n).Hit?
  }

  /** The lookup as far as names have been expanded, each with the unit found then. */
  ghost function Seen(alias: Aliases, chosen: map<Name, Unit>): Look {
    x => if Route(alias, x) in chosen then Hit(chosen[Route(alias, x)]) else Miss
  }

  ghost predicate Reached(alias: Aliases, chosen: map<Name, Unit>, distro: Name, roots: seq<Name>, n: Name) {
    exists x :: Needed(Seen(alias, chosen), distro, roots, x) && Route(alias, x) == n
  }

  /** x needs no further visit: its unit is listed, or it has none. */
  ghost predicate Handled(can: Sight, alias: Aliases, listed: set<Name>, x: Name) {
    can(Route(alias, x)) ==> Route(alias, x) in listed
  }

  /** The queue so far: each name reached, once, and with a unit; the deps of the first k handled. */
  ghost predicate Partial(can: Sight, alias: Aliases, distro: Name, roots: seq<Name>, chosen: map<Name, Unit>,
                          queue: seq<Name>, k: nat) {
    && k <= |queue| && NoDup(queue)
    && (forall n :: n in queue ==> can(n) && Reached(alias, chosen, distro, roots, n))
    && (forall x, d {:trigger d in DepsOf(Seen(alias, chosen), distro, x)} ::
          Route(alias, x) in queue[..k] && d in DepsOf(Seen(alias, chosen), distro, x) ==>
            Handled(can, alias, Elems(queue), d))
  }

  /** And the roots handled, and just the first k expanded. */
  ghost predicate Progress(can: Sight, alias: Aliases, distro: Name, roots: seq<Name>, chosen: map<Name, Unit>,
                           queue: seq<Name>, k: nat) {
    && Partial(can, alias, distro, roots, chosen, queue, k) && chosen.Keys == Elems(queue[..k])
    && forall x :: x in roots ==> Handled(can, alias, Elems(queue), x)
  }

  lemma {:induction false} ChainHandled(can: Sight, alias: Aliases, distro: Name, roots: seq<Name>,
                                        chosen: map<Name, Unit>,
                                        queue: seq<Name>, p: seq<Name>)
    requires Progress(can, alias, distro, roots, chosen, queue, |queue|) && Chain(Seen(alias, chosen), distro, roots, p)
    ensures Handled(can, alias, Elems(queue), p[|p| - 1])
    decreases |p|
  {
    if |p| == 1 {
    } else {
      var x, d := p[|p| - 2], p[|p| - 1];
      assert d in DepsOf(Seen(alias, chosen), distro, x);
      assert queue[..|queue|] == queue;
      assert Route(alias, x) in Elems(queue);
    }
  }

  method Visit(p: Project, alias: Aliases, distro: Name, queue0: seq<Name>, x: Name, ghost can: Sight)
               returns (queue: seq<Name>)
    requires distro != "" && Settles(p.unitsByModule, p.views)
    requires can == SightOf(p.pins, p.unitsByModule, p.views, distro)
    ensures Handled(can, alias, Elems(queue), x)
    ensures queue == queue0
            || (can(Route(alias, x)) && Route(alias, x) !in queue0 && queue == queue0 + [Route(alias, x)])
  {
    var name := Route(alias, x);
    queue := queue0;
    var f := p.LookupUnit(distro, name);
    HitOrNot(p.pins, p.unitsByModule, p.views, distro, name, f);
    if f.Hit? && (f.u.distro == "" || f.u.distro == distro) && name !in queue {
      queue := queue + [name];
      assert queue[|queue0|] == name;
    }
  }

  lemma HandledGrows(can: Sight, alias: Aliases, queue: seq<Name>, n: Name, x: Name)
    requires Handled(can, alias, Elems(queue), x)
    ensures Handled(can, alias, Elems(queue + [n]), x)
  {
    Appended(queue, n);
  }

  /** Queueing a reached name that has a unit keeps the progress made. */
  lemma VisitKeeps(can: Sight, alias: Aliases, distro: Name, roots: seq<Name>, chosen: map<Name, Unit>,
                   queue: seq<Name>, k: nat, n: Name)
    requires Partial(can, alias, distro, roots, chosen, queue, k) && Reached(alias, chosen, distro, roots, n) && can(n)
             && n !in queue
    ensures Partial(can, alias, distro, roots, chosen, queue + [n], k)
    ensures forall y :: Handled(can, alias, Elems(queue), y) ==> Handled(can, alias, Elems(queue + [n]), y)
  {
    Appended(queue, n);
    assert (queue + [n])[..k] == queue[..k];
    forall m | m in queue + [n] ensures can(m) && Reached(alias, chosen, distro, roots, m) {
      assert m in Elems(queue + [n]);
    }
    forall y | Handled(can, alias, Elems(queue), y) ensures Handled(can, alias, Elems(queue + [n]), y) {
      HandledGrows(can, alias, queue, n, y);
    }
  }

  /** Visit each of some needed names in turn. */
  method VisitAll(p: Project, alias: Aliases, distro: Name, roots: seq<Name>, xs: seq<Name>, queue0: seq<Name>,
                  ghost can: Sight, ghost chosen: map<Name, Unit>, ghost k: nat)
    returns (queue: seq<Name>)
    requires distro != "" && Settles(p.unitsByModule, p.views)
    requires can == SightOf(p.pins, p.unitsByModule, p.views, distro)
    requires Partial(can, alias, distro, roots, chosen, queue0, k)
    requires forall x :: x in xs ==> Needed(Seen(alias, chosen), distro, roots, x)
    ensures Partial(can, alias, distro, roots, chosen, queue, k) && queue0 <= queue
    ensures forall x :: x in xs ==> Handled(can, alias, Elems(queue), x)
    ensures forall y :: Handled(can, alias, Elems(queue0), y) ==> Handled(can, alias, Elems(queue), y)
  {
    queue := queue0;
    for i := 0 to |xs|
      invariant Partial(can, alias, distro, roots, chosen, queue, k) && queue0 <= queue
      invariant forall x :: x in xs[..i] ==> Handled(can, alias, Elems(queue), x)
      invariant forall y :: Handled(can, alias, Elems(queue0), y) ==> Handled(can, alias, Elems(queue), y)
    {
      ghost var before := queue;
      assert xs[i] in xs;
      queue := Visit(p, alias, distro, queue, xs[i], can);
      if queue != before { VisitKeeps(can, alias, distro, roots, chosen, before, k, Route(alias, xs[i])); }
      assert xs[..i + 1] == xs[..i] + [xs[i]];
    }
    assert xs[..|xs|] == xs;
  }

  // ---------------------------------------------------------------------
  // Expanding
  // ---------------------------------------------------------------------

  /** The unit chosen for the k-th name makes its deps needed, and takes no need away. */
  lemma ChosenGrows(can: Sight, alias: Aliases, distro: Name, roots: seq<Name>, chosen: map<Name, Unit>,
                    queue: seq<Name>, k: nat, u: Unit)
    requires k < |queue| && Progress(can, alias, distro, roots, chosen, queue, k)
    ensures Partial(can, alias, distro, roots, chosen[queue[k] := u], queue, k)
    ensures forall d :: d in RuntimeDepsForDistro(u, distro) ==>
              Needed(Seen(alias, chosen[queue[k] := u]), distro, roots, d)
  {
    var n, more := queue[k], chosen[queue[k] := u];
    FreshName(queue, k);
    forall m | m in queue ensures Reached(alias, more, distro, roots, m) {
      var x :| Needed(Seen(alias, chosen), distro, roots, x) && Route(alias, x) == m;
      NeedsGrow(Seen(alias, chosen), Seen(alias, more), distro, roots, x);
    }
    forall x, d | Route(alias, x) in queue[..k] && d in DepsOf(Seen(alias, more), distro, x)
      ensures Handled(can, alias, Elems(queue), d)
    {
      assert d in DepsOf(Seen(alias, chosen), distro, x);
    }
    assert n in queue && Reached(alias, more, distro, roots, n);
    var x :| Needed(Seen(alias, more), distro, roots, x) && Route(alias, x) == n;
    forall d | d in RuntimeDepsForDistro(u, distro) ensures Needed(Seen(alias, more), distro, roots, d) {
      NeededDep(Seen(alias, more), distro, roots, x, d);
    }
  }

  lemma FreshName(queue: seq<Name>, k: nat)
    requires k < |queue| && NoDup(queue)
    ensures queue[k] !in queue[..k]
  {
    forall j | 0 <= j < k ensures queue[..k][j] != queue[k] {
      assert queue[j] != queue[k];
    }
  }

  lemma ExpandedOne(can: Sight, alias: Aliases, distro: Name, roots: seq<Name>, chosen: map<Name, Unit>,
                    queue0: seq<Name>,
                    queue: seq<Name>, k: nat, u: Unit)
    requires k < |queue0| && Progress(can, alias, distro, roots, chosen, queue0, k) && queue0 <= queue
    requires Partial(can, alias, distro, roots, chosen[queue0[k] := u], queue, k)
    requires forall d :: d in RuntimeDepsForDistro(u, distro) ==> Handled(can, alias, Elems(queue), d)
    requires forall y :: Handled(can, alias, Elems(queue0), y) ==> Handled(can, alias, Elems(queue), y)
    ensures Progress(can, alias, distro, roots, chosen[queue0[k] := u], queue, k + 1)
  {
    assert queue[k] == queue0[k] && queue[..k] == queue0[..k];
    PrefixElems(queue, k);
    assert queue[..k + 1] == queue[..k] + [queue[k]];
  }

  /** The names expanded so far have units their lookups may find. */
  ghost predicate FoundAll(p: Project, distro: Name, chosen: map<Name, Unit>)
    reads p
  {
    forall n :: n in chosen ==>
      LookupAnswers(p.pins, p.unitsByModule, p.views, distro, n, Hit(chosen[n])) && Visible(chosen[n], distro)
  }

  method Expand(p: Project, alias: Aliases, distro: Name, roots: seq<Name>, queue0: seq<Name>, k: nat,
                ghost can: Sight, ghost chosen0: map<Name, Unit>)
    returns (queue: seq<Name>, ghost chosen: map<Name, Unit>)
    requires distro != "" && Settles(p.unitsByModule, p.views)
    requires can == SightOf(p.pins, p.unitsByModule, p.views, distro)
    requires k < |queue0| && Progress(can, alias, distro, roots, chosen0, queue0, k) && FoundAll(p, distro, chosen0)
    ensures Progress(can, alias, distro, roots, chosen, queue, k + 1) && FoundAll(p, distro, chosen)
  {
    var f := p.LookupUnit(distro, queue0[k]);
    assert can(queue0[k]);
    HitOrNot(p.pins, p.unitsByModule, p.views, distro, queue0[k], f);
    chosen := chosen0[queue0[k] := f.u];
    ChosenGrows(can, alias, distro, roots, chosen0, queue0, k, f.u);
    queue := VisitAll(p, alias, distro, roots, RuntimeDepsForDistro(f.u, distro), queue0, can, chosen, k);
    ExpandedOne(can, alias, distro, roots, chosen0, queue0, queue, k, f.u);
  }

  // ---------------------------------------------------------------------
  // The whole closure
  // ---------------------------------------------------------------------

  function Reachable(b: ByModule, views: ViewTable, distro: Name): set<Name> {
    CatalogNames(b) + (if distro in views then views[distro].Keys else {})
  }

  lemma HitKnown(pins: Pins, b: ByModule, views: ViewTable, distro: Name, n: Name)
    requires LookupRule(pins, b, views, distro, n).Hit?
    ensures n in Reachable(b, views, distro)
  {
    BestIsBest(b, n, "");
    RuleResolves(pins, b, distro, n);
    RuleChoosesWell(pins, b, distro, n, ResolveRule(pins, b, distro, n));
    if m :| Candidate(b, n, distro, m) { assert Has(b, m, n); }
    if m :| Candidate(b, n, "", m) { assert Has(b, m, n); }
  }

  lemma {:induction false} Fits(queue: seq<Name>, all: set<Name>)
    requires NoDup(queue) && forall n :: n in queue ==> n in all
    ensures |queue| <= |all|
  {
    if queue == [] {
    } else {
      assert forall n :: n in queue[1..] ==> n in all - {queue[0]};
      Fits(queue[1..], all - {queue[0]});
    }
  }

  /** The lookup of a run: what was found for the names expanded, and any answer for the others. */
  ghost function Chose(pins: Pins, b: ByModule, views: ViewTable, alias: Aliases, distro: Name,
                       chosen: map<Name, Unit>): Look {
    x => if Route(alias, x) in chosen then Hit(chosen[Route(alias, x)])
      else Answer(pins, b, views, distro, Route(alias, x))
  }

  lemma ChoseIsPossible(p: Project, alias: Aliases, distro: Name, chosen: map<Name, Unit>)
    requires FoundAll(p, distro, chosen)
    ensures Possible(p.pins, p.unitsByModule, p.views, alias, distro,
            Chose(p.pins, p.unitsByModule, p.views, alias, distro, chosen))
  {
    var look := Chose(p.pins, p.unitsByModule, p.views, alias, distro, chosen);
    forall x ensures MayAnswer(p.pins, p.unitsByModule, p.views, distro, Route(alias, x), look(x)) {
      var n := Route(alias, x);
      AnswerIsPossible(p.pins, p.unitsByModule, p.views, distro, n);
      if n in chosen { assert Filtered(Hit(chosen[n]), distro) == look(x); }
    }
  }

  /** Once every queued name is expanded, the queue is the least closed set. */
  lemma ProgressEnds(can: Sight, alias: Aliases, distro: Name, roots: seq<Name>, chosen: map<Name, Unit>,
                     queue: seq<Name>, look: Look)
    requires Progress(can, alias, distro, roots, chosen, queue, |queue|)
    requires forall x :: look(x) == if Route(alias, x) in chosen then Seen(alias, chosen)(x) else look(x)
    requires forall x :: look(x).Hit? <==> can(Route(alias, x))
    requires forall x :: !look(x).Hit? ==> look(x) == Miss
    ensures forall n :: n in queue <==> Included(look, alias, distro, roots, n)
  {
    var seen := Seen(alias, chosen);
    assert queue[..|queue|] == queue;
    forall x | Needed(seen, distro, roots, x) ensures Handled(can, alias, Elems(queue), x) && seen(x) == look(x) {
      var p :| Chain(seen, distro, roots, p) && p[|p| - 1] == x;
      ChainHandled(can, alias, distro, roots, chosen, queue, p);
    }
    SameNeeds(seen, look, distro, roots);
    forall n | n in queue ensures Included(look, alias, distro, roots, n) {
      var x :| Needed(seen, distro, roots, x) && Route(alias, x) == n;
    }
    forall n | Included(look, alias, distro, roots, n) ensures n in queue {
      var x :| Needed(look, distro, roots, x) && look(x).Hit? && Route(alias, x) == n;
      assert Needed(seen, distro, roots, x);
    }
  }

  lemma SameIncluded(a: Look, b: Look, alias: Aliases, distro: Name, roots: seq<Name>, n: Name)
    requires forall x :: a(x) == b(x)
    ensures Included(a, alias, distro, roots, n) <==> Included(b, alias, distro, roots, n)
  {
    SameNeeds(a, b, distro, roots);
    if x :| Needed(a, distro, roots, x) && a(x).Hit? && Route(alias, x) == n {
      assert Needed(b, distro, roots, x) && b(x).Hit?;
    }
    if x :| Needed(b, distro, roots, x) && b(x).Hit? && Route(alias, x) == n {
      assert Needed(a, distro, roots, x) && a(x).Hit?;
    }
  }

  /** Without ties that matter there is one possible lookup. */
  lemma OnePossible(pins: Pins, b: ByModule, views: ViewTable, alias: Aliases, distro: Name, look: Look)
    requires Determined(pins, b, views, distro) && Possible(pins, b, views, alias, distro, look)
    ensures forall x :: look(x) == ProjectLook(pins, b, views, alias, distro)(x)
  {
    forall x ensures look(x) == Answer(pins, b, views, distro, Route(alias, x)) {
      var n := Route(alias, x);
      assert MayAnswer(pins, b, views, distro, n, look(x));
      var g :| LookupAnswers(pins, b, views, distro, n, g) && look(x) == Filtered(g, distro);
      LookupDetermined(pins, b, views, distro, n, g);
    }
  }

  /** Exactly the names needed under some lookup the project may perform, those that have a visible unit, each once;
      cycles and missing names are no obstacle. */
  method RuntimeClosure(p: Project, alias: Aliases, roots: seq<Name>, distro: Name)
                        returns (out: seq<Name>, ghost look: Look)
    requires distro != "" && Settles(p.unitsByModule, p.views)
    ensures NoDup(out) && Possible(p.pins, p.unitsByModule, p.views, alias, distro, look)
    ensures forall n :: n in out <==> Included(look, alias, distro, roots, n)
    ensures AnswersTarget(p.pins, p.unitsByModule, p.views, alias, distro, look)
    ensures ClosedSet(look, alias, distro, roots, Elems(out))
    ensures forall listed :: ClosedSet(look, alias, distro, roots, listed) ==> Elems(out) <= listed
    ensures Determined(p.pins, p.unitsByModule, p.views, distro) ==>
              forall n :: n in out <==>
                Included(ProjectLook(p.pins, p.unitsByModule, p.views, alias, distro), alias, distro, roots, n)
  {
    ghost var can := SightOf(p.pins, p.unitsByModule, p.views, distro);
    ghost var chosen: map<Name, Unit> := map[];
    forall x | x in roots ensures Needed(Seen(alias, chosen), distro, roots, x) {
      NeededRoot(Seen(alias, chosen), distro, roots, x);
    }
    var queue := VisitAll(p, alias, distro, roots, roots, [], can, chosen, 0);
    var k := 0;
    while k < |queue|
      invariant Progress(can, alias, distro, roots, chosen, queue, k) && FoundAll(p, distro, chosen)
      decreases |Reachable(p.unitsByModule, p.views, distro)| - k
    {
      QueueBounded(p, distro, can, queue);
      queue, chosen := Expand(p, alias, distro, roots, queue, k, can, chosen);
      k := k + 1;
    }
    look := Chose(p.pins, p.unitsByModule, p.views, alias, distro, chosen);
    ClosureEnds(p, alias, distro, roots, chosen, queue, can, look);
    IncludedIsLeast(p.pins, p.unitsByModule, p.views, look, alias, distro, roots, Elems(queue));
    out := queue;
  }

  lemma ClosureEnds(p: Project, alias: Aliases, distro: Name, roots: seq<Name>, chosen: map<Name, Unit>,
                    queue: seq<Name>,
                    can: Sight, look: Look)
    requires Settles(p.unitsByModule, p.views) && can == SightOf(p.pins, p.unitsByModule, p.views, distro)
    requires Progress(can, alias, distro, roots, chosen, queue, |queue|) && FoundAll(p, distro, chosen)
    requires look == Chose(p.pins, p.unitsByModule, p.views, alias, distro, chosen)
    ensures Possible(p.pins, p.unitsByModule, p.views, alias, distro, look)
    ensures forall n :: n in queue <==> Included(look, alias, distro, roots, n)
    ensures Determined(p.pins, p.unitsByModule, p.views, distro) ==>
              forall n :: n in queue <==>
                Included(ProjectLook(p.pins, p.unitsByModule, p.views, alias, distro), alias, distro, roots, n)
  {
    ChoseIsPossible(p, alias, distro, chosen);
    ChoseSees(p, alias, distro, chosen, can);
    ProgressEnds(can, alias, distro, roots, chosen, queue, look);
    if Determined(p.pins, p.unitsByModule, p.views, distro) {
      var only := ProjectLook(p.pins, p.unitsByModule, p.views, alias, distro);
      OnePossible(p.pins, p.unitsByModule, p.views, alias, distro, look);
      forall n ensures n in queue <==> Included(only, alias, distro, roots, n) {
        SameIncluded(look, only, alias, distro, roots, n);
      }
    }
  }

  lemma QueueBounded(p: Project, distro: Name, can: Sight, queue: seq<Name>)
    requires can == SightOf(p.pins, p.unitsByModule, p.views, distro) && NoDup(queue) && forall n :: n in queue ==>
             can(n)
    ensures |queue| <= |Reachable(p.unitsByModule, p.views, distro)|
  {
    forall n | n in queue ensures n in Reachable(p.unitsByModule, p.views, distro) {
      HitKnown(p.pins, p.unitsByModule, p.views, distro, n);
    }
    Fits(queue, Reachable(p.unitsByModule, p.views, distro));
  }

  lemma ChoseSees(p: Project, alias: Aliases, distro: Name, chosen: map<Name, Unit>, can: Sight)
    requires FoundAll(p, distro, chosen) && Settles(p.unitsByModule, p.views)
    requires can == SightOf(p.pins, p.unitsByModule, p.views, distro)
    ensures var look := Chose(p.pins, p.unitsByModule, p.views, alias, distro, chosen);
            forall x :: (look(x).Hit? <==> can(Route(alias, x))) && (!look(x).Hit? ==> look(x) == Miss)
  {
    var look := Chose(p.pins, p.unitsByModule, p.views, alias, distro, chosen);
    forall x ensures look(x).Hit? <==> can(Route(alias, x)) {
      var n := Route(alias, x);
      if n in chosen { HitOrNot(p.pins, p.unitsByModule, p.views, distro, n, Hit(chosen[n])); }
    }
  }
}
