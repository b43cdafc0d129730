/**
 The engine's runtime closure (internal/starlark/closure.go), which fails on a
 missing name, compared with the least set closed under runtime deps.
 */
module Closure {
  import opened Names
  import opened Catalogs
  import opened Lookup
  import Waves
  import TopoOrder

  type Look = Name -> Found

  // ---------------------------------------------------------------------
  // The least closed set
  // ---------------------------------------------------------------------

  ghost function DepsOf(look: Look, distro: Name, x: Name): set<Name> {
    if look(x).Hit? then Elems(RuntimeDepsForDistro(look(x).u, distro)) else {}
  }

  ghost predicate Chain(look: Look, distro: Name, roots: seq<Name>, p: seq<Name>) {
    && |p| > 0 && p[0] in roots
    && forall i :: 0 <= i < |p| - 1 ==> p[i + 1] in DepsOf(look, distro, p[i])
  }

  /** x is a root, or a runtime dep of a unit that a needed name resolves to. */
  ghost predicate Needed(look: Look, distro: Name, roots: seq<Name>, x: Name) {
    exists p :: Chain(look, distro, roots, p) && p[|p| - 1] == x
  }

  lemma NeededRoot(look: Look, distro: Name, roots: seq<Name>, x: Name)
    requires x in roots
    ensures Needed(look, distro, roots, x)
  {
    assert Chain(look, distro, roots, [x]);
  }

  lemma NeededDep(look: Look, distro: Name, roots: seq<Name>, x: Name, d: Name)
    requires Needed(look, distro, roots, x) && d in DepsOf(look, distro, x)
    ensures Needed(look, distro, roots, d)
  {
    var p :| Chain(look, distro, roots, p) && p[|p| - 1] == x;
    assert Chain(look, distro, roots, p + [d]);
  }

  /** x resolves to a unit listed in keys. */
  predicate Covered(look: Look, keys: set<Name>, x: Name) {
    look(x).Hit? && look(x).u.name in keys
  }

  lemma {:induction false} NeededCovered(look: Look, distro: Name, roots: seq<Name>, keys: set<Name>, p: seq<Name>)
    requires Chain(look, distro, roots, p)
    requires forall x :: x in roots ==> Covered(look, keys, x)
    requires forall x, d :: Covered(look, keys, x) && d in DepsOf(look, distro, x) ==> Covered(look, keys, d)
    ensures Covered(look, keys, p[|p| - 1])
  {
    if |p| <= 1 {
    } else {
      var q := p[..|p| - 1];
      assert Chain(look, distro, roots, q);
      NeededCovered(look, distro, roots, keys, q);
      assert p[|p| - 1] in DepsOf(look, distro, q[|q| - 1]);
    }
  }

  lemma ChainMore(look: Look, distro: Name, roots: seq<Name>, q: seq<Name>, d: Name)
    requires Chain(look, distro, roots, q) && d in DepsOf(look, distro, q[|q| - 1])
    ensures Chain(look, distro, roots, q + [d])
  {
    var p := q + [d];
    forall i | 0 <= i < |p| - 1 ensures p[i + 1] in DepsOf(look, distro, p[i]) {
      if i < |q| - 1 { assert q[i + 1] in DepsOf(look, distro, q[i]); }
    }
  }

  lemma {:induction false} ChainCarries(a: Look, b: Look, distro: Name, roots: seq<Name>, p: seq<Name>)
    requires forall x :: Needed(a, distro, roots, x) ==> a(x) == b(x)
    requires Chain(b, distro, roots, p)
    ensures Chain(a, distro, roots, p)
    decreases |p|
  {
    if |p| == 1 {
    } else {
      var q := p[..|p| - 1];
      assert Chain(b, distro, roots, q);
      ChainCarries(a, b, distro, roots, q);
      assert Needed(a, distro, roots, q[|q| - 1]);
      assert p[|p| - 1] in DepsOf(b, distro, p[|p| - 2]) && p == q + [p[|p| - 1]];
      ChainMore(a, distro, roots, q, p[|p| - 1]);
    }
  }

  /** Lookups that agree on what one of them needs need the same. */
  lemma SameNeeds(a: Look, b: Look, distro: Name, roots: seq<Name>)
    requires forall x :: Needed(a, distro, roots, x) ==> a(x) == b(x)
    ensures forall x :: Needed(a, distro, roots, x) <==> Needed(b, distro, roots, x)
  {
    forall x | Needed(b, distro, roots, x) ensures Needed(a, distro, roots, x) {
      var p :| Chain(b, distro, roots, p) && p[|p| - 1] == x;
      ChainCarries(a, b, distro, roots, p);
    }
    forall x | Needed(a, distro, roots, x) ensures Needed(b, distro, roots, x) {
      var p :| Chain(a, distro, roots, p) && p[|p| - 1] == x;
      forall i | 0 <= i < |p| - 1 ensures p[i + 1] in DepsOf(b, distro, p[i]) {
        assert Chain(a, distro, roots, p[..i + 1]);
        assert Needed(a, distro, roots, p[i]);
      }
      assert Chain(b, distro, roots, p);
    }
  }

  /** A lookup that answers all another one does, and alike, needs no less. */
  lemma NeedsGrow(a: Look, b: Look, distro: Name, roots: seq<Name>, x: Name)
    requires (forall y :: a(y).Hit? ==> b(y) == a(y)) && Needed(a, distro, roots, x)
    ensures Needed(b, distro, roots, x)
  {
    var p :| Chain(a, distro, roots, p) && p[|p| - 1] == x;
    forall i | 0 <= i < |p| - 1 ensures p[i + 1] in DepsOf(b, distro, p[i]) {
      assert p[i + 1] in DepsOf(a, distro, p[i]);
    }
    assert Chain(b, distro, roots, p);
  }

  /** A unit looked up by its own name is itself. */
  ghost predicate Stable(look: Look) {
    forall x {:trigger look(x)} :: look(x).Hit? ==> look(look(x).u.name) == look(x)
  }

  /** ns are the names ds resolve to. */
  predicate ResolvedTo(look: Look, ds: seq<Name>, ns: seq<Name>) {
    |ns| == |ds| && forall i :: 0 <= i < |ds| ==> look(ds[i]).Hit? && ns[i] == look(ds[i]).u.name
  }

  /** k is a unit some needed name resolves to, recorded with its resolved deps. */
  ghost predicate Entry(look: Look, distro: Name, roots: seq<Name>, k: Name, ns: seq<Name>) {
    && look(k).Hit? && look(k).u.name == k
    && (exists x :: Needed(look, distro, roots, x) && look(x) == look(k))
    && ResolvedTo(look, RuntimeDepsForDistro(look(k).u, distro), ns)
  }

  /** The recorded deps are those of exactly the needed units, and every needed name resolves. */
  ghost predicate IsClosure(look: Look, distro: Name, roots: seq<Name>, deps: map<Name, seq<Name>>) {
    && (forall x :: Needed(look, distro, roots, x) ==> Covered(look, deps.Keys, x))
    && (forall k :: k in deps ==> Entry(look, distro, roots, k, deps[k]))
  }

  /** Two closures of the same roots hold the same units. */
  lemma ClosureUnique(look: Look, distro: Name, roots: seq<Name>, a: map<Name, seq<Name>>, b: map<Name, seq<Name>>)
    requires IsClosure(look, distro, roots, a) && IsClosure(look, distro, roots, b)
    ensures a == b
  {
    forall k | k in a ensures k in b && a[k] == b[k] {
      var x :| Needed(look, distro, roots, x) && look(x) == look(k);
      assert Covered(look, b.Keys, x);
      assert Entry(look, distro, roots, k, b[k]);
    }
    forall k | k in b ensures k in a {
      var x :| Needed(look, distro, roots, x) && look(x) == look(k);
      assert Covered(look, a.Keys, x);
    }
  }

  // ---------------------------------------------------------------------
  // The same, over the units' own fields
  // ---------------------------------------------------------------------

  /** Every runtime dep of u, its own or one it adds for the distro, resolves to a listed unit. */
  ghost predicate DepsListed(look: Look, distro: Name, listed: set<Name>, u: Unit) {
    && (forall d :: d in u.runtimeDeps ==> Covered(look, listed, d))
    && (distro in u.distroRuntimeDeps ==> forall d :: d in u.distroRuntimeDeps[distro] ==> Covered(look, listed, d))
  }

  /** The roots are covered, and the deps of every listed name's unit. */
  ghost predicate ClosedSet(look: Look, distro: Name, roots: seq<Name>, listed: set<Name>) {
    && (forall x :: x in roots ==> Covered(look, listed, x))
    && (forall k :: k in listed && look(k).Hit? ==> DepsListed(look, distro, listed, look(k).u))
  }

  /** A closure is the least closed set. */
  lemma ClosureIsLeast(look: Look, distro: Name, roots: seq<Name>, deps: map<Name, seq<Name>>)
    requires distro != "" && Stable(look) && IsClosure(look, distro, roots, deps)
    ensures ClosedSet(look, distro, roots, deps.Keys)
    ensures forall listed :: ClosedSet(look, distro, roots, listed) ==> deps.Keys <= listed
  {
    forall x | x in roots ensures Covered(look, deps.Keys, x) { NeededRoot(look, distro, roots, x); }
    forall k | k in deps ensures DepsListed(look, distro, deps.Keys, look(k).u) {
      var x :| Needed(look, distro, roots, x) && look(x) == look(k);
      forall d | d in DepsOf(look, distro, k) ensures Covered(look, deps.Keys, d) {
        assert d in DepsOf(look, distro, x);
        NeededDep(look, distro, roots, x, d);
      }
      assert forall d :: d in look(k).u.runtimeDeps ==> d in DepsOf(look, distro, k);
      assert distro in look(k).u.distroRuntimeDeps ==>
          forall d :: d in look(k).u.distroRuntimeDeps[distro] ==> d in DepsOf(look, distro, k);
    }
    forall listed | ClosedSet(look, distro, roots, listed) ensures deps.Keys <= listed {
      InEveryClosedSet(look, distro, roots, deps, listed);
    }
  }

  lemma InEveryClosedSet(look: Look, distro: Name, roots: seq<Name>, deps: map<Name, seq<Name>>, listed: set<Name>)
    requires distro != "" && Stable(look) && IsClosure(look, distro, roots, deps)
    requires ClosedSet(look, distro, roots, listed)
    ensures deps.Keys <= listed
  {
    forall x, d | Covered(look, listed, x) && d in DepsOf(look, distro, x) ensures Covered(look, listed, d) {
      assert look(look(x).u.name) == look(x) && DepsListed(look, distro, listed, look(look(x).u.name).u);
    }
    forall k | k in deps ensures k in listed {
      var x :| Needed(look, distro, roots, x) && look(x) == look(k);
      var p :| Chain(look, distro, roots, p) && p[|p| - 1] == x;
      NeededCovered(look, distro, roots, listed, p);
    }
  }

  /** Both lookups find the same units, up to what those add for other distros. */
  ghost predicate AlikeFor(a: Look, b: Look, distro: Name) {
    forall x {:trigger a(x)} {:trigger b(x)} ::
      if a(x).Hit? && b(x).Hit? then
        var u, v := a(x).u, b(x).u;
        && v == u.(distroRuntimeDeps := v.distroRuntimeDeps)
        && (distro in u.distroRuntimeDeps <==> distro in v.distroRuntimeDeps)
        && (distro in u.distroRuntimeDeps ==> u.distroRuntimeDeps[distro] == v.distroRuntimeDeps[distro])
      else a(x) == b(x)
  }

  lemma AlikeListed(a: Look, b: Look, distro: Name, roots: seq<Name>, listed: set<Name>)
    requires AlikeFor(a, b, distro) && ClosedSet(a, distro, roots, listed)
    ensures ClosedSet(b, distro, roots, listed)
  {
    forall x | Covered(a, listed, x) ensures Covered(b, listed, x) {
      assert a(x).Hit? && b(x).Hit?;
    }
    forall k | k in listed && b(k).Hit? ensures DepsListed(b, distro, listed, b(k).u) {
      assert a(k).Hit?;
      assert DepsListed(a, distro, listed, a(k).u);
    }
  }

  /** What units add for other distros changes no closure. */
  lemma OtherDistrosIgnored(a: Look, b: Look, distro: Name, roots: seq<Name>, deps: map<Name, seq<Name>>,
                            deps': map<Name, seq<Name>>)
    requires distro != "" && Stable(a) && Stable(b) && AlikeFor(a, b, distro)
    requires IsClosure(a, distro, roots, deps) && IsClosure(b, distro, roots, deps')
    ensures deps.Keys == deps'.Keys
  {
    ClosureIsLeast(a, distro, roots, deps);
    ClosureIsLeast(b, distro, roots, deps');
    AlikeListed(a, b, distro, roots, deps.Keys);
    assert AlikeFor(b, a, distro) by {
      forall x ensures a(x).Hit? <==> b(x).Hit? { assert a(x) == a(x); }
    }
    AlikeListed(b, a, distro, roots, deps'.Keys);
  }

  // ---------------------------------------------------------------------
  // The breadth-first walk
  // ---------------------------------------------------------------------

  /** A queued name stands for a needed one; if it does not resolve it is needed itself. */
  ghost predicate Stands(look: Look, distro: Name, roots: seq<Name>, q: Name) {
    && (exists x :: Needed(look, distro, roots, x) && look(x) == look(q))
    && (look(q).Hit? || Needed(look, distro, roots, q))
  }

  ghost predicate Walking(look: Look, distro: Name, roots: seq<Name>, deps: map<Name, seq<Name>>, pending: set<Name>) {
    && (forall q :: q in pending ==> Stands(look, distro, roots, q))
    && (forall k {:trigger deps[k]} :: k in deps ==> Entry(look, distro, roots, k, deps[k]))
    && (forall k {:trigger deps[k]} :: k in deps ==> Elems(deps[k]) <= deps.Keys + pending)
    && (forall x :: x in roots ==> x in pending || Covered(look, deps.Keys, x))
  }

  lemma WalkStarts(look: Look, distro: Name, roots: seq<Name>)
    ensures Walking(look, distro, roots, map[], Elems(roots))
  {
    forall q | q in Elems(roots) ensures Stands(look, distro, roots, q) {
      NeededRoot(look, distro, roots, q);
    }
  }

  /** A recorded dep, looked up by its own name, is the unit of that name. */
  lemma ResolvedIsOwn(look: Look, ds: seq<Name>, ns: seq<Name>, d: Name)
    requires Stable(look) && ResolvedTo(look, ds, ns) && d in ns
    ensures look(d).Hit? && look(d).u.name == d
  {
    var i :| 0 <= i < |ns| && ns[i] == d;
    assert look(look(ds[i]).u.name) == look(ds[i]);
  }

  /** Dropping a queued name whose unit is already recorded. */
  lemma WalkSkips(look: Look, distro: Name, roots: seq<Name>, deps: map<Name, seq<Name>>, pending: set<Name>, q: Name)
    requires Stable(look) && Walking(look, distro, roots, deps, pending) && Covered(look, deps.Keys, q)
    ensures Walking(look, distro, roots, deps, pending - {q})
  {
    forall k | k in deps ensures Elems(deps[k]) <= deps.Keys + (pending - {q}) {
      forall d | d in Elems(deps[k]) ensures d in deps.Keys + (pending - {q}) {
        ResolvedIsOwn(look, RuntimeDepsForDistro(look(k).u, distro), deps[k], d);
      }
    }
  }

  /** The head of the queue may go once its unit is recorded; whatever else was queued stays. */
  lemma HeadPopped(look: Look, distro: Name, roots: seq<Name>, deps: map<Name, seq<Name>>, queue: seq<Name>,
                   ns: seq<Name>)
    requires Stable(look) && queue != [] && Covered(look, deps.Keys, queue[0])
    requires Walking(look, distro, roots, deps, Elems(queue) + Elems(ns))
    ensures Walking(look, distro, roots, deps, Elems(queue[1..] + ns))
  {
    var q, all := queue[0], Elems(queue) + Elems(ns);
    WalkSkips(look, distro, roots, deps, all, q);
    Joined(queue[1..], ns);
    assert queue == [q] + queue[1..];
    assert all - {q} <= Elems(queue[1..] + ns) <= all;
    Widen(look, distro, roots, deps, all - {q}, Elems(queue[1..] + ns), all);
  }

  lemma Widen(look: Look, distro: Name, roots: seq<Name>, deps: map<Name, seq<Name>>, a: set<Name>, b: set<Name>,
              c: set<Name>)
    requires Walking(look, distro, roots, deps, a) && Walking(look, distro, roots, deps, c) && a <= b <= c
    ensures Walking(look, distro, roots, deps, b)
  {
  }

  /** A failing dep of a unit that a queued name stands for is needed. */
  lemma FailedDepNeeded(look: Look, distro: Name, roots: seq<Name>, q: Name, d: Name)
    requires Stands(look, distro, roots, q) && look(q).Hit? && d in RuntimeDepsForDistro(look(q).u, distro)
    ensures Needed(look, distro, roots, d)
  {
    var x :| Needed(look, distro, roots, x) && look(x) == look(q);
    assert d in DepsOf(look, distro, x);
    NeededDep(look, distro, roots, x, d);
  }

  /** Recording the unit of a queued name, and queueing its resolved deps. */
  lemma WalkRecords(look: Look, distro: Name, roots: seq<Name>, deps: map<Name, seq<Name>>, pending: set<Name>, q: Name,
                    ns: seq<Name>)
    requires Stable(look) && Walking(look, distro, roots, deps, pending) && q in pending
    requires look(q).Hit? && look(q).u.name !in deps
    requires ResolvedTo(look, RuntimeDepsForDistro(look(q).u, distro), ns)
    ensures Walking(look, distro, roots, deps[look(q).u.name := ns], pending + Elems(ns))
  {
    var n := look(q).u.name;
    var after := deps[n := ns];
    assert Stands(look, distro, roots, q);
    EntryMade(look, distro, roots, q, ns);
    DepsStand(look, distro, roots, q, ns);
    forall k | k in after ensures Entry(look, distro, roots, k, after[k])
      && Elems(after[k]) <= after.Keys + (pending + Elems(ns))
    {
      if k != n { assert after[k] == deps[k]; }
    }
    assert after.Keys == deps.Keys + {n};
  }

  lemma EntryMade(look: Look, distro: Name, roots: seq<Name>, q: Name, ns: seq<Name>)
    requires Stable(look) && Stands(look, distro, roots, q) && look(q).Hit?
    requires ResolvedTo(look, RuntimeDepsForDistro(look(q).u, distro), ns)
    ensures Entry(look, distro, roots, look(q).u.name, ns)
  {
    assert look(look(q).u.name) == look(q);
    var x :| Needed(look, distro, roots, x) && look(x) == look(q);
  }

  lemma DepsStand(look: Look, distro: Name, roots: seq<Name>, q: Name, ns: seq<Name>)
    requires Stable(look) && Stands(look, distro, roots, q) && look(q).Hit?
    requires ResolvedTo(look, RuntimeDepsForDistro(look(q).u, distro), ns)
    ensures forall d :: d in Elems(ns) ==> Stands(look, distro, roots, d)
  {
    var x :| Needed(look, distro, roots, x) && look(x) == look(q);
    forall d | d in Elems(ns) ensures Stands(look, distro, roots, d) {
      var i :| 0 <= i < |ns| && ns[i] == d;
      var dep := RuntimeDepsForDistro(look(q).u, distro)[i];
      assert dep in DepsOf(look, distro, x);
      NeededDep(look, distro, roots, x, dep);
      assert look(d) == look(dep);
    }
  }

  /** With nothing pending, the record is the closure. */
  lemma WalkEnds(look: Look, distro: Name, roots: seq<Name>, deps: map<Name, seq<Name>>)
    requires Stable(look) && Walking(look, distro, roots, deps, {})
    ensures IsClosure(look, distro, roots, deps)
  {
    forall x, d | Covered(look, deps.Keys, x) && d in DepsOf(look, distro, x) ensures Covered(look, deps.Keys, d) {
      var k := look(x).u.name;
      assert Entry(look, distro, roots, k, deps[k]) && look(k) == look(x);
      var ds := RuntimeDepsForDistro(look(k).u, distro);
      var i :| 0 <= i < |ds| && ds[i] == d;
      assert deps[k][i] in Elems(deps[k]);
    }
    forall x | Needed(look, distro, roots, x) ensures Covered(look, deps.Keys, x) {
      var p :| Chain(look, distro, roots, p) && p[|p| - 1] == x;
      NeededCovered(look, distro, roots, deps.Keys, p);
    }
  }

  // ---------------------------------------------------------------------
  // Engine.closure
  // ---------------------------------------------------------------------

  /** The lookup the engine performs for one distro, as a function of the name. */
  ghost function EngineLook(c: Config, cat: Catalog, distro: Name): Look {
    x => Rule(c, cat, x, distro)
  }

  /** Provides targets are not themselves remapped. */
  ghost predicate AliasesFinal(c: Config, distro: Name) {
    forall x :: Resolve(c, Resolve(c, x, distro), distro) == Resolve(c, x, distro)
  }

  function FeedNames(feeds: seq<Feed>): set<Name> {
    if feeds == [] then {} else feeds[0].entries.Keys + FeedNames(feeds[1..])
  }

  lemma {:induction false} FeedNamesHas(feeds: seq<Feed>, i: nat, n: Name)
    requires i < |feeds| && n in feeds[i].entries
    ensures n in FeedNames(feeds)
  {
    if i > 0 { FeedNamesHas(feeds[1..], i - 1, n); }
  }

  /** A hit carries the resolved name, which some catalog or feed knows, and is visible. */
  lemma RuleHit(c: Config, cat: Catalog, name: Name, distro: Name)
    requires WellFormed(c, cat) && distro != "" && RuleFor(c, cat, name, distro).Hit?
    ensures var u := RuleFor(c, cat, name, distro).u;
            u.name == name && name in cat.flat.Keys + FeedNames(c.feeds) && Visible(u, distro)
  {
    var p := FromPin(c, cat.byModule, name, distro);
    if p.Hit? {
      var m := Pin(c, name, distro);
      var i := FeedIndex(c.feeds, m);
      if i < |c.feeds| {
        FeedHitFacts(c, i, name, distro);
        FeedNamesHas(c.feeds, i, name);
      } else {
        assert Has(cat.byModule, m, name);
      }
    } else if FromCatalog(cat, name, distro).Hit? {
      if !Visible(cat.flat[name], distro) {
        var m :| Top(cat.byModule, name, distro, m)
          && BestVisible(cat.byModule, name, distro) == Hit(cat.byModule[m][name]);
        assert Has(cat.byModule, m, name);
      }
    } else {
      var i := AskAllHit(c.feeds, name, distro);
      FeedHitFacts(c, i, name, distro);
      FeedNamesHas(c.feeds, i, name);
    }
  }

  lemma EngineLookStable(c: Config, cat: Catalog, distro: Name)
    requires WellFormed(c, cat) && distro != "" && AliasesFinal(c, distro)
    ensures Stable(EngineLook(c, cat, distro))
    ensures forall x :: EngineLook(c, cat, distro)(x).Hit? ==>
              EngineLook(c, cat, distro)(x).u.name in cat.flat.Keys + FeedNames(c.feeds)
              && Visible(EngineLook(c, cat, distro)(x).u, distro)
  {
    var look := EngineLook(c, cat, distro);
    forall x | look(x).Hit?
      ensures look(look(x).u.name) == look(x)
      ensures look(x).u.name in cat.flat.Keys + FeedNames(c.feeds) && Visible(look(x).u, distro)
    {
      RuleHit(c, cat, Resolve(c, x, distro), distro);
    }
  }

  /** Every unit of an engine's closure is there under its own name and visible to the distro. */
  lemma ClosureVisible(c: Config, cat: Catalog, distro: Name, roots: seq<Name>, deps: map<Name, seq<Name>>)
    requires WellFormed(c, cat) && distro != "" && AliasesFinal(c, distro)
    requires IsClosure(EngineLook(c, cat, distro), distro, roots, deps)
    ensures forall k :: k in deps ==> OwnAndVisible(EngineLook(c, cat, distro), distro, k)
  {
    EngineLookStable(c, cat, distro);
  }

  ghost predicate OwnAndVisible(look: Look, distro: Name, k: Name) {
    look(k).Hit? && look(k).u.name == k && Visible(look(k).u, distro)
  }

  /** The engine has looked up every root that is not pending, and every dep of the recorded units. */
  ghost predicate AllAsked(look: Look, distro: Name, roots: seq<Name>, keys: set<Name>, pending: set<Name>,
                           asked: set<Call>) {
    && (forall x :: x in roots ==> x in pending || Call(x, distro) in asked)
    && (forall k, d {:trigger d in DepsOf(look, distro, k)} :: k in keys && d in DepsOf(look, distro, k) ==>
          Call(d, distro) in asked)
  }

  /** At the end it has looked up every needed name. */
  lemma NeededAsked(look: Look, distro: Name, roots: seq<Name>, deps: map<Name, seq<Name>>, asked: set<Call>)
    requires Stable(look) && IsClosure(look, distro, roots, deps) && AllAsked(look, distro, roots, deps.Keys, {}, asked)
    ensures forall x :: Needed(look, distro, roots, x) ==> Call(x, distro) in asked
  {
    forall x | Needed(look, distro, roots, x) ensures Call(x, distro) in asked {
      var p :| Chain(look, distro, roots, p) && p[|p| - 1] == x;
      if |p| > 1 {
        var y := p[|p| - 2];
        assert Chain(look, distro, roots, p[..|p| - 1]);
        assert Needed(look, distro, roots, y);
        var k := look(y).u.name;
        assert look(k) == look(y) && x in DepsOf(look, distro, k);
      }
    }
  }

  /** Taking q off the queue, once it is looked up, and recording key n with its deps. */
  lemma AskedTurn(look: Look, distro: Name, roots: seq<Name>, keys: set<Name>, n: Name, queue: seq<Name>, ns: seq<Name>,
                  before: set<Call>, asked: set<Call>)
    requires queue != [] && AllAsked(look, distro, roots, keys, Elems(queue), before) && before <= asked
    requires Call(queue[0], distro) in asked
    requires n !in keys ==> forall d :: d in DepsOf(look, distro, n) ==> Call(d, distro) in asked
    ensures AllAsked(look, distro, roots, keys + {n}, Elems(queue[1..] + ns), asked)
  {
    forall x | x in roots ensures x in Elems(queue[1..] + ns) || Call(x, distro) in asked {
      if x in Elems(queue) && x != queue[0] {
        assert queue == [queue[0]] + queue[1..];
        Joined(queue[1..], ns);
      }
    }
  }

  datatype ClosureResult =
    | Units(order: seq<Name>)
    | Unresolved(name: Name)
    | LookupError(feed: Name)

  /** What a failed walk reports: a needed name that has no unit, or whose feed broke. */
  ghost predicate Failure(look: Look, distro: Name, roots: seq<Name>, res: ClosureResult) {
    match res
    case Units(_) => false
    case Unresolved(x) => Needed(look, distro, roots, x) && look(x).Miss?
    case LookupError(f) => exists x :: Needed(look, distro, roots, x) && look(x) == Fault(f)
  }

  function Report(x: Name, why: Found): ClosureResult
    requires !why.Hit?
  {
    if why.Miss? then Unresolved(x) else LookupError(why.feed)
  }

  /** look is the engine's lookup for this distro. */
  ghost predicate Answers(c: Config, cat: Catalog, distro: Name, look: Look) {
    forall x {:trigger Rule(c, cat, x, distro)} :: look(x) == Rule(c, cat, x, distro)
  }

  method LookUp(e: Engine, distro: Name, x: Name, ghost look: Look) returns (f: Found)
    requires e.Valid() && distro != "" && Answers(e.config, e.initial, distro, look)
    modifies e
    ensures e.Valid() && f == look(x) && e.asked == old(e.asked) + {Call(x, distro)}
  {
    f := e.LookupOrMaterialize(x, distro);
  }

  lemma ResolvedAppend(look: Look, ds: seq<Name>, i: nat, ns: seq<Name>)
    requires i < |ds| && ResolvedTo(look, ds[..i], ns) && look(ds[i]).Hit?
    ensures ResolvedTo(look, ds[..i + 1], ns + [look(ds[i]).u.name])
  {
    assert ds[..i + 1] == ds[..i] + [ds[i]];
  }

  datatype DepsOutcome = Resolved(names: seq<Name>) | FailedAt(dep: Name, why: Found)

  /** Resolve the runtime deps of a unit in order, stopping at the first that fails. */
  method ResolveDeps(e: Engine, distro: Name, ds: seq<Name>, ghost look: Look) returns (r: DepsOutcome)
    requires e.Valid() && distro != "" && Answers(e.config, e.initial, distro, look)
    modifies e
    ensures e.Valid() && old(e.asked) <= e.asked
    ensures r.Resolved? ==> ResolvedTo(look, ds, r.names) && forall d :: d in ds ==> Call(d, distro) in e.asked
    ensures r.FailedAt? ==> r.dep in ds && look(r.dep) == r.why && !r.why.Hit?
  {
    var ns: seq<Name> := [];
    for i := 0 to |ds|
      invariant e.Valid() && ResolvedTo(look, ds[..i], ns)
      invariant old(e.asked) <= e.asked && forall k :: 0 <= k < i ==> Call(ds[k], distro) in e.asked
    {
      var f := LookUp(e, distro, ds[i], look);
      if !f.Hit? {
        return FailedAt(ds[i], f);
      }
      ResolvedAppend(look, ds, i, ns);
      ns := ns + [f.u.name];
    }
    assert ds[..|ds|] == ds;
    r := Resolved(ns);
  }

  method Closure(e: Engine, roots: seq<Name>, distro: Name)
                 returns (res: ClosureResult, ghost deps: map<Name, seq<Name>>)
    requires e.Valid() && distro != "" && AliasesFinal(e.config, distro)
    modifies e
    ensures e.Valid()
    ensures res.Units? <==> forall x :: Needed(EngineLook(e.config, e.initial, distro), distro, roots, x)
                                        ==> EngineLook(e.config, e.initial, distro)(x).Hit?
    ensures res.Units? ==> IsClosure(EngineLook(e.config, e.initial, distro), distro, roots, deps)
                           && res.order == Waves.Ordering(TopoOrder.Counted(deps))
    ensures res.Units? ==> NoDup(res.order) && Elems(res.order) == deps.Keys
                           && ClosedSet(EngineLook(e.config, e.initial, distro), distro, roots, Elems(res.order))
    ensures res.Units? ==> forall listed ::
              ClosedSet(EngineLook(e.config, e.initial, distro), distro, roots, listed) ==> Elems(res.order) <= listed
    ensures res.Units? ==> forall k :: k in deps ==> OwnAndVisible(EngineLook(e.config, e.initial, distro), distro, k)
    ensures res.Units? ==> forall x :: Needed(EngineLook(e.config, e.initial, distro), distro, roots, x) ==>
            Call(x, distro) in e.asked
    ensures !res.Units? ==> Failure(EngineLook(e.config, e.initial, distro), distro, roots, res)
  {
    ghost var look := EngineLook(e.config, e.initial, distro);
    ghost var names := e.initial.flat.Keys + FeedNames(e.config.feeds);
    EngineLookStable(e.config, e.initial, distro);
    WalkStarts(look, distro, roots);
    var table: map<Name, seq<Name>> := map[];
    var queue := roots;
    deps := map[];
    while queue != []
      invariant e.Valid() && Walking(look, distro, roots, table, Elems(queue)) && table.Keys <= names
      invariant AllAsked(look, distro, roots, table.Keys, Elems(queue), e.asked)
      decreases |names - table.Keys|, |queue|
    {
      res, table, queue := WalkOne(e, roots, distro, table, queue, names, look);
      if !res.Units? {
        return;
      }
    }
    assert Elems(queue) == {};
    WalkEnds(look, distro, roots, table);
    ClosureVisible(e.config, e.initial, distro, roots, table);
    NeededAsked(look, distro, roots, table, e.asked);
    deps := table;
    ClosureIsLeast(look, distro, roots, table);
    Waves.OrderingIsPermutation(TopoOrder.Counted(table));
    TopoOrder.CountedClosed(table);
    var order := TopoOrder.TopoOrder(table);
    res := Units(order);
  }

  /** Every hit is one of finitely many names. */
  ghost predicate HitsIn(look: Look, names: set<Name>) {
    forall x {:trigger look(x)} :: look(x).Hit? ==> look(x).u.name in names
  }

  /** Looking up a unit's name and then its deps: the unit and its resolved deps, or what failed. */
  datatype Step = Skip | Record(name: Name, deps: seq<Name>) | Stop(why: ClosureResult)

  ghost predicate StepAt(look: Look, distro: Name, roots: seq<Name>, keys: set<Name>, q: Name, s: Step) {
    match s
    case Skip => Covered(look, keys, q)
    case Record(n, ns) =>
      look(q).Hit? && look(q).u.name == n && n !in keys && ResolvedTo(look, RuntimeDepsForDistro(look(q).u, distro), ns)
    case Stop(why) => !why.Units? && Failure(look, distro, roots, why)
  }

  method TakeStep(e: Engine, roots: seq<Name>, distro: Name, keys: set<Name>, q: Name, ghost look: Look)
                  returns (s: Step)
    requires e.Valid() && distro != "" && Answers(e.config, e.initial, distro, look) && Stands(look, distro, roots, q)
    modifies e
    ensures e.Valid() && StepAt(look, distro, roots, keys, q, s)
    ensures old(e.asked) <= e.asked && Call(q, distro) in e.asked
    ensures s.Record? ==> forall d :: d in DepsOf(look, distro, q) ==> Call(d, distro) in e.asked
  {
    var f := LookUp(e, distro, q, look);
    if !f.Hit? {
      return Stop(Report(q, f));
    }
    if f.u.name in keys {
      return Skip;
    }
    var r := ResolveDeps(e, distro, RuntimeDepsForDistro(f.u, distro), look);
    if r.FailedAt? {
      FailedDepNeeded(look, distro, roots, q, r.dep);
      return Stop(Report(r.dep, r.why));
    }
    s := Record(f.u.name, r.names);
  }

  /** One turn of the walk: take a name, and record its unit unless it is recorded already. */
  method WalkOne(e: Engine, roots: seq<Name>, distro: Name, table0: map<Name, seq<Name>>, queue0: seq<Name>,
                 ghost names: set<Name>, ghost look: Look)
    returns (res: ClosureResult, table: map<Name, seq<Name>>, queue: seq<Name>)
    requires e.Valid() && distro != "" && Answers(e.config, e.initial, distro, look)
    requires queue0 != [] && table0.Keys <= names && Stable(look) && HitsIn(look, names)
    requires Walking(look, distro, roots, table0, Elems(queue0))
    requires AllAsked(look, distro, roots, table0.Keys, Elems(queue0), e.asked)
    modifies e
    ensures e.Valid()
    ensures res.Units? ==> AllAsked(look, distro, roots, table.Keys, Elems(queue), e.asked)
    ensures !res.Units? ==> Failure(look, distro, roots, res)
    ensures res.Units? ==> Walking(look, distro, roots, table, Elems(queue)) && table.Keys <= names
    ensures res.Units? ==> |names - table.Keys| < |names - table0.Keys| || (table == table0 && |queue| < |queue0|)
  {
    assert queue0[0] in Elems(queue0);
    var s := TakeStep(e, roots, distro, table0.Keys, queue0[0], look);
    table, queue := TableAfter(s, table0), QueueAfter(s, queue0);
    if s.Stop? {
      return s.why, table, queue;
    }
    res := Units([]);
    StepWalks(look, distro, roots, table0, queue0, s);
    StepShrinks(table0, queue0, s, names);
    StepAsked(look, distro, roots, table0, queue0, s, old(e.asked), e.asked);
  }

  function TableAfter(s: Step, table: map<Name, seq<Name>>): map<Name, seq<Name>> {
    if s.Record? then table[s.name := s.deps] else table
  }

  function QueueAfter(s: Step, queue: seq<Name>): seq<Name>
    requires queue != []
  {
    if s.Record? then queue[1..] + s.deps else queue[1..]
  }

  lemma StepAsked(look: Look, distro: Name, roots: seq<Name>, table: map<Name, seq<Name>>, queue: seq<Name>, s: Step,
                  before: set<Call>, asked: set<Call>)
    requires Stable(look) && queue != [] && StepAt(look, distro, roots, table.Keys, queue[0], s)
    requires AllAsked(look, distro, roots, table.Keys, Elems(queue), before) && before <= asked
             && Call(queue[0], distro) in asked
    requires s.Record? ==> forall d :: d in DepsOf(look, distro, queue[0]) ==> Call(d, distro) in asked
    ensures !s.Stop? ==> AllAsked(look, distro, roots, TableAfter(s, table).Keys, Elems(QueueAfter(s, queue)), asked)
  {
    match s
    case Stop(_) =>
    case Skip =>
      var n := look(queue[0]).u.name;
      AskedTurn(look, distro, roots, table.Keys, n, queue, [], before, asked);
      assert table.Keys + {n} == table.Keys && queue[1..] + [] == queue[1..];
    case Record(n, ns) =>
      assert look(n) == look(queue[0]);
      AskedTurn(look, distro, roots, table.Keys, n, queue, ns, before, asked);
      assert table[n := ns].Keys == table.Keys + {n};
  }

  /** Acting on a step keeps the walk right, and it cannot go on for ever. */
  lemma StepWalks(look: Look, distro: Name, roots: seq<Name>, table: map<Name, seq<Name>>, queue: seq<Name>, s: Step)
    requires Stable(look) && queue != [] && Walking(look, distro, roots, table, Elems(queue))
    requires StepAt(look, distro, roots, table.Keys, queue[0], s) && !s.Stop?
    ensures Walking(look, distro, roots, TableAfter(s, table), Elems(QueueAfter(s, queue)))
  {
    if s.Skip? {
      SkipTurn(look, distro, roots, table, queue);
    } else {
      RecordTurn(look, distro, roots, table, queue, s.deps);
    }
  }

  lemma StepShrinks(table: map<Name, seq<Name>>, queue: seq<Name>, s: Step, names: set<Name>)
    requires table.Keys <= names && queue != [] && (s.Record? ==> s.name in names && s.name !in table)
    ensures TableAfter(s, table).Keys <= names
    ensures || |names - TableAfter(s, table).Keys| < |names - table.Keys|
            || (TableAfter(s, table) == table && |QueueAfter(s, queue)| < |queue|)
  {
    if s.Record? {
      Recorded(names, table.Keys, s.name);
      assert TableAfter(s, table).Keys == table.Keys + {s.name};
    }
  }

  lemma SkipTurn(look: Look, distro: Name, roots: seq<Name>, deps: map<Name, seq<Name>>, queue: seq<Name>)
    requires Stable(look) && queue != [] && Walking(look, distro, roots, deps, Elems(queue))
             && Covered(look, deps.Keys, queue[0])
    ensures Walking(look, distro, roots, deps, Elems(queue[1..]))
  {
    assert Elems(queue) + Elems([]) == Elems(queue) && queue[1..] + [] == queue[1..];
    HeadPopped(look, distro, roots, deps, queue, []);
  }

  lemma RecordTurn(look: Look, distro: Name, roots: seq<Name>, deps: map<Name, seq<Name>>, queue: seq<Name>,
                   ns: seq<Name>)
    requires Stable(look) && queue != [] && Walking(look, distro, roots, deps, Elems(queue))
    requires look(queue[0]).Hit? && look(queue[0]).u.name !in deps
    requires ResolvedTo(look, RuntimeDepsForDistro(look(queue[0]).u, distro), ns)
    ensures Walking(look, distro, roots, deps[look(queue[0]).u.name := ns], Elems(queue[1..] + ns))
  {
    assert queue[0] in Elems(queue);
    WalkRecords(look, distro, roots, deps, Elems(queue), queue[0], ns);
    HeadPopped(look, distro, roots, deps[look(queue[0]).u.name := ns], queue, ns);
  }

  lemma Recorded(names: set<Name>, keys: set<Name>, k: Name)
    requires k in names && k !in keys
    ensures |names - (keys + {k})| < |names - keys|
  {
    assert names - (keys + {k}) == (names - keys) - {k};
  }
}
