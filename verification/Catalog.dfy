/**
 Units and the two catalogs the engine keeps of them: the flat one, by name, and
 the per-module one (internal/starlark/engine.go, internal/starlark/types.go).
 */
module Catalogs {
  import opened Names

  datatype Unit = Unit(
    name: Name,
    distro: Name,
    moduleName: Name,
    moduleIndex: int,
    definedIn: Name,
    runtimeDeps: seq<Name>,
    distroRuntimeDeps: map<Name, seq<Name>>,
    offers: seq<Name>)

  /** The runtime deps of u for a consumer in the given distro: the common ones, then its own. */
  function RuntimeDepsForDistro(u: Unit, distro: Name): seq<Name> {
    if distro == "" || distro !in u.distroRuntimeDeps then u.runtimeDeps
    else u.runtimeDeps + u.distroRuntimeDeps[distro]
  }

  /** An untagged unit is visible to every distro, a tagged one to its own; "" filters nothing. */
  predicate Visible(u: Unit, distro: Name) {
    distro == "" || u.distro == "" || u.distro == distro
  }

  type ByModule = map<Name, map<Name, Unit>>

  datatype Catalog = Catalog(flat: map<Name, Unit>, byModule: ByModule)

  predicate Has(b: ByModule, m: Name, n: Name) {
    m in b && n in b[m]
  }

  function Store(b: ByModule, u: Unit): ByModule {
    var inner := if u.moduleName in b then b[u.moduleName] else map[];
    b[u.moduleName := inner[u.name := u]]
  }

  lemma StoreHas(b: ByModule, u: Unit, m: Name, n: Name)
    ensures Has(Store(b, u), m, n) <==> (m == u.moduleName && n == u.name) || Has(b, m, n)
    ensures Has(Store(b, u), m, n) ==>
              Store(b, u)[m][n] == if m == u.moduleName && n == u.name then u else b[m][n]
  {
  }

  /** u is in its place in the per-module catalog. */
  predicate Filed(b: ByModule, u: Unit) {
    Has(b, u.moduleName, u.name) && b[u.moduleName][u.name] == u
  }

  /** u is filed under its module and name, and every other slot is as it was. */
  ghost predicate FiledOnly(b: ByModule, b': ByModule, u: Unit) {
    && u.moduleName in b' && u.name in b'[u.moduleName] && b'[u.moduleName][u.name] == u
    && forall m, n {:trigger n in b'[m]} {:trigger n in b[m]} :: !(m == u.moduleName && n == u.name) ==>
         (m in b' && n in b'[m] <==> m in b && n in b[m]) && (m in b && n in b[m] ==> b'[m][n] == b[m][n])
  }

  lemma StoreFiles(b: ByModule, u: Unit)
    ensures FiledOnly(b, Store(b, u), u)
  {
  }

  datatype Found = Hit(u: Unit) | Miss | Fault(feed: Name)

  // ---------------------------------------------------------------------
  // The highest-priority visible unit of a name
  // ---------------------------------------------------------------------

  predicate Candidate(b: ByModule, n: Name, distro: Name, m: Name) {
    Has(b, m, n) && Visible(b[m][n], distro)
  }

  ghost predicate Top(b: ByModule, n: Name, distro: Name, m: Name) {
    Candidate(b, n, distro, m)
    && forall k {:trigger Candidate(b, n, distro, k)} :: Candidate(b, n, distro, k) ==>
          b[k][n].moduleIndex <= b[m][n].moduleIndex
  }

  /** Some visible unit of greatest module index, or nothing if none is visible. */
  ghost predicate IsBest(b: ByModule, n: Name, distro: Name, f: Found) {
    if f.Hit? then exists m :: Top(b, n, distro, m) && f.u == b[m][n]
    else f.Miss? && forall m :: !Candidate(b, n, distro, m)
  }

  /** The visible unit of greatest module index; which one, if several tie, is left open. */
  ghost function BestVisible(b: ByModule, n: Name, distro: Name): Found {
    if exists m :: Top(b, n, distro, m) then
      var m :| Top(b, n, distro, m); Hit(b[m][n])
    else Miss
  }

  /** Whichever module of greatest index is picked, it holds the same unit. */
  ghost predicate Unambiguous(b: ByModule, n: Name, distro: Name) {
    forall m, k :: Top(b, n, distro, m) && Top(b, n, distro, k) ==> b[m][n] == b[k][n]
  }

  /** Modules have distinct indices, so two of them never tie on a name. */
  ghost predicate DistinctPriorities(b: ByModule) {
    forall m, k, n :: Has(b, m, n) && Has(b, k, n) && m != k ==> b[m][n].moduleIndex != b[k][n].moduleIndex
  }

  lemma DistinctIsUnambiguous(b: ByModule, n: Name, distro: Name)
    requires DistinctPriorities(b)
    ensures Unambiguous(b, n, distro)
  {
    forall m, k | Top(b, n, distro, m) && Top(b, n, distro, k) ensures b[m][n] == b[k][n] {
      assert Candidate(b, n, distro, m) && Candidate(b, n, distro, k);
    }
  }

  lemma BestIs(b: ByModule, n: Name, distro: Name, m: Name)
    requires Unambiguous(b, n, distro) && Top(b, n, distro, m)
    ensures BestVisible(b, n, distro) == Hit(b[m][n])
  {
  }

  lemma NoBest(b: ByModule, n: Name, distro: Name)
    requires forall m :: !Candidate(b, n, distro, m)
    ensures BestVisible(b, n, distro) == Miss
  {
  }

  /** Among some modules one has the greatest index. */
  lemma {:induction false} TopExists(b: ByModule, n: Name, distro: Name, ms: set<Name>) returns (m: Name)
    requires ms != {} && forall k :: k in ms ==> Candidate(b, n, distro, k)
    ensures m in ms && Candidate(b, n, distro, m)
    ensures forall k :: k in ms ==> Candidate(b, n, distro, k) && b[k][n].moduleIndex <= b[m][n].moduleIndex
  {
    var x :| x in ms;
    if ms == {x} {
      m := x;
    } else {
      assert ms == (ms - {x}) + {x};
      m := TopExists(b, n, distro, ms - {x});
      if b[m][n].moduleIndex < b[x][n].moduleIndex { m := x; }
    }
  }

  lemma BestExists(b: ByModule, n: Name, distro: Name, k: Name)
    requires Candidate(b, n, distro, k)
    ensures exists m :: Top(b, n, distro, m)
  {
    var ms := set m | m in b && Candidate(b, n, distro, m);
    assert k in ms;
    var m := TopExists(b, n, distro, ms);
    assert Top(b, n, distro, m);
  }

  lemma BestIsBest(b: ByModule, n: Name, distro: Name)
    ensures IsBest(b, n, distro, BestVisible(b, n, distro))
  {
    if m :| Candidate(b, n, distro, m) { BestExists(b, n, distro, m); }
  }

  lemma OneBest(b: ByModule, n: Name, distro: Name, f: Found)
    requires Unambiguous(b, n, distro)
    ensures IsBest(b, n, distro, f) <==> f == BestVisible(b, n, distro)
  {
    BestIsBest(b, n, distro);
    if IsBest(b, n, distro, f) {
      if f.Hit? {
        var m :| Top(b, n, distro, m) && f.u == b[m][n];
        BestIs(b, n, distro, m);
      } else {
        NoBest(b, n, distro);
      }
    }
  }

  /** Module m has a unit of that name, and it is untagged or tagged for the distro; any distro will do if none is
      given. */
  predicate Sees(b: ByModule, m: Name, n: Name, distro: Name) {
    m in b && n in b[m] && (distro == "" || b[m][n].distro == "" || b[m][n].distro == distro)
  }

  /** No module has such a unit, or f is one of greatest module index. */
  ghost predicate BestSeen(b: ByModule, n: Name, distro: Name, f: Found) {
    if f.Hit? then
      && (exists m :: Sees(b, m, n, distro) && f.u == b[m][n])
      && forall m :: Sees(b, m, n, distro) ==> b[m][n].moduleIndex <= f.u.moduleIndex
    else f.Miss? && forall m :: !Sees(b, m, n, distro)
  }

  lemma BestMeans(b: ByModule, n: Name, distro: Name, f: Found)
    ensures IsBest(b, n, distro, f) <==> BestSeen(b, n, distro, f)
  {
    forall m ensures Candidate(b, n, distro, m) <==> Sees(b, m, n, distro) {}
    if IsBest(b, n, distro, f) && f.Hit? {
      var m :| Top(b, n, distro, m) && f.u == b[m][n];
      assert Sees(b, m, n, distro);
    }
    if BestSeen(b, n, distro, f) && f.Hit? {
      var m :| Sees(b, m, n, distro) && f.u == b[m][n];
      assert Candidate(b, n, distro, m) && Top(b, n, distro, m);
    }
  }

  /** findVisibleByName and the default branch of resolveForDistro: scan every module, in any order, keep the best so
      far. */
  method FindVisible(b: ByModule, n: Name, distro: Name) returns (best: Found)
    ensures IsBest(b, n, distro, best) && BestSeen(b, n, distro, best)
    ensures Unambiguous(b, n, distro) ==> best == BestVisible(b, n, distro)
  {
    var left := b.Keys;
    ghost var at: Name := "";
    best := Miss;
    while left != {}
      invariant left <= b.Keys && !best.Fault?
      invariant best.Miss? ==> forall k {:trigger Candidate(b, n, distro, k)} :: k in b.Keys - left ==>
              !Candidate(b, n, distro, k)
      invariant !best.Miss? ==> Candidate(b, n, distro, at) && best == Hit(b[at][n])
      invariant !best.Miss? ==> forall k {:trigger Candidate(b, n, distro, k)} ::
                  k in b.Keys - left && Candidate(b, n, distro, k) ==> b[k][n].moduleIndex <= b[at][n].moduleIndex
      decreases left
    {
      var m :| m in left;
      if n in b[m] && Visible(b[m][n], distro) {
        assert Candidate(b, n, distro, m);
        if best.Miss? || b[m][n].moduleIndex > best.u.moduleIndex {
          best, at := Hit(b[m][n]), m;
        }
      }
      left := left - {m};
    }
    if best.Miss? {
      assert forall m :: !Candidate(b, n, distro, m);
    } else {
      assert Top(b, n, distro, at);
    }
    BestMeans(b, n, distro, best);
    if Unambiguous(b, n, distro) { OneBest(b, n, distro, best); }
  }
}
