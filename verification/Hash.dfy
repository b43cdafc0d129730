/**
 Content keys (internal/resolve/hash.go): the digest of a unit's records, and the keys
 of a whole graph. The digest is a parameter, a function of the list of records.
 */
module Hash {
  import opened Names
  import opened Graph
  import opened Dag
  import opened Merkle
  import opened KeyRecords
  import opened HashInputs
  import Waves

  // ---------------------------------------------------------------------
  // UnitHash
  // ---------------------------------------------------------------------

  lemma OfStepsAppend(ss: seq<Command>, i: nat)
    requires i < |ss|
    ensures OfSteps(ss[..i + 1]) == OfSteps(ss[..i]) + OfStep(ss[i])
  {
    assert ss[..i + 1][..i] == ss[..i];
  }

  lemma OfTasksAppend(ts: seq<Task>, i: nat)
    requires i < |ts|
    ensures OfTasks(ts[..i + 1]) == OfTasks(ts[..i]) + OfTask(ts[i])
  {
    assert ts[..i + 1][..i] == ts[..i];
  }

  lemma OfDepsAppend(ds: seq<Name>, i: nat, keys: map<Name, Key>)
    requires i < |ds|
    ensures OfDeps(ds[..i + 1], keys) == OfDeps(ds[..i], keys)
            + (if ds[i] in keys then [Dep(ds[i], keys[ds[i]])] else [])
  {
    assert ds[..i + 1][..i] == ds[..i];
  }

  method WriteSteps(h: seq<Record>, ss: seq<Command>) returns (w: seq<Record>)
    ensures w == h + OfSteps(ss)
  {
    w := h;
    for k := 0 to |ss|
      invariant w == h + OfSteps(ss[..k])
    {
      OfStepsAppend(ss, k);
      Assoc(h, OfSteps(ss[..k]), OfStep(ss[k]));
      w := w + OfStep(ss[k]);
    }
    assert ss[..|ss|] == ss;
  }

  method WriteTasks(h: seq<Record>, ts: seq<Task>) returns (w: seq<Record>)
    ensures w == h + OfTasks(ts)
  {
    w := h;
    for i := 0 to |ts|
      invariant w == h + OfTasks(ts[..i])
    {
      OfTasksAppend(ts, i);
      Assoc(w, TaskHead(ts[i]), OfSteps(ts[i].steps));
      Assoc(h, OfTasks(ts[..i]), OfTask(ts[i]));
      w := WriteSteps(w + TaskHead(ts[i]), ts[i].steps);
    }
    assert ts[..|ts|] == ts;
  }

  method WriteDeps(h: seq<Record>, ds: seq<Name>, keys: map<Name, Key>) returns (w: seq<Record>)
    ensures w == h + OfDeps(ds, keys)
  {
    w := h;
    assert h + [] == h;
    for i := 0 to |ds|
      invariant w == h + OfDeps(ds[..i], keys)
    {
      OfDepsAppend(ds, i, keys);
      if ds[i] in keys {
        w := w + [Dep(ds[i], keys[ds[i]])];
      }
    }
    assert ds[..|ds|] == ds;
  }

  method WriteMetadata(h: seq<Record>, u: Unit) returns (w: seq<Record>)
    ensures w == h + Metadata(u)
  {
    var ks := SortedKeys(u.environment.Keys);
    ListsUnique(ks, Waves.Listing(u.environment.Keys), u.environment.Keys);
    var env := JoinWith(Assignments(ks, u.environment), ",");
    w := h + (Setup(u, env) + When(u.extra != "", Line("extra", [u.extra])) + OfFiles(u.files));
  }

  /** With an injective digest another unit gets the same key exactly when it has the same inputs. */
  method UnitHash(digest: Digest, u: Unit, arch: string, keys: map<Name, Key>, srcInputs: string, distro: Name)
                  returns (key: Key)
    ensures key == digest(Records(u, arch, keys, srcInputs, distro))
    ensures Injective(digest) && PlainUnit(u) ==>
              forall y: Input {:trigger RecordsOf(y)} :: PlainUnit(y.u) ==>
                (digest(RecordsOf(y)) == key <==> SameInputs(Input(u, arch, keys, srcInputs, distro), y))
  {
    var h := Identity(u, arch) + Context(srcInputs, distro);
    h := WriteTasks(h, u.tasks);
    h := h + Build(u) + PerDistro(u, distro);
    h := WriteMetadata(h, u);
    h := WriteDeps(h, SortStrings(DepsForDistro(u, distro)), keys);
    h := h + ImageFields(u);
    key := digest(h);
    if Injective(digest) && PlainUnit(u) { KeyTells(digest, Input(u, arch, keys, srcInputs, distro)); }
  }

  lemma KeyTells(digest: Digest, x: Input)
    requires Injective(digest) && PlainUnit(x.u)
    ensures forall y: Input {:trigger RecordsOf(y)} :: PlainUnit(y.u) ==>
              (digest(RecordsOf(y)) == digest(RecordsOf(x)) <==> SameInputs(x, y))
  {
    forall y: Input | PlainUnit(y.u) ensures digest(RecordsOf(y)) == digest(RecordsOf(x)) <==> SameInputs(x, y) {
      SameRecordsIff(x, y);
      assert digest(RecordsOf(x)) == digest(RecordsOf(y)) ==> RecordsOf(x) == RecordsOf(y);
    }
  }

  // ---------------------------------------------------------------------
  // What a key depends on
  // ---------------------------------------------------------------------

  /** The records look at the keys of the declared deps only. */
  lemma RecordsFramed(u: Unit, arch: string, a: map<Name, Key>, b: map<Name, Key>, srcInputs: string, distro: Name)
    requires Agree(Elems(DepsForDistro(u, distro)), a, b)
    ensures Records(u, arch, a, srcInputs, distro) == Records(u, arch, b, srcInputs, distro)
  {
    var ds := DepsForDistro(u, distro);
    PermutationFacts(SortStrings(ds), ds);
    OfDepsSame(SortStrings(ds), a, b);
  }

  /** A unit's key ignores every unit it does not declare by that name: the provider behind a virtual dep, an image's
      artifact. */
  lemma KeyIgnoresUndeclared(u: Unit, arch: string, keys: map<Name, Key>, srcInputs: string, distro: Name, y: Name,
                             k: Key)
    requires y !in u.deps && (distro != "" && distro in u.distroDeps ==> y !in u.distroDeps[distro])
    ensures Records(u, arch, keys[y := k], srcInputs, distro) == Records(u, arch, keys, srcInputs, distro)
  {
    RecordsFramed(u, arch, keys[y := k], keys, srcInputs, distro);
  }

  predicate NoDeps(rs: seq<Record>) {
    forall i :: 0 <= i < |rs| ==> rs[i].Line?
  }

  lemma {:induction false} StepsNoDeps(ss: seq<Command>)
    ensures NoDeps(OfSteps(ss))
  {
    if ss == [] {
    } else {
      StepsNoDeps(ss[..|ss| - 1]);
    }
  }

  lemma {:induction false} TasksNoDeps(ts: seq<Task>)
    ensures NoDeps(OfTasks(ts))
  {
    if ts == [] {
    } else {
      TasksNoDeps(ts[..|ts| - 1]);
      StepsNoDeps(ts[|ts| - 1].steps);
    }
  }

  lemma {:induction false} FilesNoDeps(fs: seq<File>)
    ensures NoDeps(OfFiles(fs))
  {
    if fs == [] {
    } else {
      FilesNoDeps(fs[..|fs| - 1]);
    }
  }

  lemma {:induction false} PartitionsNoDeps(ps: seq<Partition>)
    ensures NoDeps(OfPartitions(ps))
  {
    if ps == [] {
    } else {
      PartitionsNoDeps(ps[..|ps| - 1]);
    }
  }

  lemma NoDepsJoin(a: seq<Record>, b: seq<Record>)
    requires NoDeps(a) && NoDeps(b)
    ensures NoDeps(a + b)
  {
  }

  lemma HeadNoDeps(u: Unit, arch: string, srcInputs: string, distro: Name)
    ensures NoDeps(Head(u, arch, srcInputs, distro))
  {
    TasksNoDeps(u.tasks);
    NoDepsJoin(Identity(u, arch), Context(srcInputs, distro));
    NoDepsJoin(Identity(u, arch) + Context(srcInputs, distro), OfTasks(u.tasks));
  }

  lemma BuildNoDeps(u: Unit, distro: Name)
    ensures NoDeps(Build(u)) && NoDeps(PerDistro(u, distro))
  {
  }

  lemma MetadataNoDeps(u: Unit)
    ensures NoDeps(Metadata(u))
  {
    FilesNoDeps(u.files);
  }

  lemma FrontNoDeps(u: Unit, arch: string, srcInputs: string, distro: Name)
    ensures NoDeps(Front(u, arch, srcInputs, distro))
  {
    HeadNoDeps(u, arch, srcInputs, distro);
    BuildNoDeps(u, distro);
    MetadataNoDeps(u);
    NoDepsJoin(Head(u, arch, srcInputs, distro), Build(u));
    NoDepsJoin(Head(u, arch, srcInputs, distro) + Build(u), PerDistro(u, distro));
    NoDepsJoin(Head(u, arch, srcInputs, distro) + Build(u) + PerDistro(u, distro), Metadata(u));
  }

  lemma {:induction false} DepRecord(ds: seq<Name>, keys: map<Name, Key>, d: Name, k: Key)
    ensures Dep(d, k) in OfDeps(ds, keys) <==> d in ds && d in keys && keys[d] == k
  {
    if ds == [] {
    } else {
      DepRecord(ds[..|ds| - 1], keys, d, k);
      assert ds == ds[..|ds| - 1] + [ds[|ds| - 1]];
    }
  }

  lemma OnlyInMiddle(a: seq<Record>, b: seq<Record>, c: seq<Record>, d: Name, k: Key)
    requires NoDeps(a) && NoDeps(c)
    ensures Dep(d, k) in a + b + c <==> Dep(d, k) in b
  {
  }

  lemma ImageNoDeps(u: Unit)
    ensures NoDeps(ImageFields(u))
  {
    PartitionsNoDeps(u.partitions);
  }

  lemma SortedDepRecord(ds: seq<Name>, keys: map<Name, Key>, d: Name, k: Key)
    ensures Dep(d, k) in OfDeps(SortStrings(ds), keys) <==> d in ds && d in keys && keys[d] == k
  {
    DepRecord(SortStrings(ds), keys, d, k);
    PermutationFacts(SortStrings(ds), ds);
    assert d in SortStrings(ds) <==> d in Elems(SortStrings(ds));
    assert d in ds <==> d in Elems(ds);
  }

  /** A unit's own deps and those it adds for the distro, where they have a key, and no others. */
  lemma DepInRecords(u: Unit, arch: string, keys: map<Name, Key>, srcInputs: string, distro: Name, d: Name, k: Key)
    ensures Dep(d, k) in Records(u, arch, keys, srcInputs, distro) <==>
            (d in u.deps || (distro != "" && distro in u.distroDeps && d in u.distroDeps[distro]))
            && d in keys && keys[d] == k
  {
    var ds := DepsForDistro(u, distro);
    FrontNoDeps(u, arch, srcInputs, distro);
    ImageNoDeps(u);
    OnlyInMiddle(Front(u, arch, srcInputs, distro), OfDeps(SortStrings(ds), keys), ImageFields(u), d, k);
    SortedDepRecord(ds, keys, d, k);
  }

  // ---------------------------------------------------------------------
  // All keys of a graph
  // ---------------------------------------------------------------------

  datatype Settings = Settings(digest: Digest, arch: string, machine: string, srcInputs: Unit -> string, distro: Name)

  /** Machine-scoped units are keyed per machine. */
  function ArchFor(s: Settings, u: Unit): string {
    if u.scope == "machine" then s.arch + ":" + s.machine else s.arch
  }

  ghost function RecordsIn(s: Settings, u: Unit, keys: map<Name, Key>): seq<Record> {
    Records(u, ArchFor(s, u), keys, s.srcInputs(u), s.distro)
  }

  function DeclaredIn(units: map<Name, Unit>, distro: Name): Declared {
    map n | n in units :: Elems(DepsForDistro(units[n], distro))
  }

  /** listing gives each unit's records. */
  ghost predicate Lists(s: Settings, units: map<Name, Unit>, listing: Listing) {
    forall n, keys {:trigger listing(n, keys)} :: n in units ==> listing(n, keys) == RecordsIn(s, units[n], keys)
  }

  ghost function ListingOf(s: Settings, units: map<Name, Unit>): Listing {
    (n, keys) => if n in units then RecordsIn(s, units[n], keys) else []
  }

  /** Unit records meet what the Merkle construction asks for. */
  lemma ListingFits(s: Settings, units: map<Name, Unit>, listing: Listing)
    requires Lists(s, units, listing)
    ensures Framed(listing, DeclaredIn(units, s.distro)) && NamesDeps(listing, DeclaredIn(units, s.distro))
  {
    var declared := DeclaredIn(units, s.distro);
    forall n, a, b | n in declared && Agree(declared[n], a, b) ensures listing(n, a) == listing(n, b) {
      RecordsFramed(units[n], ArchFor(s, units[n]), a, b, s.srcInputs(units[n]), s.distro);
    }
    forall n, keys, d, k | n in declared
      ensures Dep(d, k) in listing(n, keys) <==> d in declared[n] && d in keys && keys[d] == k
    {
      DepInRecords(units[n], ArchFor(s, units[n]), keys, s.srcInputs(units[n]), s.distro, d, k);
      assert d in declared[n] <==> d in DepsForDistro(units[n], s.distro);
    }
  }

  datatype Hashes = Keys(keys: map<Name, Key>) | Cycle(names: seq<Name>)

  /** Fails exactly on a cyclic graph; otherwise keys the units along the graph's order. With an injective digest these
      are the Merkle keys exactly when that order has declared deps first. */
  method ComputeAllHashes(dag: DAG, units: map<Name, Unit>, s: Settings) returns (res: Hashes, ghost order: seq<Name>)
    requires dag.Valid() && units.Keys == dag.deps.Keys
    modifies dag`sorted, dag`result
    ensures dag.Valid() && (res.Keys? <==> Acyclic(Succ(dag.deps)))
    ensures res.Keys? ==>
            Correct(Succ(dag.deps), Ordered(order)) && res.keys == KeysAlong(s.digest, ListingOf(s, units), order)
    ensures res.Keys? && DeclaredFirst(DeclaredIn(units, s.distro), order) ==>
              IsMerkle(s.digest, ListingOf(s, units), DeclaredIn(units, s.distro), res.keys)
    ensures res.Keys? && Injective(s.digest)
            && IsMerkle(s.digest, ListingOf(s, units), DeclaredIn(units, s.distro), res.keys) ==>
              DeclaredFirst(DeclaredIn(units, s.distro), order)
  {
    order := [];
    var sorted := dag.TopologicalSort();
    SortSucceedsIffAcyclic(Succ(dag.deps), sorted);
    if sorted.CycleInvolving? {
      return Cycle(sorted.names), [];
    }
    order := sorted.order;
    ghost var listing, declared := ListingOf(s, units), DeclaredIn(units, s.distro);
    assert Lists(s, units, listing);
    var keys := HashInOrder(sorted.order, units, s, listing);
    ListingFits(s, units, listing);
    if DeclaredFirst(declared, order) { AlongIsMerkle(s.digest, listing, declared, order); }
    if Injective(s.digest) && IsMerkle(s.digest, listing, declared, keys) {
      MerkleMeansFirst(s.digest, listing, declared, order); }
    res := Keys(keys);
  }

  /** Where declared deps resolve to themselves, the graph's order has them first. */
  lemma SelfResolvingIsMerkle(r: Rel, order: seq<Name>, units: map<Name, Unit>, s: Settings)
    requires IsTopo(r, order) && SelfResolving(DeclaredIn(units, s.distro), r)
    ensures IsMerkle(s.digest, ListingOf(s, units), DeclaredIn(units, s.distro),
            KeysAlong(s.digest, ListingOf(s, units), order))
  {
    assert Lists(s, units, ListingOf(s, units));
    ListingFits(s, units, ListingOf(s, units));
    DepsKeyedFirst(DeclaredIn(units, s.distro), r, order);
    AlongIsMerkle(s.digest, ListingOf(s, units), DeclaredIn(units, s.distro), order);
  }

  lemma AbcOrder(r: Rel)
    requires r == map["a" := {}, "b" := {"a"}, "c" := {}]
    ensures Correct(r, Ordered(["a", "b", "c"]))
  {
    var o := ["a", "b", "c"];
    assert "a"[0] < "b"[0] < "c"[0];
    assert Less("a", "b") && Less("a", "c") && Less("b", "c");
    assert o[..1] == ["a"] && o[..2] == ["a", "b"];
    assert o[0] in Elems(o[..1]) && o[0] in Elems(o) && o[1] in Elems(o) && o[2] in Elems(o);
    assert NoDup(o);
    forall i | 0 <= i < |o| ensures o[i] in r && r[o[i]] <= Elems(o[..i]) {}
    forall i, m | 0 <= i < |o| && Ready(r, Elems(o[..i]), m) ensures Leq(o[i], m) {
      if i > 0 { assert o[0] in o[..i]; }
      if i > 1 { assert o[1] in o[..i]; }
    }
    forall o2 | IsTopo(r, o2) ensures LexLeq(o, o2) { GreedyIsLeast(r, o, o2); }
  }

  /** Three units; b declares c, a offers c's name. */
  function Abc(base: Unit): map<Name, Unit> {
    var plain := base.(deps := [], distroDeps := map[]);
    map["a" := plain.(name := "a", offers := ["c"]), "b" := plain.(name := "b", deps := ["c"]),
      "c" := plain.(name := "c")]
  }

  lemma AbcUnits(base: Unit, distro: Name)
    ensures Abc(base).Keys == {"a", "b", "c"} && DepsForDistro(Abc(base)["b"], distro) == ["c"]
  {
    assert "a"[0] < "b"[0] < "c"[0];
  }

  lemma AbcList()
    ensures NoDup(["a", "b", "c"]) && Elems(["a", "b", "c"]) == {"a", "b", "c"} && "c" !in ["a", "b", "c"][..1]
  {
    var o := ["a", "b", "c"];
    assert "a"[0] < "b"[0] < "c"[0];
    assert o[0] in Elems(o) && o[1] in Elems(o) && o[2] in Elems(o) && o[..1] == ["a"];
  }

  /** Where c is an untagged unit and a a tagged one, the graph has b wait for a instead of c; c may come last, and then
      b's key says nothing of it. */
  lemma RerouteBreaksMerkle(s: Settings, base: Unit, r: Rel, order: seq<Name>)
    requires Injective(s.digest) && r == map["a" := {}, "b" := {"a"}, "c" := {}] && order == ["a", "b", "c"]
    ensures Correct(r, Ordered(order)) && r.Keys == Abc(base).Keys && DepsForDistro(Abc(base)["b"], s.distro) == ["c"]
    ensures var listing := ListingOf(s, Abc(base));
            !IsMerkle(s.digest, listing, DeclaredIn(Abc(base), s.distro), KeysAlong(s.digest, listing, order))
  {
    AbcOrder(r);
    AbcUnits(base, s.distro);
    AbcList();
    LateDeclared(s, Abc(base), order, 1, "c");
  }

  /** A declared dep that is a unit and is hashed later. */
  lemma LateDeclared(s: Settings, units: map<Name, Unit>, order: seq<Name>, i: nat, d: Name)
    requires Injective(s.digest) && NoDup(order) && Elems(order) == units.Keys
    requires i < |order| && order[i] in units && d in DepsForDistro(units[order[i]], s.distro) && d in units
             && d !in order[..i]
    ensures var listing := ListingOf(s, units);
            !IsMerkle(s.digest, listing, DeclaredIn(units, s.distro), KeysAlong(s.digest, listing, order))
  {
    assert Lists(s, units, ListingOf(s, units));
    ListingFits(s, units, ListingOf(s, units));
    LateDepBreaks(s.digest, ListingOf(s, units), DeclaredIn(units, s.distro), order, i, d);
  }

  method KeyOf(s: Settings, units: map<Name, Unit>, n: Name, keys: map<Name, Key>, ghost listing: Listing)
               returns (key: Key)
    requires n in units && Lists(s, units, listing)
    ensures key == s.digest(listing(n, keys))
  {
    var u := units[n];
    key := UnitHash(s.digest, u, ArchFor(s, u), keys, s.srcInputs(u), s.distro);
    assert listing(n, keys) == RecordsIn(s, u, keys);
  }

  method HashInOrder(order: seq<Name>, units: map<Name, Unit>, s: Settings, ghost listing: Listing)
                     returns (keys: map<Name, Key>)
    requires Elems(order) <= units.Keys && Lists(s, units, listing)
    ensures keys == KeysAlong(s.digest, listing, order)
  {
    keys := map[];
    for i := 0 to |order|
      invariant keys == KeysAlong(s.digest, listing, order[..i])
    {
      AlongStep(s.digest, listing, order, i);
      assert order[i] in Elems(order);
      var key := KeyOf(s, units, order[i], keys, listing);
      keys := keys[order[i] := key];
    }
    assert order[..|order|] == order;
  }

  // ---------------------------------------------------------------------
  // What keys tell apart
  // ---------------------------------------------------------------------

  /** u with other mirrors, another compatibility tag, and other deps for other distros. */
  ghost predicate CacheNeutral(u: Unit, v: Unit, distro: Name) {
    && v == u.(mirrors := v.mirrors, distro := v.distro, distroDeps := v.distroDeps,
          distroRuntimeDeps := v.distroRuntimeDeps)
    && (distro != "" ==> Added(u.distroDeps, distro) == Added(v.distroDeps, distro)
                         && Added(u.distroRuntimeDeps, distro) == Added(v.distroRuntimeDeps, distro))
  }

  lemma NeutralDeps(u: Unit, v: Unit, distro: Name)
    requires CacheNeutral(u, v, distro)
    ensures DepsForDistro(v, distro) == DepsForDistro(u, distro)
  {
    assert u.deps + [] == u.deps;
  }

  lemma NeutralRecords(u: Unit, v: Unit, arch: string, keys: map<Name, Key>, srcInputs: string, distro: Name)
    requires CacheNeutral(u, v, distro)
    ensures Records(v, arch, keys, srcInputs, distro) == Records(u, arch, keys, srcInputs, distro)
  {
    NeutralDeps(u, v, distro);
  }

  /** Every unit of the one project is cache neutral to its namesake in the other. */
  ghost predicate AllNeutral(s: Settings, units: map<Name, Unit>, other: map<Name, Unit>) {
    && other.Keys == units.Keys
    && forall n {:trigger units[n]} :: n in units ==>
         CacheNeutral(units[n], other[n], s.distro) && s.srcInputs(other[n]) == s.srcInputs(units[n])
  }

  lemma NeutralListing(s: Settings, units: map<Name, Unit>, other: map<Name, Unit>, l: Listing, l': Listing,
                       keys: map<Name, Key>)
    requires AllNeutral(s, units, other) && Lists(s, units, l) && Lists(s, other, l')
    ensures forall n :: n in units ==> l'(n, keys) == l(n, keys)
  {
    forall n | n in units ensures l'(n, keys) == l(n, keys) {
      NeutralRecords(units[n], other[n], ArchFor(s, units[n]), keys, s.srcInputs(units[n]), s.distro);
    }
  }

  /** Other mirrors, compatibility tags, or deps for other distros, on any units: along one order every key stays. */
  lemma NeutralKeys(s: Settings, units: map<Name, Unit>, l: Listing, other: map<Name, Unit>, l': Listing,
                    order: seq<Name>)
    requires AllNeutral(s, units, other) && Lists(s, units, l) && Lists(s, other, l') && Elems(order) <= units.Keys
    ensures KeysAlong(s.digest, l, order) == KeysAlong(s.digest, l', order)
  {
    forall n, keys | n in units ensures l(n, keys) == l'(n, keys) {
      NeutralListing(s, units, other, l, l', keys);
    }
    SameAlong(s.digest, l, l', units.Keys, order);
  }

  /** If a unit has the same key in two projects, it and every declared transitive dep wrote the same records in
      both. */
  lemma SameKeySameRecords(s: Settings, units: map<Name, Unit>, keys: map<Name, Key>,
                           s': Settings, units': map<Name, Unit>, keys': map<Name, Key>, p: seq<Name>)
    requires s.digest == s'.digest && Injective(s.digest)
    requires IsMerkle(s.digest, ListingOf(s, units), DeclaredIn(units, s.distro), keys)
    requires IsMerkle(s.digest, ListingOf(s', units'), DeclaredIn(units', s'.distro), keys')
    requires DepChain(DeclaredIn(units, s.distro), p) && p[0] in keys' && keys[p[0]] == keys'[p[0]]
    ensures var d := p[|p| - 1];
            d in units && d in units' && RecordsIn(s, units[d], keys) == RecordsIn(s', units'[d], keys')
  {
    var l, l' := ListingOf(s, units), ListingOf(s', units');
    assert Lists(s, units, l) && Lists(s', units', l');
    ListingFits(s, units, l);
    ListingFits(s', units', l');
    EqualKeysEqualRecords(s.digest, l, DeclaredIn(units, s.distro), keys, l', DeclaredIn(units', s'.distro), keys', p);
  }

  function InputOf(s: Settings, u: Unit, keys: map<Name, Key>): Input {
    Input(u, ArchFor(s, u), keys, s.srcInputs(u), s.distro)
  }

  lemma ArchAt(x: Input)
    ensures |RecordsOf(x)| > 5 && RecordsOf(x)[5] == Line("arch", [x.arch])
  {
    var n := Naming(x.u, x.arch);
    Laid(x);
    assert |n| == 10 && n[5] == Line("arch", [x.arch]);
    assert Identity(x.u, x.arch)[5] == n[5];
  }

  lemma Suffixed(arch: string, a: string, b: string)
    requires arch + ":" + a == arch + ":" + b
    ensures a == b
  {
    assert (arch + ":" + a)[|arch| + 1..] == a && (arch + ":" + b)[|arch| + 1..] == b;
  }

  /** A machine-scoped unit is keyed per machine, any other for all of them. */
  lemma MachineTells(s: Settings, machine: string, u: Unit, keys: map<Name, Key>)
    ensures Line("arch", [if u.scope == "machine" then s.arch + ":" + s.machine else s.arch]) in RecordsIn(s, u, keys)
    ensures RecordsIn(s, u, keys) == RecordsIn(s.(machine := machine), u, keys)
       <==> u.scope != "machine" || machine == s.machine
  {
    var x, y := InputOf(s, u, keys), InputOf(s.(machine := machine), u, keys);
    ArchAt(x);
    ArchAt(y);
    if RecordsOf(x) == RecordsOf(y) {
      assert [x.arch][0] == [y.arch][0];
      if u.scope == "machine" { Suffixed(s.arch, s.machine, machine); }
    }
  }

  /** If a unit has the same key in two projects, then it and every declared transitive dep have the same inputs in
      both: no edit of a field that counts leaves a key, or the key of anything built on it, as it was. */
  lemma SameKeySameInputs(s: Settings, units: map<Name, Unit>, keys: map<Name, Key>,
                          s': Settings, units': map<Name, Unit>, keys': map<Name, Key>, p: seq<Name>)
    requires s.digest == s'.digest && Injective(s.digest)
    requires (forall n :: n in units ==> PlainUnit(units[n])) && forall n :: n in units' ==> PlainUnit(units'[n])
    requires IsMerkle(s.digest, ListingOf(s, units), DeclaredIn(units, s.distro), keys)
    requires IsMerkle(s.digest, ListingOf(s', units'), DeclaredIn(units', s'.distro), keys')
    requires DepChain(DeclaredIn(units, s.distro), p) && p[0] in keys' && keys[p[0]] == keys'[p[0]]
    ensures var d := p[|p| - 1];
            d in units && d in units' && SameInputs(InputOf(s, units[d], keys), InputOf(s', units'[d], keys'))
  {
    SameKeySameRecords(s, units, keys, s', units', keys', p);
    var d := p[|p| - 1];
    RecordsTell(InputOf(s, units[d], keys), InputOf(s', units'[d], keys'));
  }
}
