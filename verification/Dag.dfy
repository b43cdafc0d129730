/**
 The build graph of internal/resolve/dag.go: linking Deps with Rdeps, and the
 memoised topological sort (Kahn's algorithm over a sorted queue).
 */
module Dag {
  import opened Names
  import opened Graph

  type Adjacency = map<Name, seq<Name>>

  /** The graph an adjacency table denotes. */
  function Succ(deps: Adjacency): Rel {
    map n | n in deps :: Elems(deps[n])
  }

  /** rdeps lists each edge of deps the other way round, with the same multiplicity, sorted. */
  ghost predicate Linked(deps: Adjacency, rdeps: Adjacency) {
    && rdeps.Keys == deps.Keys
    && Closed(Succ(deps))
    && (forall x, n :: x in deps && n in deps ==> multiset(rdeps[x])[n] == multiset(deps[n])[x])
    && (forall x :: x in rdeps ==> Sorted(rdeps[x]) && Elems(rdeps[x]) <= deps.Keys)
  }

  lemma LinkedEdge(deps: Adjacency, rdeps: Adjacency, x: Name, n: Name)
    requires Linked(deps, rdeps) && x in deps && n in deps
    ensures n in rdeps[x] <==> x in deps[n]
  {
    assert n in rdeps[x] <==> multiset(rdeps[x])[n] > 0;
    assert x in deps[n] <==> multiset(deps[n])[x] > 0;
  }

  lemma LinkedReverse(deps: Adjacency, rdeps: Adjacency)
    requires Linked(deps, rdeps)
    ensures Succ(rdeps) == Reverse(Succ(deps))
  {
    forall x | x in deps ensures Succ(rdeps)[x] == Reverse(Succ(deps))[x] {
      forall n ensures n in Succ(rdeps)[x] <==> n in Reverse(Succ(deps))[x] {
        if n in deps { LinkedEdge(deps, rdeps, x, n); }
      }
    }
  }

  // ---------------------------------------------------------------------
  // Specification of the sort
  // ---------------------------------------------------------------------

  datatype SortResult =
    | Ordered(order: seq<Name>)
    | CycleInvolving(names: seq<Name>)

  /** o comes before o2 in dictionary order, or equals it. */
  predicate LexLeq(o: seq<Name>, o2: seq<Name>) {
    o == [] || (o2 != [] && (Less(o[0], o2[0]) || (o[0] == o2[0] && LexLeq(o[1..], o2[1..]))))
  }

  ghost function CycleReachers(r: Rel): set<Name> {
    set n | n in r && ReachesCycle(r, n)
  }

  /** What TopologicalSort promises about its answer. */
  ghost predicate Correct(r: Rel, res: SortResult) {
    match res
    case Ordered(o) =>
      IsTopo(r, o) && forall o2 :: IsTopo(r, o2) ==> LexLeq(o, o2)
    case CycleInvolving(ns) =>
      ns != [] && Lists(ns, CycleReachers(r))
  }

  /** The sort succeeds exactly on acyclic graphs. */
  lemma SortSucceedsIffAcyclic(r: Rel, res: SortResult)
    requires Correct(r, res)
    ensures res.Ordered? <==> Acyclic(r)
  {
    match res
    case Ordered(o) => TopoMeansAcyclic(r, o);
    case CycleInvolving(ns) =>
      assert ns[0] in Elems(ns);
      ReachesCycleMeans(r, ns[0]);
      var c :| OnCycle(r, c) && (c == ns[0] || Reaches(r, ns[0], c));
      assert c in r;
  }

  /** The answer is determined by the graph: memoising it, or asking again, cannot change it. */
  lemma SortUnique(r: Rel, a: SortResult, b: SortResult)
    requires Correct(r, a) && Correct(r, b)
    ensures a == b
  {
    SortSucceedsIffAcyclic(r, a);
    SortSucceedsIffAcyclic(r, b);
    if a.Ordered? {
      assert LexLeq(a.order, b.order) && LexLeq(b.order, a.order);
      LexLeqAntisymmetric(a.order, b.order);
    } else {
      ListsUnique(a.names, b.names, CycleReachers(r));
    }
  }

  lemma {:induction false} LexLeqAntisymmetric(a: seq<Name>, b: seq<Name>)
    requires LexLeq(a, b) && LexLeq(b, a)
    ensures a == b
  {
    if a == [] {
    } else {
      LeqAntisymmetric(a[0], b[0]);
      LessIrreflexive(a[0]);
      LexLeqAntisymmetric(a[1..], b[1..]);
      assert a == [a[0]] + a[1..] && b == [b[0]] + b[1..];
    }
  }

  lemma {:induction false} LexFromDifference(a: seq<Name>, b: seq<Name>, k: nat)
    requires k < |a| && k < |b| && a[..k] == b[..k] && Less(a[k], b[k])
    ensures LexLeq(a, b)
  {
    if k == 0 {
    } else {
      assert a[0] == a[..k][0] == b[..k][0];
      assert a[1..][..k - 1] == a[..k][1..] == b[..k][1..] == b[1..][..k - 1];
      LexFromDifference(a[1..], b[1..], k - 1);
    }
  }

  lemma {:induction false} LexReflexive(a: seq<Name>)
    ensures LexLeq(a, a)
  {
    if a == [] {
    } else {
      LexReflexive(a[1..]);
    }
  }

  // ---------------------------------------------------------------------
  // Greedy orders are lexicographically least
  // ---------------------------------------------------------------------

  /** Listed so far are `done`; n is next in line when only its listed successors remain. */
  predicate Ready(r: Rel, done: set<Name>, n: Name) {
    n in r && n !in done && r[n] <= done
  }

  ghost predicate Greedy(r: Rel, o: seq<Name>) {
    forall i, m :: 0 <= i < |o| && Ready(r, Elems(o[..i]), m) ==> Leq(o[i], m)
  }

  lemma GreedyIsLeast(r: Rel, o: seq<Name>, o2: seq<Name>)
    requires IsTopo(r, o) && Greedy(r, o) && IsTopo(r, o2)
    ensures LexLeq(o, o2)
  {
    NoDupSize(o);
    NoDupSize(o2);
    if o == o2 {
      LexReflexive(o);
    } else {
      var k := FirstDifference(o, o2);
      assert Ready(r, Elems(o[..k]), o2[k]);
      LexFromDifference(o, o2, k);
    }
  }

  lemma {:induction false} FirstDifference(a: seq<Name>, b: seq<Name>) returns (k: nat)
    requires |a| == |b| && a != b
    ensures k < |a| && a[..k] == b[..k] && a[k] != b[k]
  {
    if a[0] != b[0] {
      k := 0;
    } else {
      assert a == [a[0]] + a[1..] && b == [b[0]] + b[1..];
      k := FirstDifference(a[1..], b[1..]);
      assert a[..k + 1] == [a[0]] + a[1..][..k] && b[..k + 1] == [b[0]] + b[1..][..k];
      k := k + 1;
    }
  }

  // ---------------------------------------------------------------------
  // In-degrees
  // ---------------------------------------------------------------------

  /** How many listed deps are still outstanding. */
  ghost function Pending(ds: seq<Name>, done: set<Name>): nat {
    if ds == [] then 0 else (if ds[0] in done then 0 else 1) + Pending(ds[1..], done)
  }

  lemma {:induction false} PendingNone(ds: seq<Name>)
    ensures Pending(ds, {}) == |ds|
  {
    if ds == [] {
    } else {
      PendingNone(ds[1..]);
    }
  }

  lemma {:induction false} PendingZero(ds: seq<Name>, done: set<Name>)
    ensures Pending(ds, done) == 0 <==> Elems(ds) <= done
  {
    if ds == [] {
    } else {
      PendingZero(ds[1..], done);
      assert Elems(ds) == {ds[0]} + Elems(ds[1..]);
    }
  }

  lemma {:induction false} PendingStep(ds: seq<Name>, done: set<Name>, x: Name)
    requires x !in done
    ensures Pending(ds, done) == Pending(ds, done + {x}) + multiset(ds)[x]
  {
    if ds == [] {
    } else {
      PendingStep(ds[1..], done, x);
      assert ds == [ds[0]] + ds[1..];
    }
  }

  // ---------------------------------------------------------------------
  // Kahn's algorithm
  // ---------------------------------------------------------------------

  ghost predicate QueueHolds(deps: Adjacency, inDegree: map<Name, int>, queue: seq<Name>, done: set<Name>) {
    && inDegree.Keys == deps.Keys
    && Sorted(queue) && NoDup(queue)
    && (forall n :: n in queue <==> n in deps && n !in done && inDegree[n] == 0)
  }

  ghost predicate KahnInvariant(deps: Adjacency, inDegree: map<Name, int>, queue: seq<Name>, order: seq<Name>) {
    && QueueHolds(deps, inDegree, queue, Elems(order))
    && DepsFirst(Succ(deps), order) && Greedy(Succ(deps), order)
    && (forall n :: n in deps ==> inDegree[n] == Pending(deps[n], Elems(order)))
  }

  /** Taking the head of the queue keeps the list deps-first and greedy. */
  lemma TakeHead(deps: Adjacency, inDegree: map<Name, int>, queue: seq<Name>, order: seq<Name>)
    requires KahnInvariant(deps, inDegree, queue, order) && queue != []
    ensures DepsFirst(Succ(deps), order + [queue[0]]) && Greedy(Succ(deps), order + [queue[0]])
  {
    var r, x, o := Succ(deps), queue[0], order + [queue[0]];
    PendingZero(deps[x], Elems(order));
    forall i | 0 <= i < |o|
      ensures o[i] in r && r[o[i]] <= Elems(o[..i])
    {
      assert o[..i] == order[..i];
      assert order[..|order|] == order;
    }
    forall i, m | 0 <= i < |o| && Ready(r, Elems(o[..i]), m)
      ensures Leq(o[i], m)
    {
      assert o[..i] == order[..i];
      if i == |order| {
        assert order[..|order|] == order;
        PendingZero(deps[m], Elems(order));
        assert m in queue;
      }
    }
  }

  /** Nobody who waits on x is listed already when x is listed. */
  lemma WaitersUnlisted(deps: Adjacency, rdeps: Adjacency, order: seq<Name>, x: Name, n: Name)
    requires Linked(deps, rdeps) && x in deps && DepsFirst(Succ(deps), order + [x]) && n in rdeps[x]
    ensures n in deps && n !in order + [x]
  {
    var o := order + [x];
    assert n in Elems(rdeps[x]);
    LinkedEdge(deps, rdeps, x, n);
    assert o[|order|] == x && x in Succ(deps)[n];
    forall i | 0 <= i < |o| ensures o[i] != n {
      assert x !in Elems(o[..i]);
      assert x !in Succ(deps)[o[i]];
    }
  }

  /** Before x is released each waiter still counts every edge it has to x. */
  lemma BeforeRelease(deps: Adjacency, rdeps: Adjacency, order: seq<Name>, x: Name, inDegree: map<Name, int>)
    requires Linked(deps, rdeps) && x in deps && DepsFirst(Succ(deps), order + [x])
    requires inDegree.Keys == deps.Keys
    requires forall n :: n in deps ==> inDegree[n] == Pending(deps[n], Elems(order))
    ensures Counted(deps, inDegree, Elems(order + [x]), rdeps[x])
    ensures forall n :: n in rdeps[x] ==> n in deps && n !in Elems(order + [x])
  {
    var done := Elems(order + [x]);
    assert done == Elems(order) + {x} by { assert (order + [x])[|order|] == x; }
    forall n | n in deps
      ensures inDegree[n] == Pending(deps[n], done) + multiset(rdeps[x])[n]
    {
      assert (order + [x])[|order|] == x;
      PendingStep(deps[n], Elems(order), x);
    }
    forall n | n in rdeps[x] ensures n in deps && n !in done {
      WaitersUnlisted(deps, rdeps, order, x, n);
    }
  }

  /** Each in-degree is what is outstanding after x, plus the edges to x not yet discounted. */
  ghost predicate Counted(deps: Adjacency, inDegree: map<Name, int>, done: set<Name>, rest: seq<Name>)
    requires inDegree.Keys == deps.Keys
  {
    forall n :: n in deps ==> inDegree[n] == Pending(deps[n], done) + multiset(rest)[n]
  }

  /** Decrement one waiter; if it reaches zero it joins the queue. */
  method ReleaseOne(deps: Adjacency, n: Name, ghost done: set<Name>, ghost rest: seq<Name>,
                    inDegree0: map<Name, int>, queue0: seq<Name>)
    returns (inDegree: map<Name, int>, queue: seq<Name>)
    requires QueueHolds(deps, inDegree0, queue0, done) && Counted(deps, inDegree0, done, [n] + rest)
    requires n in deps && n !in done
    ensures QueueHolds(deps, inDegree, queue, done) && Counted(deps, inDegree, done, rest)
  {
    queue := queue0;
    assert multiset([n] + rest) == multiset{n} + multiset(rest);
    inDegree := inDegree0[n := inDegree0[n] - 1];
    if inDegree[n] == 0 {
      var longer := queue + [n];
      queue := SortStrings(longer);
      PermutationFacts(queue, longer);
      assert forall m :: m in queue <==> m in Elems(queue);
      assert forall m :: m in longer <==> m in Elems(longer);
    }
  }

  /** Decrement everyone waiting on x. */
  method Release(deps: Adjacency, rd: seq<Name>, ghost done: set<Name>,
                 inDegree0: map<Name, int>, queue0: seq<Name>)
    returns (inDegree: map<Name, int>, queue: seq<Name>)
    requires QueueHolds(deps, inDegree0, queue0, done) && Counted(deps, inDegree0, done, rd)
    requires forall n :: n in rd ==> n in deps && n !in done
    ensures QueueHolds(deps, inDegree, queue, done) && Counted(deps, inDegree, done, [])
  {
    inDegree, queue := inDegree0, queue0;
    assert rd[0..] == rd;
    for i := 0 to |rd|
      invariant QueueHolds(deps, inDegree, queue, done)
      invariant Counted(deps, inDegree, done, rd[i..])
    {
      assert rd[i..] == [rd[i]] + rd[i + 1..];
      inDegree, queue := ReleaseOne(deps, rd[i], done, rd[i + 1..], inDegree, queue);
    }
    assert rd[|rd|..] == [];
  }

  lemma KahnStarts(deps: Adjacency, inDegree: map<Name, int>, queue: seq<Name>)
    requires inDegree == map n | n in deps :: |deps[n]|
    requires Lists(queue, set n | n in inDegree && inDegree[n] == 0)
    ensures KahnInvariant(deps, inDegree, queue, [])
  {
    assert forall n :: n in queue <==> n in Elems(queue);
    forall n | n in deps ensures inDegree[n] == Pending(deps[n], Elems([])) {
      PendingNone(deps[n]);
      assert Elems([]) == {};
    }
  }

  lemma AfterRelease(deps: Adjacency, inDegree: map<Name, int>, queue: seq<Name>, order: seq<Name>)
    requires QueueHolds(deps, inDegree, queue, Elems(order)) && Counted(deps, inDegree, Elems(order), [])
    requires DepsFirst(Succ(deps), order) && Greedy(Succ(deps), order)
    ensures KahnInvariant(deps, inDegree, queue, order) && |order| <= |deps|
  {
    NoDupWithin(order, deps.Keys);
    assert |deps.Keys| == |deps|;
  }

  /** One turn of the loop: list the head of the queue and release those waiting on it. */
  method ListNext(deps: Adjacency, rdeps: Adjacency, inDegree0: map<Name, int>, queue0: seq<Name>, order0: seq<Name>)
    returns (inDegree: map<Name, int>, queue: seq<Name>, order: seq<Name>)
    requires Linked(deps, rdeps) && KahnInvariant(deps, inDegree0, queue0, order0) && queue0 != []
    ensures KahnInvariant(deps, inDegree, queue, order)
    ensures |order0| < |order| <= |deps|
  {
    var name := queue0[0];
    order := order0 + [name];
    TakeHead(deps, inDegree0, queue0, order0);
    BeforeRelease(deps, rdeps, order0, name, inDegree0);
    HeadTaken(deps, inDegree0, queue0, order0);
    inDegree, queue := Release(deps, rdeps[name], Elems(order), inDegree0, queue0[1..]);
    AfterRelease(deps, inDegree, queue, order);
  }

  method Kahn(deps: Adjacency, rdeps: Adjacency) returns (res: SortResult)
    requires Linked(deps, rdeps)
    ensures Correct(Succ(deps), res)
  {
    var inDegree: map<Name, int> := map n | n in deps :: |deps[n]|;
    var queue := SortedKeys(set n | n in inDegree && inDegree[n] == 0);
    var order: seq<Name> := [];
    KahnStarts(deps, inDegree, queue);
    while queue != []
      invariant KahnInvariant(deps, inDegree, queue, order)
      decreases |deps| - |order|
    {
      inDegree, queue, order := ListNext(deps, rdeps, inDegree, queue, order);
    }
    StuckReachCycles(deps, inDegree, order);
    if |order| != |deps| {
      var names := SortedKeys(set n | n in inDegree && inDegree[n] > 0);
      LeftoverIsAnswer(deps, inDegree, order, names);
      res := CycleInvolving(names);
    } else {
      res := Ordered(order);
      AllListedIsAnswer(Succ(deps), order);
    }
  }

  lemma HeadTaken(deps: Adjacency, inDegree: map<Name, int>, queue: seq<Name>, order: seq<Name>)
    requires KahnInvariant(deps, inDegree, queue, order) && queue != []
    ensures QueueHolds(deps, inDegree, queue[1..], Elems(order + [queue[0]]))
  {
    var q := queue[1..];
    assert queue == [queue[0]] + q;
    assert Elems(order + [queue[0]]) == Elems(order) + {queue[0]} by {
      assert (order + [queue[0]])[|order|] == queue[0];
    }
  }

  lemma LeftoverIsAnswer(deps: Adjacency, inDegree: map<Name, int>, order: seq<Name>, names: seq<Name>)
    requires inDegree.Keys == deps.Keys && NoDup(order) && |order| != |deps| && Elems(order) <= deps.Keys
    requires Lists(names, set n | n in inDegree && inDegree[n] > 0)
    requires forall n :: n in deps ==> (inDegree[n] > 0 <==> n !in order)
    requires forall n :: n in deps ==> (n !in order <==> ReachesCycle(Succ(deps), n))
    ensures Correct(Succ(deps), CycleInvolving(names))
  {
    NoDupSize(order);
    assert |deps.Keys| == |deps|;
    var rest := deps.Keys - Elems(order);
    assert deps.Keys == Elems(order) + rest;
    var n :| n in rest;
    assert n in Elems(names);
    assert Elems(names) == CycleReachers(Succ(deps));
  }

  lemma AllListedIsAnswer(r: Rel, order: seq<Name>)
    requires DepsFirst(r, order) && Greedy(r, order) && |order| == |r|
    ensures Correct(r, Ordered(order))
  {
    NoDupSize(order);
    SubsetSize(Elems(order), r.Keys);
    forall o2 | IsTopo(r, o2) ensures LexLeq(order, o2) {
      GreedyIsLeast(r, order, o2);
    }
  }

  /** When the queue runs dry, what is left over is what leads to a cycle. */
  lemma StuckReachCycles(deps: Adjacency, inDegree: map<Name, int>, order: seq<Name>)
    requires Closed(Succ(deps)) && KahnInvariant(deps, inDegree, [], order)
    ensures forall n :: n in deps ==> (inDegree[n] > 0 <==> n !in order)
    ensures forall n :: n in deps ==> (n !in order <==> ReachesCycle(Succ(deps), n))
  {
    var r, stuck := Succ(deps), deps.Keys - Elems(order);
    assert order[..|order|] == order;
    forall n | n in deps ensures inDegree[n] > 0 <==> n !in order {
      PendingZero(deps[n], Elems(order));
      if n in order {
        var i :| 0 <= i < |order| && order[i] == n;
        assert r[n] <= Elems(order[..i]) <= Elems(order);
      }
    }
    forall n | n in stuck ensures r[n] * stuck != {} {
      PendingZero(deps[n], Elems(order));
      var d :| d in Elems(deps[n]) && d !in Elems(order);
      assert d in r[n] * stuck;
    }
    forall n | n in deps ensures n !in order <==> ReachesCycle(r, n) {
      if n in order {
        DepsFirstNoCycle(r, order, n);
      } else {
        Trapped(r, stuck, n);
      }
    }
  }

  // ---------------------------------------------------------------------
  // Linking: edge validation and reverse edges
  // ---------------------------------------------------------------------

  datatype LinkResult =
    | Linkage(deps: Adjacency, rdeps: Adjacency)
    | NoSuchDep(unit: Name, dep: Name)

  /** The deps that name a unit, in the order given. */
  function KeepKnown(ds: seq<Name>, known: set<Name>): seq<Name> {
    if ds == [] then []
    else
      var d := ds[|ds| - 1];
      KeepKnown(ds[..|ds| - 1], known) + (if d in known then [d] else [])
  }

  lemma {:induction false} KeepKnownElems(ds: seq<Name>, known: set<Name>)
    ensures Elems(KeepKnown(ds, known)) == Elems(ds) * known
  {
    if ds == [] {
    } else {
      KeepKnownElems(ds[..|ds| - 1], known);
      assert ds == ds[..|ds| - 1] + [ds[|ds| - 1]];
    }
  }

  /** The linked deps of a table: unknown names dropped. */
  ghost predicate Kept(wanted: Adjacency, deps: Adjacency) {
    && deps.Keys <= wanted.Keys
    && forall n {:trigger deps[n]} :: n in deps ==> deps[n] == KeepKnown(wanted[n], wanted.Keys)
  }

  lemma KeepKnownAppend(ds: seq<Name>, d: Name, known: set<Name>)
    ensures KeepKnown(ds + [d], known) == KeepKnown(ds, known) + (if d in known then [d] else [])
  {
    assert (ds + [d])[..|ds|] == ds;
  }

  /** When every dep is known, nothing is dropped. */
  lemma {:induction false} KeepKnownAll(ds: seq<Name>, known: set<Name>)
    requires Elems(ds) <= known
    ensures KeepKnown(ds, known) == ds
  {
    if ds == [] {
    } else {
      var rest := ds[..|ds| - 1];
      assert ds == rest + [ds[|ds| - 1]];
      assert forall x :: x in rest ==> x in Elems(ds);
      assert ds[|ds| - 1] in Elems(ds);
      KeepKnownAll(rest, known);
    }
  }

  /** Reverse edges recorded so far: all of those of `done`, none of the others. */
  ghost predicate Recorded(wanted: Adjacency, rdeps: Adjacency, done: set<Name>) {
    && rdeps.Keys == wanted.Keys
    && (forall x :: x in rdeps ==> Elems(rdeps[x]) <= wanted.Keys)
    && (forall x, n {:trigger multiset(rdeps[x])[n]} :: x in wanted && n in wanted ==>
          multiset(rdeps[x])[n] == if n in done then multiset(KeepKnown(wanted[n], wanted.Keys))[x] else 0)
  }

  function Copies(n: Name, k: nat): seq<Name> {
    seq(k, i => n)
  }

  lemma {:induction false} CopiesCount(n: Name, k: nat)
    ensures multiset(Copies(n, k)) == multiset{}[n := k]
  {
    if k == 0 {
    } else {
      CopiesCount(n, k - 1);
      assert Copies(n, k) == Copies(n, k - 1) + [n];
    }
  }

  /** Record name's deps up to here: one entry for each listed occurrence. */
  ghost predicate Recording(before: Adjacency, rdeps: Adjacency, name: Name, kept: seq<Name>) {
    && rdeps.Keys == before.Keys
    && (forall x {:trigger rdeps[x]} :: x in rdeps ==> rdeps[x] == before[x] + Copies(name, multiset(kept)[x]))
  }

  lemma RecordingStep(before: Adjacency, rdeps: Adjacency, name: Name, kept: seq<Name>, d: Name)
    requires Recording(before, rdeps, name, kept) && d in rdeps
    ensures Recording(before, rdeps[d := rdeps[d] + [name]], name, kept + [d])
  {
    var rdeps' := rdeps[d := rdeps[d] + [name]];
    var k := multiset(kept)[d];
    assert multiset(kept + [d]) == multiset(kept) + multiset{d};
    assert Copies(name, k + 1) == Copies(name, k) + [name];
    forall x | x in rdeps' ensures rdeps'[x] == before[x] + Copies(name, multiset(kept + [d])[x]) {
    }
  }

  lemma RecordingNothing(rdeps: Adjacency, name: Name)
    ensures Recording(rdeps, rdeps, name, [])
  {
    forall x | x in rdeps ensures rdeps[x] == rdeps[x] + Copies(name, multiset([])[x]) {
    }
  }

  /** name's deps up to here are kept or dropped, and recorded. */
  ghost predicate LinkingOne(wanted: Adjacency, allowMissing: bool, name: Name, ds: seq<Name>, before: Adjacency,
                             kept: seq<Name>, rdeps: Adjacency) {
    && kept == KeepKnown(ds, wanted.Keys) && before.Keys == wanted.Keys && Recording(before, rdeps, name, kept)
    && (allowMissing || Elems(ds) <= wanted.Keys)
  }

  lemma LinkingKeeps(wanted: Adjacency, allowMissing: bool, name: Name, ds: seq<Name>, before: Adjacency,
                     kept: seq<Name>, rdeps: Adjacency, d: Name)
    requires LinkingOne(wanted, allowMissing, name, ds, before, kept, rdeps)
    ensures d in wanted ==>
            LinkingOne(wanted, allowMissing, name, ds + [d], before, kept + [d], rdeps[d := rdeps[d] + [name]])
    ensures d !in wanted && allowMissing ==> LinkingOne(wanted, allowMissing, name, ds + [d], before, kept, rdeps)
  {
    KeepKnownAppend(ds, d, wanted.Keys);
    Appended(ds, d);
    if d in wanted { RecordingStep(before, rdeps, name, kept, d); }
  }

  datatype Missing = AllFound | Lacks(dep: Name)

  method LinkOne(wanted: Adjacency, allowMissing: bool, name: Name, rdeps0: Adjacency)
    returns (missing: Missing, kept: seq<Name>, rdeps: Adjacency)
    requires name in wanted && rdeps0.Keys == wanted.Keys
    ensures missing.AllFound? ==> LinkingOne(wanted, allowMissing, name, wanted[name], rdeps0, kept, rdeps)
    ensures missing.Lacks? ==> !allowMissing && missing.dep in wanted[name] && missing.dep !in wanted
  {
    var ds := wanted[name];
    missing, kept, rdeps := AllFound, [], rdeps0;
    RecordingNothing(rdeps0, name);
    for i := 0 to |ds|
      invariant missing.AllFound? && LinkingOne(wanted, allowMissing, name, ds[..i], rdeps0, kept, rdeps)
    {
      var d := ds[i];
      assert ds[..i + 1] == ds[..i] + [d];
      LinkingKeeps(wanted, allowMissing, name, ds[..i], rdeps0, kept, rdeps, d);
      if d in wanted {
        rdeps, kept := rdeps[d := rdeps[d] + [name]], kept + [d];
      } else if !allowMissing {
        return Lacks(d), kept, rdeps;
      }
    }
    assert ds[..|ds|] == ds;
  }

  lemma RecordedStep(wanted: Adjacency, before: Adjacency, rdeps: Adjacency, done: set<Name>, name: Name)
    requires Recorded(wanted, before, done) && name in wanted && name !in done
    requires Recording(before, rdeps, name, KeepKnown(wanted[name], wanted.Keys))
    ensures Recorded(wanted, rdeps, done + {name})
  {
    var kept := KeepKnown(wanted[name], wanted.Keys);
    forall x | x in rdeps
      ensures multiset(rdeps[x]) == multiset(before[x]) + multiset{}[name := multiset(kept)[x]]
      ensures Elems(rdeps[x]) <= wanted.Keys
    {
      var k := multiset(kept)[x];
      CopiesCount(name, k);
      forall m | m in rdeps[x] ensures m in wanted {
        if m !in before[x] { assert m in Copies(name, k); } else { assert m in Elems(before[x]); }
      }
    }
  }

  ghost predicate LinkInvariant(wanted: Adjacency, allowMissing: bool, deps: Adjacency, rdeps: Adjacency,
                                left: set<Name>) {
    && left <= wanted.Keys
    && deps.Keys == wanted.Keys - left && Kept(wanted, deps)
    && Recorded(wanted, rdeps, wanted.Keys - left)
    && (allowMissing || forall n {:trigger Elems(wanted[n])} :: n in wanted && n !in left ==>
          Elems(wanted[n]) <= wanted.Keys)
  }

  lemma LinkStep(wanted: Adjacency, allowMissing: bool, deps: Adjacency, rdeps: Adjacency, left: set<Name>,
                 name: Name, rd: Adjacency)
    requires LinkInvariant(wanted, allowMissing, deps, rdeps, left) && name in left
    requires Recording(rdeps, rd, name, KeepKnown(wanted[name], wanted.Keys))
    requires allowMissing || Elems(wanted[name]) <= wanted.Keys
    ensures LinkInvariant(wanted, allowMissing, deps[name := KeepKnown(wanted[name], wanted.Keys)], rd, left - {name})
  {
    RecordedStep(wanted, rdeps, rd, wanted.Keys - left, name);
    assert wanted.Keys - left + {name} == wanted.Keys - (left - {name});
  }

  /** Unknown deps are dropped where that is allowed; otherwise all deps stay as declared, or one unknown dep is
      reported. */
  ghost predicate LinkAnswer(wanted: Adjacency, allowMissing: bool, res: LinkResult) {
    match res
    case Linkage(deps, rdeps) =>
      && deps.Keys == wanted.Keys && Kept(wanted, deps) && Linked(deps, rdeps)
      && (allowMissing || (deps == wanted && Closed(Succ(wanted))))
    case NoSuchDep(u, d) =>
      !allowMissing && u in wanted && d in wanted[u] && d !in wanted
  }

  /** The second half of BuildDAG: drop or reject unknown deps, record reverse edges, sort them. */
  method Link(wanted: Adjacency, allowMissing: bool) returns (res: LinkResult)
    ensures LinkAnswer(wanted, allowMissing, res)
  {
    var rdeps: Adjacency := map n | n in wanted :: [];
    var deps: Adjacency := map[];
    var left := wanted.Keys;
    while left != {}
      invariant LinkInvariant(wanted, allowMissing, deps, rdeps, left)
      decreases left
    {
      var name :| name in left;
      var missing, kept, rd := LinkOne(wanted, allowMissing, name, rdeps);
      if missing.Lacks? {
        return NoSuchDep(name, missing.dep);
      }
      LinkStep(wanted, allowMissing, deps, rdeps, left, name, rd);
      rdeps, deps, left := rd, deps[name := kept], left - {name};
    }
    var sorted: Adjacency := map n | n in rdeps :: SortStrings(rdeps[n]);
    LinkDone(wanted, allowMissing, deps, rdeps, sorted);
    res := Linkage(deps, sorted);
  }

  lemma LinkDone(wanted: Adjacency, allowMissing: bool, deps: Adjacency, rdeps: Adjacency, sorted: Adjacency)
    requires LinkInvariant(wanted, allowMissing, deps, rdeps, {})
    requires sorted == map n | n in rdeps :: SortStrings(rdeps[n])
    ensures LinkAnswer(wanted, allowMissing, Linkage(deps, sorted))
  {
    assert wanted.Keys - {} == wanted.Keys;
    SortingKeepsLink(wanted, deps, rdeps, sorted);
    if !allowMissing { NothingDropped(wanted, deps); }
  }

  lemma NothingDropped(wanted: Adjacency, deps: Adjacency)
    requires deps.Keys == wanted.Keys && Kept(wanted, deps)
    requires forall n {:trigger Elems(wanted[n])} :: n in wanted ==> Elems(wanted[n]) <= wanted.Keys
    ensures deps == wanted && Closed(Succ(wanted))
  {
    forall n | n in wanted ensures deps[n] == wanted[n] && Succ(wanted)[n] <= wanted.Keys {
      KeepKnownAll(wanted[n], wanted.Keys);
      assert Elems(wanted[n]) <= wanted.Keys;
    }
  }

  lemma SortingKeepsLink(wanted: Adjacency, deps: Adjacency, rdeps: Adjacency, sorted: Adjacency)
    requires deps.Keys == wanted.Keys && Kept(wanted, deps)
    requires Recorded(wanted, rdeps, wanted.Keys)
    requires sorted == map n | n in rdeps :: SortStrings(rdeps[n])
    ensures Linked(deps, sorted)
  {
    forall x | x in sorted ensures Elems(sorted[x]) <= deps.Keys {
      PermutationFacts(sorted[x], rdeps[x]);
    }
    forall n | n in deps ensures Succ(deps)[n] <= deps.Keys {
      KeepKnownElems(wanted[n], wanted.Keys);
    }
  }

  // ---------------------------------------------------------------------
  // The DAG object
  // ---------------------------------------------------------------------

  class DAG {
    var deps: Adjacency
    var rdeps: Adjacency
    var sorted: bool
    var result: SortResult

    /** Linked both ways, and the memo, once set, is the right answer. */
    ghost predicate Valid()
      reads this
    {
      Linked(deps, rdeps) && (sorted ==> Correct(Succ(deps), result))
    }

    constructor (deps: Adjacency, rdeps: Adjacency)
      requires Linked(deps, rdeps)
      ensures Valid() && this.deps == deps && this.rdeps == rdeps && !sorted
    {
      this.deps, this.rdeps, sorted, result := deps, rdeps, false, Ordered([]);
    }

    /** Computed at most once; every call returns the one correct answer for the graph. */
    method TopologicalSort() returns (res: SortResult)
      requires Valid()
      modifies this`sorted, this`result
      ensures Valid() && sorted && res == result && Correct(Succ(deps), res)
      ensures old(sorted) ==> res == old(result)
    {
      if !sorted {
        result := Kahn(deps, rdeps);
        sorted := true;
      }
      res := result;
    }
  }
}
