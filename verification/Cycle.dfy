/**
 The three-colour depth-first cycle detector over module deps
 (internal/starlark/cycle.go).
 */
module Cycle {
  import opened Names
  import opened Graph

  /** A dep that names no module of the graph is ignored. */
  function Declared(graph: map<Name, seq<Name>>): Rel {
    map n | n in graph :: Elems(graph[n]) * graph.Keys
  }

  datatype Mark = Visiting | Visited
  datatype Outcome = Nil | CycleError(path: seq<Name>)

  /** A closed walk that repeats no node but its ends: A, B, C, A. */
  predicate SimpleCycle(r: Rel, path: seq<Name>) {
    Walk(r, path) && |path| >= 2 && path[0] == Last(path) && NoDup(path[..|path| - 1])
  }

  /** The stack is the walk being followed; `finished` lists the nodes already left. */
  ghost predicate Consistent(r: Rel, state: map<Name, Mark>, stack: seq<Name>, finished: seq<Name>) {
    && (stack == [] || Walk(r, stack)) && NoDup(stack)
    && DepsFirst(r, finished)
    && Elems(stack) == Marked(state, Visiting)
    && Elems(finished) == Marked(state, Visited)
  }

  ghost function Marked(state: map<Name, Mark>, m: Mark): set<Name> {
    set x | x in state && state[x] == m
  }

  ghost function Unvisited(r: Rel, stack: seq<Name>, finished: seq<Name>): set<Name> {
    r.Keys - Elems(stack) - Elems(finished)
  }

  /** Slice the stack from node's place to its top and close the cycle. */
  method CloseCycle(ghost r: Rel, stack: seq<Name>, node: Name) returns (path: seq<Name>)
    requires stack != [] && Walk(r, stack) && NoDup(stack) && node in stack && node in r[Last(stack)]
    ensures SimpleCycle(r, path) && path[0] == node
  {
    var start := 0;
    while stack[start] != node
      invariant start < |stack| && node !in stack[..start]
      decreases |stack| - start
    {
      start := start + 1;
      assert stack[..start] == stack[..start - 1] + [stack[start - 1]];
      assert stack == stack[..start] + stack[start..];
    }
    path := stack[start..] + [node];
    assert path[..|path| - 1] == stack[start..];
  }

  lemma Enter(r: Rel, state: map<Name, Mark>, stack: seq<Name>, finished: seq<Name>, node: Name)
    requires Consistent(r, state, stack, finished) && node in r && node !in state
    requires stack == [] || node in r[Last(stack)]
    ensures Consistent(r, state[node := Visiting], stack + [node], finished)
  {
    Appended(stack, node);
    WalkAppend(r, stack, node);
    assert node !in Elems(stack);
    assert Marked(state[node := Visiting], Visiting) == Marked(state, Visiting) + {node};
    assert Marked(state[node := Visiting], Visited) == Marked(state, Visited);
  }

  lemma EnterShrinks(r: Rel, state: map<Name, Mark>, stack: seq<Name>, finished: seq<Name>, node: Name)
    requires Elems(stack) == Marked(state, Visiting) && Elems(finished) == Marked(state, Visited)
    requires node in r && node !in state
    ensures |Unvisited(r, stack + [node], finished)| < |Unvisited(r, stack, finished)|
  {
    Appended(stack, node);
    assert node !in Elems(stack) && node !in Elems(finished);
    assert Unvisited(r, stack + [node], finished) == Unvisited(r, stack, finished) - {node};
  }

  lemma Leave(r: Rel, state: map<Name, Mark>, stack: seq<Name>, finished: seq<Name>, node: Name)
    requires Consistent(r, state, stack + [node], finished) && node in r && r[node] <= Elems(finished)
    ensures Consistent(r, state[node := Visited], stack, finished + [node])
  {
    Appended(stack, node);
    Appended(finished, node);
    assert node in Marked(state, Visiting);
    assert node !in Elems(finished);
    assert Marked(state[node := Visited], Visiting) == Marked(state, Visiting) - {node};
    assert Marked(state[node := Visited], Visited) == Marked(state, Visited) + {node};
    if stack != [] { WalkPrefix(r, stack, node); }
    DepsFirstAppend(r, finished, node);
  }

  method Visit(graph: map<Name, seq<Name>>, node: Name, state0: map<Name, Mark>, stack: seq<Name>,
               ghost finished0: seq<Name>)
    returns (err: Outcome, state: map<Name, Mark>, ghost finished: seq<Name>)
    requires node in graph && Consistent(Declared(graph), state0, stack, finished0)
    requires stack == [] || node in Declared(graph)[Last(stack)]
    ensures err.CycleError? ==> SimpleCycle(Declared(graph), err.path)
    ensures err.Nil? ==> Consistent(Declared(graph), state, stack, finished)
    ensures err.Nil? ==> node in finished && Elems(finished0) <= Elems(finished)
    decreases |Unvisited(Declared(graph), stack, finished0)|, 0
  {
    ghost var r := Declared(graph);
    err, state, finished := Nil, state0, finished0;
    if node in state && state[node] == Visiting {
      assert node in Marked(state, Visiting);
      assert node in Elems(stack);
      var path := CloseCycle(r, stack, node);
      err := CycleError(path);
    } else if node !in state {
      Enter(r, state, stack, finished, node);
      EnterShrinks(r, state, stack, finished, node);
      err, state, finished := VisitDeps(graph, node, state[node := Visiting], stack + [node], finished);
      if err.Nil? {
        Leave(r, state, stack, finished, node);
        Appended(finished, node);
        state, finished := state[node := Visited], finished + [node];
      }
    }
  }

  lemma FewerUnvisited(r: Rel, stack: seq<Name>, finished0: seq<Name>, finished: seq<Name>)
    requires Elems(finished0) <= Elems(finished)
    ensures |Unvisited(r, stack, finished)| <= |Unvisited(r, stack, finished0)|
  {
    SubsetSize(Unvisited(r, stack, finished), Unvisited(r, stack, finished0));
  }

  /** Visit the deps of the node on top of the stack, in sorted order. */
  method VisitDeps(graph: map<Name, seq<Name>>, node: Name, state0: map<Name, Mark>, stack: seq<Name>,
                   ghost finished0: seq<Name>)
    returns (err: Outcome, state: map<Name, Mark>, ghost finished: seq<Name>)
    requires node in graph && stack != [] && Last(stack) == node
    requires Consistent(Declared(graph), state0, stack, finished0)
    ensures err.CycleError? ==> SimpleCycle(Declared(graph), err.path)
    ensures err.Nil? ==> Consistent(Declared(graph), state, stack, finished)
    ensures err.Nil? ==> Declared(graph)[node] <= Elems(finished) && Elems(finished0) <= Elems(finished)
    decreases |Unvisited(Declared(graph), stack, finished0)|, 2
  {
    var deps := SortStrings(graph[node]);
    PermutationFacts(deps, graph[node]);
    err, state, finished := Nil, state0, finished0;
    for i := 0 to |deps|
      invariant err.Nil? && Consistent(Declared(graph), state, stack, finished)
      invariant Elems(finished0) <= Elems(finished)
      invariant Elems(deps[..i]) * graph.Keys <= Elems(finished)
    {
      assert deps[i] in Elems(deps);
      FewerUnvisited(Declared(graph), stack, finished0, finished);
      err, state, finished := VisitDep(graph, node, deps[i], state, stack, finished);
      if err.CycleError? {
        return;
      }
      PrefixElems(deps, i);
    }
    assert deps[..|deps|] == deps;
  }

  /** A dep the graph does not declare is skipped. */
  method VisitDep(graph: map<Name, seq<Name>>, ghost node: Name, dep: Name, state0: map<Name, Mark>, stack: seq<Name>,
                  ghost finished0: seq<Name>)
    returns (err: Outcome, state: map<Name, Mark>, ghost finished: seq<Name>)
    requires node in graph && stack != [] && Last(stack) == node && dep in graph[node]
    requires Consistent(Declared(graph), state0, stack, finished0)
    ensures err.CycleError? ==> SimpleCycle(Declared(graph), err.path)
    ensures err.Nil? ==> Consistent(Declared(graph), state, stack, finished)
    ensures err.Nil? ==> {dep} * graph.Keys <= Elems(finished) && Elems(finished0) <= Elems(finished)
    decreases |Unvisited(Declared(graph), stack, finished0)|, 1
  {
    if dep in graph {
      err, state, finished := Visit(graph, dep, state0, stack, finished0);
    } else {
      err, state, finished := Nil, state0, finished0;
    }
  }

  /** Nil exactly on acyclic graphs; otherwise a simple cycle of the graph. */
  method DetectCycles(graph: map<Name, seq<Name>>) returns (err: Outcome)
    ensures err.Nil? <==> Acyclic(Declared(graph))
    ensures err.CycleError? ==> SimpleCycle(Declared(graph), err.path)
  {
    ghost var r := Declared(graph);
    var roots := SortedKeys(graph.Keys);
    var state: map<Name, Mark> := map[];
    ghost var finished: seq<Name> := [];
    assert Consistent(r, state, [], finished);
    for i := 0 to |roots|
      invariant Consistent(r, state, [], finished)
      invariant Elems(roots[..i]) <= Elems(finished)
    {
      assert roots[i] in Elems(roots);
      if roots[i] in state && state[roots[i]] == Visited {
        assert roots[i] in finished;
      } else {
        err, state, finished := VisitRoot(graph, roots[i], state, finished);
        if err.CycleError? {
          SimpleCycleIsCycle(r, err.path);
          return;
        }
      }
      PrefixElems(roots, i);
    }
    assert roots[..|roots|] == roots;
    err := Nil;
    AllFinished(r, finished);
  }

  method VisitRoot(graph: map<Name, seq<Name>>, root: Name, state0: map<Name, Mark>, ghost finished0: seq<Name>)
    returns (err: Outcome, state: map<Name, Mark>, ghost finished: seq<Name>)
    requires root in graph && Consistent(Declared(graph), state0, [], finished0)
    ensures err.CycleError? ==> SimpleCycle(Declared(graph), err.path)
    ensures err.Nil? ==> Consistent(Declared(graph), state, [], finished)
    ensures err.Nil? ==> root in Elems(finished) && Elems(finished0) <= Elems(finished)
  {
    err, state, finished := Visit(graph, root, state0, [], finished0);
  }

  lemma AllFinished(r: Rel, finished: seq<Name>)
    requires DepsFirst(r, finished) && r.Keys <= Elems(finished)
    ensures Acyclic(r)
  {
    assert Elems(finished) == r.Keys;
    TopoMeansAcyclic(r, finished);
  }

  lemma SimpleCycleIsCycle(r: Rel, path: seq<Name>)
    requires SimpleCycle(r, path)
    ensures !Acyclic(r)
  {
    assert WalkFrom(r, path, path[0], path[0]);
    assert OnCycle(r, path[0]);
  }
}
