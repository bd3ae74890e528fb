/** The depth-first cycle check of the pipeline validator. Its `visited` set is
    shared by all roots and its stack set is left as it is after a hit; it
    still reports a cycle exactly when there is one. */
module CycleCheck {
  import opened Ir
  import opened Sets
  import opened Graph

  /** A stage entry: a parallel group (not looked at here) or a stage with the
      dependency list it declares, if any. */
  datatype Entry = Group | Single(name: string, dependsOn: Option<seq<string>>)

  type DepGraph = map<string, seq<string>>

  predicate Declares(e: Entry) {
    e.Single? && e.dependsOn.Some?
  }

  /** Declared dependency lists by stage name; a later entry replaces an
      earlier one of the same name. */
  function GraphOf(entries: seq<Entry>): DepGraph {
    if entries == [] then map[]
    else
      var g, e := GraphOf(entries[..|entries| - 1]), entries[|entries| - 1];
      if Declares(e) then g[e.name := e.dependsOn.value] else g
  }

  function DepsOf(g: DepGraph, n: string): seq<string> {
    if n in g then g[n] else []
  }

  function DepEdges(g: DepGraph): set<Edge> {
    set n, d | n in g && d in g[n] :: (n, d)
  }

  /** All names the graph mentions. */
  function Mentioned(g: DepGraph): set<string> {
    g.Keys + set n, d | n in g && d in g[n] :: d
  }

  /** The k-th entry declares the dependencies that count for the name: no later
      entry of that name declares any. */
  predicate Counts(entries: seq<Entry>, n: string, k: nat) {
    k < |entries| && entries[k].Single? && entries[k].name == n && entries[k].dependsOn.Some?
    && forall j :: k < j < |entries| && entries[j].Single? && entries[j].name == n ==> entries[j].dependsOn.None?
  }

  lemma {:induction false} GraphLookup(entries: seq<Entry>, n: string, k: nat)
    requires Counts(entries, n, k)
    ensures n in GraphOf(entries) && GraphOf(entries)[n] == entries[k].dependsOn.value
  {
    var init := entries[..|entries| - 1];
    if k < |init| {
      assert Counts(init, n, k) by {
        forall j | k < j < |init| && init[j].Single? && init[j].name == n ensures init[j].dependsOn.None? {
          assert init[j] == entries[j];
        }
      }
      GraphLookup(init, n, k);
      assert entries[|init|].Single? && entries[|init|].name == n ==> entries[|init|].dependsOn.None?;
    }
  }

  lemma {:induction false} GraphHas(entries: seq<Entry>, n: string) returns (k: nat)
    requires n in GraphOf(entries)
    ensures Counts(entries, n, k)
  {
    var init, last := entries[..|entries| - 1], entries[|entries| - 1];
    if last.Single? && last.name == n && last.dependsOn.Some? {
      k := |init|;
    } else {
      k := GraphHas(init, n);
      forall j | k < j < |entries| && entries[j].Single? && entries[j].name == n ensures entries[j].dependsOn.None? {
        if j < |init| { assert init[j] == entries[j]; }
      }
    }
  }

  /** One stage depends on another exactly if the entry that counts for it lists
      the other. */
  lemma DependenciesMeaning(entries: seq<Entry>, n: string, d: string)
    ensures (n, d) in DepEdges(GraphOf(entries)) <==> exists k: nat :: Counts(entries, n, k) && d in entries[k].dependsOn.value
  {
    if n in GraphOf(entries) {
      var k := GraphHas(entries, n);
      GraphLookup(entries, n, k);
    }
    if k: nat :| Counts(entries, n, k) && d in entries[k].dependsOn.value { GraphLookup(entries, n, k); }
  }

  // ----- finished nodes -----

  /** A finishing order: every dependency of a finished node finished before. */
  ghost predicate Finishing(g: DepGraph, order: seq<string>) {
    forall k :: 0 <= k < |order| ==> forall d :: d in DepsOf(g, order[k]) ==> d in order[..k]
  }

  lemma {:induction false} FinishedEarlier(g: DepGraph, order: seq<string>, p: seq<string>, k: nat) returns (j: nat)
    requires Finishing(g, order) && IsPath(DepEdges(g), p) && k < |order| && order[k] == p[0]
    ensures j < |order| && order[j] == p[|p| - 1] && j + |p| - 1 <= k
    decreases |p|
  {
    if |p| == 1 {
      j := k;
    } else {
      assert (p[0], p[0 + 1]) in DepEdges(g);
      assert p[1] in DepsOf(g, order[k]);
      var i :| 0 <= i < k && order[..k][i] == p[1];
      var q := p[1..];
      forall m | 0 <= m < |q| - 1 ensures (q[m], q[m + 1]) in DepEdges(g) { assert (p[m + 1], p[m + 1 + 1]) in DepEdges(g); }
      j := FinishedEarlier(g, order, q, i);
    }
  }

  /** If every node with dependencies has finished, there is no cycle. */
  lemma AllFinishedAcyclic(g: DepGraph, order: seq<string>)
    requires Finishing(g, order) && Distinct(order) && forall n :: n in g ==> n in order
    ensures Acyclic(DepEdges(g))
  {
    forall c ensures !ReachesPlus(DepEdges(g), c, c) {
      if ReachesPlus(DepEdges(g), c, c) {
        var p :| PathFromTo(DepEdges(g), p, c, c) && |p| >= 2;
        assert (p[0], p[0 + 1]) in DepEdges(g);
        var k :| 0 <= k < |order| && order[k] == c;
        var j := FinishedEarlier(g, order, p, k);
        assert false;
      }
    }
  }

  /** Stepping from the end of the current path back onto it closes a cycle. */
  lemma BackEdgeIsCycle(g: DepGraph, path: seq<string>, node: string)
    requires IsPath(DepEdges(g), path) && (path[|path| - 1], node) in DepEdges(g) && node in path
    ensures !Acyclic(DepEdges(g))
  {
    var edges := DepEdges(g);
    var i :| 0 <= i < |path| && path[i] == node;
    var tail := path[i..];
    forall m | 0 <= m < |tail| - 1 ensures (tail[m], tail[m + 1]) in edges { assert (path[i + m], path[i + m + 1]) in edges; }
    assert PathFromTo(edges, tail, node, path[|path| - 1]);
    ReachThenStep(edges, node, path[|path| - 1], node);
  }

  // ----- the search -----

  /** What the search knows as long as nothing was hit: the stack set is the
      current path, and everything else visited has finished. */
  ghost predicate CleanState(g: DepGraph, visited: set<string>, inStack: set<string>, path: seq<string>, finished: seq<string>) {
    && inStack == Elems(path) && (path != [] ==> IsPath(DepEdges(g), path))
    && Finishing(g, finished) && Distinct(finished)
    && visited == Elems(path) + Elems(finished) && Elems(path) !! Elems(finished)
  }

  lemma FinishNode(g: DepGraph, visited: set<string>, path: seq<string>, finished: seq<string>, node: string)
    requires CleanState(g, visited, Elems(path + [node]), path + [node], finished) && node !in path
    requires forall d :: d in DepsOf(g, node) ==> d in finished
    ensures CleanState(g, visited, Elems(path + [node]) - {node}, path, finished + [node])
    ensures node in finished + [node]
  {
    assert Elems(path + [node]) == Elems(path) + {node};
    assert Elems(finished + [node]) == Elems(finished) + {node};
    assert node in Elems(path + [node]);
    var order := finished + [node];
    forall k | 0 <= k < |order| ensures forall d :: d in DepsOf(g, order[k]) ==> d in order[..k] {
      if k < |finished| { assert order[..k] == finished[..k] && order[k] == finished[k]; } else { assert order[..k] == finished; }
    }
    forall i | 0 <= i < |finished| ensures finished[i] != node { assert finished[i] in Elems(finished); }
    if path != [] {
      assert path == (path + [node])[..|path|];
      PathPrefix(DepEdges(g), path + [node], |path|);
    }
  }

  lemma PushNode(g: DepGraph, visited: set<string>, path: seq<string>, finished: seq<string>, node: string)
    requires CleanState(g, visited, Elems(path), path, finished) && node !in visited
    requires path != [] ==> (path[|path| - 1], node) in DepEdges(g)
    ensures CleanState(g, visited + {node}, Elems(path) + {node}, path + [node], finished)
    ensures node !in path
  {
    assert Elems(path + [node]) == Elems(path) + {node};
    var p := path + [node];
    assert node !in Elems(path) && node !in Elems(finished);
    forall i | 0 <= i < |p| - 1 ensures (p[i], p[i + 1]) in DepEdges(g) {
      if i < |path| - 1 { assert (path[i], path[i + 1]) in DepEdges(g); }
    }
  }

  class Finder {
    const graph: DepGraph
    var visited: set<string>
    var inStack: set<string>
    /** Nodes in finishing order, for the proof. */
    ghost var finished: seq<string>

    constructor (g: DepGraph)
      ensures graph == g && visited == {} && inStack == {} && finished == []
    {
      graph, visited, inStack, finished := g, {}, {}, [];
    }

    ghost predicate Clean(path: seq<string>)
      reads this
    {
      CleanState(graph, visited, inStack, path, finished)
    }

    /** True means a cycle exists. False from a clean state means that `node`
        and everything it depends on has finished, and the stack is as it was.
        `path` is the walk that led to the call. */
    method HasCycle(node: string, ghost path: seq<string>) returns (hit: bool)
      requires Clean(path) || !Acyclic(DepEdges(graph))
      requires node in Mentioned(graph)
      requires path != [] ==> (path[|path| - 1], node) in DepEdges(graph)
      modifies this
      ensures old(visited) <= visited
      ensures hit ==> !Acyclic(DepEdges(graph))
      ensures !hit && old(Clean(path)) ==> Clean(path) && node in finished && old(finished) <= finished
      decreases |Mentioned(graph) - visited|, 1
    {
      if node in inStack {
        if Clean(path) { BackEdgeIsCycle(graph, path, node); }
        return true;
      }
      if node in visited { return false; }
      hit := Explore(node, path);
    }

    /** Visit a new node: put it on the stack, visit what it depends on, and
        take it off again unless a cycle was hit. */
    method Explore(node: string, ghost path: seq<string>) returns (hit: bool)
      requires Clean(path) || !Acyclic(DepEdges(graph))
      requires node in Mentioned(graph) && node !in visited
      requires path != [] ==> (path[|path| - 1], node) in DepEdges(graph)
      modifies this
      ensures old(visited) <= visited
      ensures hit ==> !Acyclic(DepEdges(graph))
      ensures !hit && old(Clean(path)) ==> Clean(path) && node in finished && old(finished) <= finished
      decreases |Mentioned(graph) - visited|, 0
    {
      ghost var clean, before := Clean(path), finished;
      if clean { PushNode(graph, visited, path, finished, node); }
      SmallerSet(Mentioned(graph) - (visited + {node}), Mentioned(graph) - visited);
      visited := visited + {node};
      inStack := inStack + {node};
      hit := VisitDeps(node, DepsOf(graph, node), path + [node]);
      if hit { return true; }
      if clean { FinishNode(graph, visited, path, finished, node); }
      assert clean ==> before <= finished;
      inStack := inStack - {node};
      finished := finished + [node];
    }

    /** The loop over a node's dependencies; it stops at the first hit. */
    method VisitDeps(node: string, deps: seq<string>, ghost walk: seq<string>) returns (hit: bool)
      requires Clean(walk) || !Acyclic(DepEdges(graph))
      requires deps == DepsOf(graph, node) && walk != [] && walk[|walk| - 1] == node
      modifies this
      ensures old(visited) <= visited
      ensures hit ==> !Acyclic(DepEdges(graph))
      ensures !hit && old(Clean(walk)) ==>
                Clean(walk) && old(finished) <= finished && forall d :: d in deps ==> d in finished
      decreases |Mentioned(graph) - visited|, 2
    {
      ghost var clean := Clean(walk);
      for k := 0 to |deps|
        invariant old(visited) <= visited
        invariant clean ==> Clean(walk) && old(finished) <= finished && AllIn(deps[..k], finished)
        invariant clean || !Acyclic(DepEdges(graph))
      {
        assert deps[k] in deps && (node, deps[k]) in DepEdges(graph);
        SubsetSize(Mentioned(graph) - visited, Mentioned(graph) - old(visited));
        ghost var before := finished;
        hit := HasCycle(deps[k], walk);
        if hit { return true; }
        if clean { StillIn(deps, k, before, finished); }
      }
      assert deps[..|deps|] == deps;
      hit := false;
    }
  }

  ghost predicate AllIn(names: seq<string>, finished: seq<string>) {
    forall d :: d in names ==> d in finished
  }

  lemma StillIn(deps: seq<string>, k: nat, before: seq<string>, after: seq<string>)
    requires k < |deps| && AllIn(deps[..k], before) && before <= after && deps[k] in after
    ensures AllIn(deps[..k + 1], after)
  {
    assert deps[..k + 1] == deps[..k] + [deps[k]];
    forall d | d in before ensures d in after {
      var i :| 0 <= i < |before| && before[i] == d;
      assert after[i] == d;
    }
  }

  method BuildGraph(entries: seq<Entry>) returns (g: DepGraph, keys: seq<string>)
    ensures g == GraphOf(entries) && forall n :: n in keys <==> n in g
  {
    g, keys := map[], [];
    for k := 0 to |entries|
      invariant g == GraphOf(entries[..k]) && forall n :: n in keys <==> n in g
    {
      assert entries[..k + 1][..k] == entries[..k];
      match entries[k]
      case Single(name, Some(deps)) =>
        if name !in g { keys := keys + [name]; }
        g := g[name := deps];
      case _ =>
    }
    assert entries[..|entries|] == entries;
  }

  /** The check runs only if some entry declares a dependency. */
  predicate UsesDependsOn(entries: seq<Entry>) {
    exists k :: 0 <= k < |entries| && Declares(entries[k]) && entries[k].dependsOn.value != []
  }

  lemma {:induction false} UnusedHasNoEdges(entries: seq<Entry>)
    requires !UsesDependsOn(entries)
    ensures forall n :: n in GraphOf(entries) ==> GraphOf(entries)[n] == []
  {
    if entries != [] {
      var init := entries[..|entries| - 1];
      assert forall k :: 0 <= k < |init| ==> init[k] == entries[k];
      UnusedHasNoEdges(init);
    }
  }

  /** The roots for which "Cycle detected" is reported: some root is reported
      exactly when the dependency graph has a cycle. */
  method CycleIssues(entries: seq<Entry>) returns (reported: seq<string>)
    ensures reported != [] <==> !Acyclic(DepEdges(GraphOf(entries)))
  {
    reported := [];
    if !UsesDependsOn(entries) {
      UnusedHasNoEdges(entries);
      AllFinishedNoEdges(GraphOf(entries));
      return;
    }
    var g, keys := BuildGraph(entries);
    var finder := new Finder(g);
    for k := 0 to |keys|
      invariant finder.graph == g
      invariant reported == [] ==> finder.Clean([]) && forall n :: n in keys[..k] ==> n in finder.finished
      invariant reported != [] ==> !Acyclic(DepEdges(g))
    {
      assert keys[..k + 1] == keys[..k] + [keys[k]];
      assert keys[k] in keys;
      ghost var before := finder.finished;
      var hit := finder.HasCycle(keys[k], []);
      if hit { reported := reported + [keys[k]]; }
      assert reported == [] ==> forall n :: n in before ==> n in finder.finished;
    }
    assert keys[..|keys|] == keys;
    if reported == [] { AllFinishedAcyclic(g, finder.finished); }
  }

  lemma AllFinishedNoEdges(g: DepGraph)
    requires forall n :: n in g ==> g[n] == []
    ensures Acyclic(DepEdges(g))
  {
    forall c ensures !ReachesPlus(DepEdges(g), c, c) {
      if ReachesPlus(DepEdges(g), c, c) {
        var b := FirstStep(DepEdges(g), c, c);
        assert false;
      }
    }
  }
}
