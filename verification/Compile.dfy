/** The graph analyses that feed the machine: gate ancestors by reverse
    search, downstream closures by breadth-first search, rollback answers. */
module Compile {
  import opened Ir
  import opened Sets
  import opened Graph

  /** Appending to an insertion-ordered set. */
  function Add(s: seq<string>, x: string): (r: seq<string>)
    ensures x in r && forall y :: y in r <==> y in s || y == x
  {
    if x in s then s else s + [x]
  }

  /** A wire that orders stages: sourced at a stage, and not at a gate's
      feedback port. */
  predicate OrdersStages(w: Wire) {
    w.from.FromStage? && w.from.port != GATE_FEEDBACK
  }

  function StageEdges(ir: Pipeline): set<Edge> {
    set w | w in ir.wires && OrdersStages(w) :: (w.from.stage, w.to.stage)
  }

  predicate Declared(ir: Pipeline, name: string) {
    exists s :: s in ir.stages && s.name == name
  }

  /** The edges whose reading stage exists; the reverse search sees only these. */
  function DeclaredEdges(ir: Pipeline): set<Edge> {
    set w | w in ir.wires && OrdersStages(w) && Declared(ir, w.to.stage) :: (w.from.stage, w.to.stage)
  }

  /** What the DAG check run before compilation insists on: no ordering wire
      reads into a stage that does not exist. */
  ghost predicate TargetsDeclared(ir: Pipeline) {
    forall w :: w in ir.wires && OrdersStages(w) ==> Declared(ir, w.to.stage)
  }

  // ----- reverse search -----

  /** A map lookup with the empty list as default. */
  function Listed(m: map<string, seq<string>>, n: string): seq<string> {
    if n in m then m[n] else []
  }

  /** `ups` lists every stage's one-step predecessors. */
  ghost predicate IsUpstreamMap(ups: map<string, seq<string>>, edges: set<Edge>) {
    forall n, u :: u in Listed(ups, n) <==> (u, n) in edges
  }

  function EdgesUpTo(ir: Pipeline, k: nat): set<Edge>
    requires k <= |ir.wires|
  {
    set i | 0 <= i < k && OrdersStages(ir.wires[i]) && Declared(ir, ir.wires[i].to.stage)
      :: (ir.wires[i].from.stage, ir.wires[i].to.stage)
  }

  lemma AllEdgesUpTo(ir: Pipeline)
    ensures EdgesUpTo(ir, |ir.wires|) == DeclaredEdges(ir)
  {
    var full := EdgesUpTo(ir, |ir.wires|);
    forall e | e in DeclaredEdges(ir) ensures e in full {
      var w :| w in ir.wires && OrdersStages(w) && Declared(ir, w.to.stage) && e == (w.from.stage, w.to.stage);
      var i :| 0 <= i < |ir.wires| && ir.wires[i] == w;
    }
  }

  lemma NextEdge(ir: Pipeline, k: nat)
    requires k < |ir.wires|
    ensures var w := ir.wires[k];
      EdgesUpTo(ir, k + 1) == EdgesUpTo(ir, k)
        + if OrdersStages(w) && Declared(ir, w.to.stage) then {(w.from.stage, w.to.stage)} else {}
  {
  }

  /** Every stage with no predecessors yet. */
  method DeclareAll(ir: Pipeline) returns (ups: map<string, seq<string>>)
    ensures forall n :: n in ups <==> Declared(ir, n)
    ensures forall n :: n in ups ==> ups[n] == []
  {
    ups := map[];
    for k := 0 to |ir.stages|
      invariant forall n :: n in ups <==> exists i :: 0 <= i < k && ir.stages[i].name == n
      invariant forall n :: n in ups ==> ups[n] == []
    {
      ups := ups[ir.stages[k].name := []];
    }
    forall n | Declared(ir, n) ensures n in ups {
      var s :| s in ir.stages && s.name == n;
      var i :| 0 <= i < |ir.stages| && ir.stages[i] == s;
    }
  }

  method UpstreamOf(ir: Pipeline) returns (ups: map<string, seq<string>>)
    ensures forall n :: n in ups <==> Declared(ir, n)
    ensures IsUpstreamMap(ups, DeclaredEdges(ir))
  {
    ups := DeclareAll(ir);
    for k := 0 to |ir.wires|
      invariant forall n :: n in ups <==> Declared(ir, n)
      invariant IsUpstreamMap(ups, EdgesUpTo(ir, k))
    {
      var w := ir.wires[k];
      NextEdge(ir, k);
      match WireFromStage(w) {
        case None =>
        case Some(src) =>
          if w.from.port != GATE_FEEDBACK && w.to.stage in ups {
            ups := ups[w.to.stage := Add(ups[w.to.stage], src)];
          }
      }
    }
    AllEdgesUpTo(ir);
  }

  function Sources(edges: set<Edge>): set<string> {
    set e | e in edges :: e.0
  }

  /** Every predecessor of `goal` and of everything in `seen` has been seen or
      is waiting on the frontier. */
  ghost predicate PredecessorsCovered(edges: set<Edge>, goal: string, seen: set<string>, frontier: seq<string>) {
    forall e :: e in edges && (e.1 == goal || e.1 in seen) ==> e.0 in seen || e.0 in frontier
  }

  ghost predicate AllAncestors(edges: set<Edge>, goal: string, s: set<string>, frontier: seq<string>) {
    forall x :: x in s || x in frontier ==> ReachesPlus(edges, x, goal)
  }

  lemma {:induction false} CoveredPath(edges: set<Edge>, goal: string, seen: set<string>, p: seq<string>)
    requires PredecessorsCovered(edges, goal, seen, [])
    requires IsPath(edges, p) && |p| >= 2 && p[|p| - 1] == goal
    ensures p[0] in seen
    decreases |p|
  {
    assert (p[0], p[0 + 1]) in edges;
    if |p| > 2 {
      var q := p[1..];
      forall i | 0 <= i < |q| - 1 ensures (q[i], q[i + 1]) in edges { assert (p[i + 1], p[i + 1 + 1]) in edges; }
      CoveredPath(edges, goal, seen, q);
    }
  }

  /** The search state: everything seen or on the frontier is an ancestor, and
      no ancestor can be missed. */
  ghost predicate SearchState(edges: set<Edge>, goal: string, seen: set<string>, frontier: seq<string>) {
    && AllAncestors(edges, goal, seen, frontier)
    && PredecessorsCovered(edges, goal, seen, frontier)
    && seen <= Sources(edges)
  }

  lemma SkipSeen(edges: set<Edge>, goal: string, seen: set<string>, all: seq<string>)
    requires all != [] && SearchState(edges, goal, seen, all) && all[|all| - 1] in seen
    ensures SearchState(edges, goal, seen, all[..|all| - 1])
  {
    var frontier, cur := all[..|all| - 1], all[|all| - 1];
    assert all == frontier + [cur];
    forall e | e in edges && (e.1 == goal || e.1 in seen) ensures e.0 in seen || e.0 in frontier {
      assert e.0 in frontier + [cur] ==> e.0 in frontier || e.0 == cur;
    }
  }

  /** The frontier with the unseen stages of `next` pushed on it. */
  ghost predicate Pushed(frontier: seq<string>, next: seq<string>, seen: set<string>, r: seq<string>) {
    forall x :: x in r <==> x in frontier || (x in next && x !in seen)
  }

  ghost function Unseen(edges: set<Edge>, seen: set<string>): nat {
    |Sources(edges) - seen|
  }

  lemma SearchStart(edges: set<Edge>, ups: map<string, seq<string>>, goal: string)
    requires IsUpstreamMap(ups, edges)
    ensures SearchState(edges, goal, {}, Listed(ups, goal))
  {
    forall x | x in Listed(ups, goal) ensures ReachesPlus(edges, x, goal) { EdgeReaches(edges, x, goal); }
  }

  lemma ExpandOne(edges: set<Edge>, ups: map<string, seq<string>>, goal: string, seen: set<string>,
                  all: seq<string>, pushed: seq<string>)
    requires IsUpstreamMap(ups, edges) && all != [] && SearchState(edges, goal, seen, all)
    requires var cur := all[|all| - 1];
      cur !in seen && Pushed(all[..|all| - 1], Listed(ups, cur), seen + {cur}, pushed)
    ensures SearchState(edges, goal, seen + {all[|all| - 1]}, pushed)
    ensures Unseen(edges, seen + {all[|all| - 1]}) < Unseen(edges, seen)
  {
    var cur := all[|all| - 1];
    assert cur in all;
    var b := FirstStep(edges, cur, goal);
    assert cur in Sources(edges) - seen;
    SmallerSet(Sources(edges) - (seen + {cur}), Sources(edges) - seen);
    forall x | x in pushed && x !in seen && x != cur ensures ReachesPlus(edges, x, goal) {
      if x !in all[..|all| - 1] {
        PlusReaches(edges, cur, goal);
        StepThenReach(edges, x, cur, goal);
      }
    }
    StillCovered(edges, ups, goal, seen, all, pushed);
  }

  lemma StillCovered(edges: set<Edge>, ups: map<string, seq<string>>, goal: string, seen: set<string>,
                     all: seq<string>, pushed: seq<string>)
    requires IsUpstreamMap(ups, edges) && all != [] && PredecessorsCovered(edges, goal, seen, all)
    requires var cur := all[|all| - 1]; Pushed(all[..|all| - 1], Listed(ups, cur), seen + {cur}, pushed)
    ensures PredecessorsCovered(edges, goal, seen + {all[|all| - 1]}, pushed)
  {
    var frontier, cur := all[..|all| - 1], all[|all| - 1];
    assert all == frontier + [cur];
    forall e | e in edges && (e.1 == goal || e.1 in seen + {cur}) ensures e.0 in seen + {cur} || e.0 in pushed {
      if e.1 == cur {
        assert e.0 in Listed(ups, cur);
      } else {
        assert e.0 in frontier + [cur] ==> e.0 in frontier || e.0 == cur;
      }
    }
  }

  /** The stages that can reach `goal` in one or more steps. */
  method AncestorsOf(ghost edges: set<Edge>, ups: map<string, seq<string>>, goal: string) returns (seen: set<string>)
    requires IsUpstreamMap(ups, edges)
    ensures forall t :: t in seen <==> ReachesPlus(edges, t, goal)
  {
    seen := {};
    var frontier := Listed(ups, goal);
    SearchStart(edges, ups, goal);
    while frontier != []
      invariant SearchState(edges, goal, seen, frontier)
      decreases Unseen(edges, seen), |frontier|
    {
      var cur := frontier[|frontier| - 1];
      var rest := frontier[..|frontier| - 1];
      if cur in seen {
        SkipSeen(edges, goal, seen, frontier);
        frontier := rest;
      } else {
        var pushed := PushUnseen(rest, Listed(ups, cur), seen + {cur});
        ExpandOne(edges, ups, goal, seen, frontier, pushed);
        seen, frontier := seen + {cur}, pushed;
      }
    }
    SearchDone(edges, goal, seen);
  }

  lemma SearchDone(edges: set<Edge>, goal: string, seen: set<string>)
    requires SearchState(edges, goal, seen, [])
    ensures forall t :: t in seen <==> ReachesPlus(edges, t, goal)
  {
    forall t | ReachesPlus(edges, t, goal) ensures t in seen {
      var p :| PathFromTo(edges, p, t, goal) && |p| >= 2;
      CoveredPath(edges, goal, seen, p);
    }
  }

  method PushUnseen(frontier: seq<string>, next: seq<string>, seen: set<string>) returns (r: seq<string>)
    ensures Pushed(frontier, next, seen, r)
  {
    r := frontier;
    for k := 0 to |next|
      invariant forall x :: x in r <==> x in frontier || (x in next[..k] && x !in seen)
    {
      assert next[..k + 1] == next[..k] + [next[k]];
      if next[k] !in seen { r := r + [next[k]]; }
    }
    assert next[..|next|] == next;
  }

  predicate IsGateNamed(ir: Pipeline, g: string) {
    exists s :: s in ir.stages && s.name == g && IsGate(s)
  }

  /** For every gate, exactly the stages from which a path of forward wires
      leads to it. */
  method ComputeGateAncestors(ir: Pipeline) returns (ancestors: map<string, set<string>>)
    ensures forall g :: g in ancestors <==> IsGateNamed(ir, g)
    ensures forall g :: g in ancestors ==> forall t :: t in ancestors[g] <==> ReachesPlus(DeclaredEdges(ir), t, g)
  {
    var ups := UpstreamOf(ir);
    ancestors := map[];
    for k := 0 to |ir.stages|
      invariant forall g :: g in ancestors <==> exists i :: 0 <= i < k && ir.stages[i].name == g && IsGate(ir.stages[i])
      invariant forall g :: g in ancestors ==> forall t :: t in ancestors[g] <==> ReachesPlus(DeclaredEdges(ir), t, g)
    {
      var s := ir.stages[k];
      if IsGate(s) {
        var seen := AncestorsOf(DeclaredEdges(ir), ups, s.name);
        ancestors := ancestors[s.name := seen];
      }
    }
    forall g | IsGateNamed(ir, g) ensures g in ancestors {
      var s :| s in ir.stages && s.name == g && IsGate(s);
      var i :| 0 <= i < |ir.stages| && ir.stages[i] == s;
    }
  }

  // ----- forward search -----

  /** `downs` lists every stage's one-step successors. */
  ghost predicate IsDownstreamMap(downs: map<string, seq<string>>, edges: set<Edge>) {
    forall n, d :: d in Listed(downs, n) <==> (n, d) in edges
  }

  function StageEdgesUpTo(ir: Pipeline, k: nat): set<Edge>
    requires k <= |ir.wires|
  {
    set i | 0 <= i < k && OrdersStages(ir.wires[i]) :: (ir.wires[i].from.stage, ir.wires[i].to.stage)
  }

  method DownstreamAdjacency(ir: Pipeline) returns (downs: map<string, seq<string>>)
    ensures IsDownstreamMap(downs, StageEdges(ir))
  {
    downs := map[];
    for k := 0 to |ir.wires|
      invariant IsDownstreamMap(downs, StageEdgesUpTo(ir, k))
    {
      var w := ir.wires[k];
      assert StageEdgesUpTo(ir, k + 1) == StageEdgesUpTo(ir, k)
        + if OrdersStages(w) then {(w.from.stage, w.to.stage)} else {};
      match WireFromStage(w) {
        case None =>
        case Some(src) =>
          if w.from.port != GATE_FEEDBACK {
            if src !in downs { downs := downs[src := []]; }
            downs := downs[src := Add(downs[src], w.to.stage)];
          }
      }
    }
    assert StageEdgesUpTo(ir, |ir.wires|) == StageEdges(ir) by {
      forall e | e in StageEdges(ir) ensures e in StageEdgesUpTo(ir, |ir.wires|) {
        var w :| w in ir.wires && OrdersStages(w) && e == (w.from.stage, w.to.stage);
        var i :| 0 <= i < |ir.wires| && ir.wires[i] == w;
      }
    }
  }

  function Ends(edges: set<Edge>): set<string> {
    set e | e in edges :: e.1
  }

  /** The search state: all visited stages are reachable, and the successors
      of every visited stage no longer queued have been visited. */
  ghost predicate BfsState(edges: set<Edge>, start: string, visited: seq<string>, queue: seq<string>) {
    && Distinct(visited) && |visited| >= 1 && visited[0] == start
    && (forall x :: x in visited ==> Reaches(edges, start, x))
    && (forall x :: x in queue ==> x in visited)
    && (forall e :: e in edges && e.0 in visited && e.0 !in queue ==> e.1 in visited)
  }

  /** The visited and queued stages after the unvisited ones of `nexts` have
      been appended to both. */
  ghost predicate Visited(visited: seq<string>, queue: seq<string>, nexts: seq<string>, v: seq<string>, q: seq<string>) {
    && visited <= v && queue <= q && Distinct(v) && (v == visited ==> q == queue)
    && (forall x :: x in v <==> x in visited || x in nexts)
    && (forall x :: x in q <==> x in queue || (x in nexts && x !in visited))
    && (forall k :: |visited| <= k < |v| ==> v[k] !in visited)
  }

  /** `nexts` lists the successors of `cur`. */
  ghost predicate Successors(edges: set<Edge>, cur: string, nexts: seq<string>) {
    forall d :: d in nexts <==> (cur, d) in edges
  }

  ghost function Unvisited(edges: set<Edge>, start: string, visited: seq<string>): nat {
    |Universe(edges, start) - Elems(visited)|
  }

  lemma BfsStart(edges: set<Edge>, start: string)
    ensures BfsState(edges, start, [start], [start])
  {
    ReachesSelf(edges, start);
  }

  lemma BfsExpand(edges: set<Edge>, start: string, visited: seq<string>, cur: string, queue: seq<string>,
                  nexts: seq<string>, v: seq<string>, q: seq<string>)
    requires BfsState(edges, start, visited, [cur] + queue) && Successors(edges, cur, nexts)
    requires Visited(visited, queue, nexts, v, q)
    ensures BfsState(edges, start, v, q)
    ensures Unvisited(edges, start, v) < Unvisited(edges, start, visited)
            || (Unvisited(edges, start, v) == Unvisited(edges, start, visited) && q == queue)
  {
    assert ([cur] + queue)[0] == cur;
    forall x | x in v ensures Reaches(edges, start, x) {
      if x !in visited {
        ReachThenStep(edges, start, cur, x);
        PlusReaches(edges, start, x);
      }
    }
    forall x | x in q ensures x in v {
      if x in queue { assert x in [cur] + queue; }
    }
    forall e | e in edges && e.0 in v && e.0 !in q ensures e.1 in v {
      if e.0 == cur {
        assert e.1 in nexts;
      } else {
        assert e.0 !in [cur] + queue;
      }
    }
    BfsProgress(edges, start, visited, v, q);
  }

  function Universe(edges: set<Edge>, start: string): set<string> {
    Ends(edges) + {start}
  }

  lemma BfsBound(edges: set<Edge>, start: string, visited: seq<string>, queue: seq<string>)
    requires BfsState(edges, start, visited, queue)
    ensures Elems(visited) <= Universe(edges, start)
  {
    forall x | x in Elems(visited) ensures x in Universe(edges, start) {
      if x != start {
        ReachesIsSelfOrPlus(edges, start, x);
        var b := LastStep(edges, start, x);
      }
    }
  }

  lemma BfsProgress(edges: set<Edge>, start: string, visited: seq<string>, v: seq<string>, q: seq<string>)
    requires BfsState(edges, start, v, q) && visited <= v
    requires forall k :: |visited| <= k < |v| ==> v[k] !in visited
    ensures Unvisited(edges, start, v) <= Unvisited(edges, start, visited)
    ensures v != visited ==> Unvisited(edges, start, v) < Unvisited(edges, start, visited)
  {
    BfsBound(edges, start, v, q);
    assert Elems(visited) <= Elems(v) by {
      forall x | x in visited ensures x in v {
        var k :| 0 <= k < |visited| && visited[k] == x;
        assert v[k] == x;
      }
    }
    SubsetSize(Universe(edges, start) - Elems(v), Universe(edges, start) - Elems(visited));
    if v != visited {
      var x := v[|visited|];
      assert x in Elems(v) && x !in Elems(visited);
      SmallerSet(Universe(edges, start) - Elems(v), Universe(edges, start) - Elems(visited));
    }
  }

  /** Breadth-first closure: `start` and everything downstream of it, each
      stage once, `start` first. */
  method BfsDownstream(ghost edges: set<Edge>, downs: map<string, seq<string>>, start: string) returns (visited: seq<string>)
    requires IsDownstreamMap(downs, edges)
    ensures forall t :: t in visited <==> Reaches(edges, start, t)
    ensures Distinct(visited) && |visited| > 0 && visited[0] == start
  {
    visited := [start];
    var queue := [start];
    BfsStart(edges, start);
    while queue != []
      invariant BfsState(edges, start, visited, queue)
      decreases Unvisited(edges, start, visited), |queue|
    {
      var cur := queue[0];
      assert queue == [cur] + queue[1..];
      queue := queue[1..];
      var nexts := Listed(downs, cur);
      var v, q := VisitNew(visited, queue, nexts);
      BfsExpand(edges, start, visited, cur, queue, nexts, v, q);
      visited, queue := v, q;
    }
    BfsDone(edges, start, visited);
  }

  lemma BfsDone(edges: set<Edge>, start: string, visited: seq<string>)
    requires BfsState(edges, start, visited, [])
    ensures forall t :: t in visited <==> Reaches(edges, start, t)
    ensures Distinct(visited) && |visited| > 0 && visited[0] == start
  {
    forall t | Reaches(edges, start, t) ensures t in visited {
      assert start in Elems(visited);
      ClosedContains(edges, Elems(visited), start, t);
    }
  }

  /** The inner loop of the search: unvisited successors are marked visited
      and queued. */
  method VisitNew(visited: seq<string>, queue: seq<string>, nexts: seq<string>) returns (v: seq<string>, q: seq<string>)
    requires Distinct(visited)
    ensures Visited(visited, queue, nexts, v, q)
  {
    v, q := visited, queue;
    for k := 0 to |nexts|
      invariant visited <= v && queue <= q && Distinct(v)
      invariant forall x :: x in v <==> x in visited || x in nexts[..k]
      invariant forall x :: x in q <==> x in queue || (x in nexts[..k] && x !in visited)
      invariant v == visited ==> q == queue
      invariant forall k :: |visited| <= k < |v| ==> v[k] !in visited
    {
      assert nexts[..k + 1] == nexts[..k] + [nexts[k]];
      if nexts[k] !in v {
        v, q := v + [nexts[k]], q + [nexts[k]];
      }
    }
    assert nexts[..|nexts|] == nexts;
  }
}
