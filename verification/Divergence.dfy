/** The topologically earliest stage in which two pipelines differ, and the
    readers reached from a stage along wires. */
module Divergence {
  import opened Ir
  import opened Graph
  import opened Diff
  import opened Tables
  import opened SafeRange
  import opened Kahn
  import opened Compile

  /** Names of added, removed and modified stages, each once, in that order. */
  function ChangedNames(d: PipelineDiff): seq<string> {
    KeyOrder(StageNames(d.added) + StageNames(d.removed) + EntryNames(d.modified))
  }

  function EntryNames(ms: seq<StageDiff>): (names: seq<string>)
    ensures |names| == |ms|
  {
    seq(|ms|, i requires 0 <= i < |ms| => ms[i].stageName)
  }

  /** Proposed stages first, then the base stages they lack. */
  function TieBreak(base: Pipeline, proposed: Pipeline): seq<string> {
    KeyOrder(StageNames(proposed.stages) + StageNames(base.stages))
  }

  /** The stage-to-stage wires between known stages, parallel ones kept. */
  function ArcsOf(wires: seq<Wire>, known: seq<string>): (arcs: seq<Edge>)
    ensures forall k :: 0 <= k < |arcs| ==> arcs[k].0 in known && arcs[k].1 in known
  {
    if wires == [] then []
    else
      var rest, w := ArcsOf(wires[..|wires| - 1], known), wires[|wires| - 1];
      if w.from.FromStage? && w.from.stage in known && w.to.stage in known
      then rest + [(w.from.stage, w.to.stage)] else rest
  }

  method Deduplicate(names: seq<string>) returns (keys: seq<string>)
    ensures keys == KeyOrder(names)
  {
    keys := [];
    for k := 0 to |names|
      invariant keys == KeyOrder(names[..k])
    {
      assert names[..k + 1][..k] == names[..k];
      if names[k] !in keys { keys := keys + [names[k]]; }
    }
    assert names[..|names|] == names;
  }

  method CollectArcs(wires: seq<Wire>, known: seq<string>) returns (arcs: seq<Edge>)
    ensures arcs == ArcsOf(wires, known)
  {
    arcs := [];
    for k := 0 to |wires|
      invariant arcs == ArcsOf(wires[..k], known)
    {
      assert wires[..k + 1][..k] == wires[..k];
      match WireFromStage(wires[k]) {
        case None =>
        case Some(src) =>
          if src in known && wires[k].to.stage in known { arcs := arcs + [(src, wires[k].to.stage)]; }
      }
    }
    assert wires[..|wires|] == wires;
  }

  /** The first changed stage of the order, or the first changed stage at all
      if the order holds none. */
  ghost predicate FirstChanged(order: seq<string>, changed: seq<string>, n: string) {
    if exists k :: 0 <= k < |order| && order[k] in changed
    then exists k :: 0 <= k < |order| && order[k] == n && n in changed && Untouched(order[..k], changed)
    else changed != [] && n == changed[0]
  }

  ghost predicate Untouched(order: seq<string>, changed: seq<string>) {
    forall j :: 0 <= j < |order| ==> order[j] !in changed
  }

  method PickFirstChanged(order: seq<string>, changed: seq<string>) returns (n: string)
    requires changed != []
    ensures FirstChanged(order, changed, n)
  {
    for k := 0 to |order|
      invariant Untouched(order[..k], changed)
    {
      if order[k] in changed { return order[k]; }
    }
    n := changed[0];
  }

  /** `n` is the first changed stage of the greedy topological order over the
      wires of both pipelines. */
  ghost predicate IsDivergence(base: Pipeline, proposed: Pipeline, n: string) {
    var tie, changed := TieBreak(base, proposed), ChangedNames(DiffOf(base, proposed));
    exists order :: Greedy(tie, ArcsOf(base.wires + proposed.wires, tie), order) && FirstChanged(order, changed, n)
  }

  method FindEarliestDivergence(base: Pipeline, proposed: Pipeline) returns (r: Option<string>)
    ensures r == None <==> ChangedNames(DiffOf(base, proposed)) == []
    ensures r.Some? ==> IsDivergence(base, proposed, r.value)
  {
    var d := ComputePipelineDiff(base, proposed);
    var changed := Deduplicate(StageNames(d.added) + StageNames(d.removed) + EntryNames(d.modified));
    if changed == [] { return None; }
    var tie := Deduplicate(StageNames(proposed.stages) + StageNames(base.stages));
    var arcs := CollectArcs(base.wires + proposed.wires, tie);
    var order := TopoOrder(tie, arcs);
    var n := PickFirstChanged(order, changed);
    r := Some(n);
  }

  /** There is no divergence exactly when no stage was added, removed or
      modified, that is, when the pipelines have the same stages with the same
      types, port types, prompts, scripts, questions and routing. */
  lemma NoDivergenceMeans(base: Pipeline, proposed: Pipeline)
    ensures ChangedNames(DiffOf(base, proposed)) == [] <==>
              SameStageNames(base, proposed)
              && forall n :: n in StageTable(base.stages) && n in StageTable(proposed.stages) ==>
                   SameStage(StageTable(base.stages)[n], StageTable(proposed.stages)[n])
                   && SamePrompt(StageTable(base.stages)[n], StageTable(proposed.stages)[n])
  {
    var d := DiffOf(base, proposed);
    var names := StageNames(d.added) + StageNames(d.removed) + EntryNames(d.modified);
    assert ChangedNames(d) == [] <==> names == [] by {
      if names != [] { KeyOrderKeeps(names, names[0]); }
    }
    SameNames(base, proposed);
    if d.modified == [] {
      forall n | n in StageTable(base.stages) && n in StageTable(proposed.stages)
        ensures SameStage(StageTable(base.stages)[n], StageTable(proposed.stages)[n])
        ensures SamePrompt(StageTable(base.stages)[n], StageTable(proposed.stages)[n])
      {
        ModifiedMeaning(base, proposed, n);
      }
    } else {
      assert d.modified[0] in d.modified;
      ModifiedMeaning(base, proposed, d.modified[0].stageName);
    }
  }

  lemma {:induction false} MissingNames(keys: seq<string>, own: map<string, Stage>, other: map<string, Stage>, n: string)
    requires forall k :: k in own ==> own[k].name == k
    ensures n in StageNames(StagesMissing(keys, own, other)) <==> n in keys && n in own && n !in other
  {
    if keys != [] {
      var init, last := keys[..|keys| - 1], keys[|keys| - 1];
      assert keys == init + [last];
      MissingNames(init, own, other, n);
      var rest := StagesMissing(init, own, other);
      if last in own && last !in other {
        assert StageNames(rest + [own[last]]) == StageNames(rest) + [last];
      }
    }
  }

  lemma EntryNamesMeaning(d: PipelineDiff, n: string)
    ensures n in EntryNames(d.modified) <==> IsModified(d, n)
  {
    if IsModified(d, n) {
      var i :| 0 <= i < |d.modified| && d.modified[i].stageName == n;
      assert EntryNames(d.modified)[i] == n;
    }
    if n in EntryNames(d.modified) {
      var i :| 0 <= i < |d.modified| && EntryNames(d.modified)[i] == n;
      assert d.modified[i] in d.modified;
    }
  }

  /** The changed stages are those only one of the pipelines has and those
      reported modified. */
  lemma ChangedMeaning(base: Pipeline, proposed: Pipeline, n: string)
    ensures var d, b, p := DiffOf(base, proposed), StageTable(base.stages), StageTable(proposed.stages);
      n in ChangedNames(d) <==> (n in b) != (n in p) || IsModified(d, n)
  {
    var d, b, p := DiffOf(base, proposed), StageTable(base.stages), StageTable(proposed.stages);
    KeyOrderKeeps(StageNames(d.added) + StageNames(d.removed) + EntryNames(d.modified), n);
    StageTableKeys(base.stages);
    StageTableKeys(proposed.stages);
    MissingNames(StageKeys(proposed.stages), p, b, n);
    MissingNames(StageKeys(base.stages), b, p, n);
    EntryNamesMeaning(d, n);
  }

  lemma ChangedIsKnown(base: Pipeline, proposed: Pipeline, n: string)
    requires n in ChangedNames(DiffOf(base, proposed))
    ensures n in TieBreak(base, proposed)
  {
    ChangedMeaning(base, proposed, n);
    ModifiedMeaning(base, proposed, n);
    StageTableKeys(base.stages);
    StageTableKeys(proposed.stages);
    KeyOrderKeeps(StageNames(base.stages), n);
    KeyOrderKeeps(StageNames(proposed.stages), n);
    KeyOrderKeeps(StageNames(proposed.stages) + StageNames(base.stages), n);
  }

  /** The first changed stage of a greedy order has no changed strict
      ancestor. */
  lemma FirstHasNoChangedAncestor(tie: seq<string>, arcs: seq<Edge>, order: seq<string>, changed: seq<string>, n: string, a: string)
    requires Greedy(tie, arcs, order) && FirstChanged(order, changed, n) && n in order
    requires ReachesPlus(ArcSet(arcs), a, n)
    ensures a !in changed
  {
    GreedyIsTopological(tie, arcs, order);
    TopologicalIsDistinct(tie, arcs, order);
    var k :| 0 <= k < |order| && order[k] == n
      && ((exists i :: 0 <= i < |order| && order[i] in changed) ==> Untouched(order[..k], changed));
    var p :| PathFromTo(ArcSet(arcs), p, a, n) && |p| >= 2;
    var j := AncestorsPlacedEarlier(tie, arcs, order, p, k);
    assert order[..k][j] == a;
  }

  // ----- the graph and the tie-break, read off the pipelines -----

  /** Some stage of either pipeline has this name. */
  predicate Known(base: Pipeline, proposed: Pipeline, n: string) {
    (exists s :: s in base.stages && s.name == n) || (exists s :: s in proposed.stages && s.name == n)
  }

  predicate Leads(w: Wire, x: string, y: string) {
    w.from.FromStage? && w.from.stage == x && w.to.stage == y
  }

  /** The number of wires that lead from one stage to another. */
  function WiresBetween(wires: seq<Wire>, x: string, y: string): nat {
    if wires == [] then 0
    else WiresBetween(wires[..|wires| - 1], x, y) + if Leads(wires[|wires| - 1], x, y) then 1 else 0
  }

  lemma {:induction false} ArcsCountWires(wires: seq<Wire>, known: seq<string>, x: string, y: string)
    ensures multiset(ArcsOf(wires, known))[(x, y)] == if x in known && y in known then WiresBetween(wires, x, y) else 0
  {
    if wires != [] { ArcsCountWires(wires[..|wires| - 1], known, x, y); }
  }

  lemma {:induction false} BetweenSome(wires: seq<Wire>, x: string, y: string)
    ensures WiresBetween(wires, x, y) > 0 <==> exists w :: w in wires && Leads(w, x, y)
  {
    if wires != [] {
      BetweenSome(wires[..|wires| - 1], x, y);
      assert wires == wires[..|wires| - 1] + [wires[|wires| - 1]];
    }
  }

  lemma KnownNames(base: Pipeline, proposed: Pipeline, n: string)
    ensures n in TieBreak(base, proposed) <==> Known(base, proposed, n)
  {
    var b, p := StageNames(base.stages), StageNames(proposed.stages);
    KeyOrderKeeps(p + b, n);
    if n in p { var i :| 0 <= i < |p| && p[i] == n; assert proposed.stages[i] in proposed.stages; }
    if n in b { var i :| 0 <= i < |b| && b[i] == n; assert base.stages[i] in base.stages; }
    forall s | s in proposed.stages && s.name == n ensures n in p {
      var i :| 0 <= i < |proposed.stages| && proposed.stages[i] == s;
      assert p[i] == n;
    }
    forall s | s in base.stages && s.name == n ensures n in b {
      var i :| 0 <= i < |base.stages| && base.stages[i] == s;
      assert b[i] == n;
    }
  }

  /** The arcs of the sort are the wires of both pipelines between known stages,
      from the stage read to the stage reading, as often as there are wires. */
  lemma ArcsMeaning(base: Pipeline, proposed: Pipeline, x: string, y: string)
    ensures var arcs := ArcsOf(base.wires + proposed.wires, TieBreak(base, proposed));
      && multiset(arcs)[(x, y)] == (if Known(base, proposed, x) && Known(base, proposed, y)
                                    then WiresBetween(base.wires + proposed.wires, x, y) else 0)
      && ((x, y) in ArcSet(arcs) <==>
            Known(base, proposed, x) && Known(base, proposed, y)
            && exists w :: w in base.wires + proposed.wires && Leads(w, x, y))
  {
    KnownNames(base, proposed, x);
    KnownNames(base, proposed, y);
    ArcsCountWires(base.wires + proposed.wires, TieBreak(base, proposed), x, y);
    BetweenSome(base.wires + proposed.wires, x, y);
    var arcs := ArcsOf(base.wires + proposed.wires, TieBreak(base, proposed));
    assert (x, y) in arcs <==> multiset(arcs)[(x, y)] > 0;
  }

  /** The place of the first stage of this name, in a list of stages. */
  predicate FirstAt(stages: seq<Stage>, n: string, i: nat) {
    i < |stages| && stages[i].name == n && forall j :: 0 <= j < i ==> stages[j].name != n
  }

  lemma {:induction false} KeyOrderFirst(names: seq<string>, i: nat, j: nat)
    requires i < j < |names| && (forall k :: 0 <= k < i ==> names[k] != names[i])
    requires forall k :: 0 <= k < j ==> names[k] != names[j]
    ensures names[i] in KeyOrder(names) && names[j] in KeyOrder(names)
    ensures IndexOf(KeyOrder(names), names[i]) < IndexOf(KeyOrder(names), names[j])
  {
    var n := |names| - 1;
    var init := names[..n];
    assert names == init + [names[n]];
    KeyOrderKeeps(names, names[i]);
    KeyOrderKeeps(names, names[j]);
    KeyOrderKeeps(init, names[i]);
    assert init[i] == names[i];
    if j < n {
      assert init[j] == names[j];
      KeyOrderFirst(init, i, j);
      KeyOrderKeeps(init, names[j]);
      if names[n] !in KeyOrder(init) {
        IndexAppend(KeyOrder(init), names[n], names[i]);
        IndexAppend(KeyOrder(init), names[n], names[j]);
      }
    } else {
      KeyOrderKeeps(init, names[n]);
      forall k | 0 <= k < n ensures init[k] != names[n] { assert names[k] != names[j]; }
      IndexAppend(KeyOrder(init), names[n], names[i]);
      IndexAppend(KeyOrder(init), names[n], names[n]);
    }
  }

  /** Appending a new name does not move what is there, and puts it last. */
  lemma IndexAppend(s: seq<string>, x: string, n: string)
    requires Distinct(s) && x !in s && (n in s || n == x)
    ensures IndexOf(s + [x], n) == if n in s then IndexOf(s, n) else |s|
  {
    var k := IndexOf(s + [x], n);
    if n in s { assert (s + [x])[IndexOf(s, n)] == n; }
    assert Distinct(s + [x]);
  }

  /** The tie-break order holds every known stage once, by first appearance in
      the proposed pipeline followed by the base pipeline. */
  lemma TieBreakMeaning(base: Pipeline, proposed: Pipeline)
    ensures Distinct(TieBreak(base, proposed))
    ensures forall n :: n in TieBreak(base, proposed) <==> Known(base, proposed, n)
    ensures var all := proposed.stages + base.stages;
      forall i, j :: 0 <= i < j < |all| && FirstAt(all, all[i].name, i) && FirstAt(all, all[j].name, j) ==>
        Precedes(base, proposed, all[i].name, all[j].name)
  {
    var all, names := proposed.stages + base.stages, StageNames(proposed.stages) + StageNames(base.stages);
    forall n ensures n in TieBreak(base, proposed) <==> Known(base, proposed, n) { KnownNames(base, proposed, n); }
    assert forall k :: 0 <= k < |all| ==> names[k] == all[k].name;
    forall i, j | 0 <= i < j < |all| && FirstAt(all, all[i].name, i) && FirstAt(all, all[j].name, j)
      ensures Precedes(base, proposed, all[i].name, all[j].name)
    {
      KeyOrderFirst(names, i, j);
    }
  }

  predicate Precedes(base: Pipeline, proposed: Pipeline, x: string, y: string) {
    var tie := TieBreak(base, proposed);
    x in tie && y in tie && IndexOf(tie, x) < IndexOf(tie, y)
  }

  /** The wires of both pipelines that lead from stage to stage, feedback wires
      too. */
  ghost function WireGraph(base: Pipeline, proposed: Pipeline): set<Edge> {
    set w | w in base.wires + proposed.wires && w.from.FromStage?
            && Known(base, proposed, w.from.stage) && Known(base, proposed, w.to.stage)
      :: (w.from.stage, w.to.stage)
  }

  lemma WireGraphIsArcs(base: Pipeline, proposed: Pipeline)
    ensures WireGraph(base, proposed) == ArcSet(ArcsOf(base.wires + proposed.wires, TieBreak(base, proposed)))
  {
    var arcs := ArcSet(ArcsOf(base.wires + proposed.wires, TieBreak(base, proposed)));
    forall x, y ensures (x, y) in WireGraph(base, proposed) <==> (x, y) in arcs {
      ArcsMeaning(base, proposed, x, y);
      if (x, y) in arcs {
        var w :| w in base.wires + proposed.wires && Leads(w, x, y);
      }
    }
    assert forall e :: e in WireGraph(base, proposed) <==> e in arcs by {
      forall e ensures e in WireGraph(base, proposed) <==> e in arcs { assert e == (e.0, e.1); }
    }
  }

  /** Some changed stage is not downstream of a cycle. */
  ghost predicate SomeChangedIsOrdered(base: Pipeline, proposed: Pipeline) {
    exists x :: x in ChangedNames(DiffOf(base, proposed)) && !BehindCycle(WireGraph(base, proposed), x)
  }

  /** If some changed stage lies outside all cycles and their downstream, the
      divergence stage is such a one and no strict ancestor of it has changed;
      otherwise it is the first changed stage reported. */
  lemma EarliestHasNoChangedAncestor(base: Pipeline, proposed: Pipeline, n: string)
    requires IsDivergence(base, proposed, n)
    ensures n in ChangedNames(DiffOf(base, proposed))
    ensures SomeChangedIsOrdered(base, proposed) ==>
              !BehindCycle(WireGraph(base, proposed), n)
              && forall a :: ReachesPlus(WireGraph(base, proposed), a, n) ==> a !in ChangedNames(DiffOf(base, proposed))
    ensures !SomeChangedIsOrdered(base, proposed) ==> n == ChangedNames(DiffOf(base, proposed))[0]
  {
    var tie, changed := TieBreak(base, proposed), ChangedNames(DiffOf(base, proposed));
    var arcs := ArcsOf(base.wires + proposed.wires, tie);
    var order :| Greedy(tie, arcs, order) && FirstChanged(order, changed, n);
    WireGraphIsArcs(base, proposed);
    ChangedReached(base, proposed, order);
    if SomeChangedIsOrdered(base, proposed) {
      assert n in order;
      ChangedIsKnown(base, proposed, n);
      PlacedIffNotBehindCycle(tie, arcs, order, n);
      forall a | ReachesPlus(ArcSet(arcs), a, n) ensures a !in changed {
        FirstHasNoChangedAncestor(tie, arcs, order, changed, n, a);
      }
    }
  }

  /** In the sorted order no changed stage stands before the divergence stage. */
  lemma DivergenceIsFirst(base: Pipeline, proposed: Pipeline, n: string) returns (order: seq<string>)
    requires IsDivergence(base, proposed, n) && SomeChangedIsOrdered(base, proposed)
    ensures Greedy(TieBreak(base, proposed), ArcsOf(base.wires + proposed.wires, TieBreak(base, proposed)), order)
    ensures n in order && forall x :: x in ChangedNames(DiffOf(base, proposed)) && x in order ==> IndexOf(order, n) <= IndexOf(order, x)
  {
    var tie, changed := TieBreak(base, proposed), ChangedNames(DiffOf(base, proposed));
    var arcs := ArcsOf(base.wires + proposed.wires, tie);
    order :| Greedy(tie, arcs, order) && FirstChanged(order, changed, n);
    WireGraphIsArcs(base, proposed);
    ChangedReached(base, proposed, order);
    GreedyIsTopological(tie, arcs, order);
    TopologicalIsDistinct(tie, arcs, order);
    var k :| 0 <= k < |order| && order[k] == n && Untouched(order[..k], changed);
    forall t | 0 <= t < k ensures order[t] !in changed { assert order[..k][t] == order[t]; }
    forall x | x in changed && x in order ensures IndexOf(order, n) <= IndexOf(order, x) {
      assert order[IndexOf(order, x)] in changed && IndexOf(order, n) == k;
    }
  }

  /** The order holds a changed stage exactly if one is not behind a cycle. */
  lemma ChangedReached(base: Pipeline, proposed: Pipeline, order: seq<string>)
    requires Greedy(TieBreak(base, proposed), ArcsOf(base.wires + proposed.wires, TieBreak(base, proposed)), order)
    ensures SomeChangedIsOrdered(base, proposed)
            <==> exists k :: 0 <= k < |order| && order[k] in ChangedNames(DiffOf(base, proposed))
  {
    var tie, changed := TieBreak(base, proposed), ChangedNames(DiffOf(base, proposed));
    var arcs := ArcsOf(base.wires + proposed.wires, tie);
    WireGraphIsArcs(base, proposed);
    forall x | x in changed ensures x in order <==> !BehindCycle(ArcSet(arcs), x) {
      ChangedIsKnown(base, proposed, x);
      PlacedIffNotBehindCycle(tie, arcs, order, x);
    }
  }

  // ----- readers along wires -----

  function WireEdges(wires: seq<Wire>): set<Edge> {
    set w | w in wires && w.from.FromStage? :: (w.from.stage, w.to.stage)
  }

  /** The targets of the wires out of `cur`, one per wire. */
  function TargetsOf(wires: seq<Wire>, cur: string): seq<string> {
    if wires == [] then []
    else
      var rest, w := TargetsOf(wires[..|wires| - 1], cur), wires[|wires| - 1];
      if w.from.FromStage? && w.from.stage == cur then rest + [w.to.stage] else rest
  }

  lemma {:induction false} TargetsOfMeaning(wires: seq<Wire>, cur: string, t: string)
    ensures t in TargetsOf(wires, cur) <==> (cur, t) in WireEdges(wires)
  {
    if wires != [] {
      var init, w := wires[..|wires| - 1], wires[|wires| - 1];
      assert wires == init + [w];
      TargetsOfMeaning(init, cur, t);
    }
  }

  /** One stage reads another exactly if some wire leads there. */
  lemma ReadersMeaning(wires: seq<Wire>, x: string, y: string)
    ensures (x, y) in WireEdges(wires) <==> exists w :: w in wires && Leads(w, x, y)
  {
    if (x, y) in WireEdges(wires) {
      var w :| w in wires && w.from.FromStage? && (x, y) == (w.from.stage, w.to.stage);
      assert Leads(w, x, y);
    }
  }

  /** The inner loop of the search, over all wires. */
  method ScanWires(wires: seq<Wire>, cur: string, visited: seq<string>, queue: seq<string>) returns (v: seq<string>, q: seq<string>)
    requires Distinct(visited)
    ensures Visited(visited, queue, TargetsOf(wires, cur), v, q)
  {
    v, q := visited, queue;
    for k := 0 to |wires|
      invariant visited <= v && queue <= q && Distinct(v)
      invariant forall x :: x in v <==> x in visited || x in TargetsOf(wires[..k], cur)
      invariant forall x :: x in q <==> x in queue || (x in TargetsOf(wires[..k], cur) && x !in visited)
      invariant v == visited ==> q == queue
      invariant forall k :: |visited| <= k < |v| ==> v[k] !in visited
    {
      assert wires[..k + 1][..k] == wires[..k];
      var w := wires[k];
      if WireFromStage(w) == Some(cur) && w.to.stage !in v {
        v, q := v + [w.to.stage], q + [w.to.stage];
      }
    }
    assert wires[..|wires|] == wires;
  }

  /** Everything downstream of a stage along wires, feedback wires included;
      nothing for an unknown stage. */
  method ComputeWireTransitiveReaders(ir: Pipeline, start: string) returns (visited: seq<string>)
    ensures start in StageNames(ir.stages) ==> forall t :: t in visited <==> Reaches(WireEdges(ir.wires), start, t)
    ensures start !in StageNames(ir.stages) ==> visited == []
    ensures Distinct(visited)
  {
    if start !in StageNames(ir.stages) { return []; }
    ghost var edges := WireEdges(ir.wires);
    visited := [start];
    var queue := [start];
    BfsStart(edges, start);
    while queue != []
      invariant BfsState(edges, start, visited, queue)
      decreases Unvisited(edges, start, visited), |queue|
    {
      var cur := queue[0];
      assert queue == [cur] + queue[1..];
      queue := queue[1..];
      var v, q := ScanWires(ir.wires, cur, visited, queue);
      forall t { TargetsOfMeaning(ir.wires, cur, t); }
      BfsExpand(edges, start, visited, cur, queue, TargetsOf(ir.wires, cur), v, q);
      visited, queue := v, q;
    }
    BfsDone(edges, start, visited);
  }
}
