/** The structural diff of two pipelines and the safe-range verdict on it. */
module Diff {
  import opened Ir
  import opened Tables

  datatype Change<T> = Change(before: T, after: T)

  datatype PortTypeChange = PortTypeChange(port: string, before: string, after: string)

  datatype PortsDiff = PortsDiff(added: seq<Port>, removed: seq<Port>, typeChanged: seq<PortTypeChange>)

  datatype Changes = Changes(
    promptRef: Option<Change<string>>, code: Option<Change<Code>>, question: Option<Change<string>>,
    inputs: Option<PortsDiff>, outputs: Option<PortsDiff>)

  datatype Category = PromptOnly | PortsOnly | BudgetOnly | Structural

  datatype StageDiff = StageDiff(stageName: string, changes: Changes, category: Category)

  datatype RoutingChange = RoutingChange(stageName: string, before: seq<Route>, after: seq<Route>)

  datatype PipelineDiff = PipelineDiff(
    added: seq<Stage>, removed: seq<Stage>, modified: seq<StageDiff>,
    wiresAdded: seq<Wire>, wiresRemoved: seq<Wire>,
    routing: seq<RoutingChange>, categories: seq<Category>)

  const NO_CHANGES := Changes(None, None, None, None, None)

  // ----- ports -----

  /** The ports of `own` under `keys` that `other` lacks, in key order. */
  function PortsMissing(keys: seq<string>, own: map<string, Port>, other: map<string, Port>): seq<Port>
  {
    if keys == [] then []
    else
      var rest, n := PortsMissing(keys[..|keys| - 1], own, other), keys[|keys| - 1];
      if n in own && n !in other then rest + [own[n]] else rest
  }

  function Retyped(keys: seq<string>, own: map<string, Port>, other: map<string, Port>): seq<PortTypeChange>
  {
    if keys == [] then []
    else
      var rest, n := Retyped(keys[..|keys| - 1], own, other), keys[|keys| - 1];
      if n in own && n in other && other[n].typ != own[n].typ then rest + [PortTypeChange(n, other[n].typ, own[n].typ)] else rest
  }

  function PortsDiffOf(base: seq<Port>, proposed: seq<Port>): Option<PortsDiff> {
    var b, p := PortTable(base), PortTable(proposed);
    var added := PortsMissing(PortKeys(proposed), p, b);
    var removed := PortsMissing(PortKeys(base), b, p);
    var changed := Retyped(PortKeys(proposed), p, b);
    if added == [] && removed == [] && changed == [] then None else Some(PortsDiff(added, removed, changed))
  }

  method ScanPorts(keys: seq<string>, own: map<string, Port>, other: map<string, Port>)
    returns (missing: seq<Port>, changed: seq<PortTypeChange>)
    requires forall n :: n in keys ==> n in own
    ensures missing == PortsMissing(keys, own, other) && changed == Retyped(keys, own, other)
  {
    missing, changed := [], [];
    for k := 0 to |keys|
      invariant missing == PortsMissing(keys[..k], own, other) && changed == Retyped(keys[..k], own, other)
    {
      var n := keys[k];
      assert keys[..k + 1][..k] == keys[..k];
      if n !in other {
        missing := missing + [own[n]];
      } else if other[n].typ != own[n].typ {
        changed := changed + [PortTypeChange(n, other[n].typ, own[n].typ)];
      }
    }
    assert keys[..|keys|] == keys;
  }

  method DiffPorts(base: seq<Port>, proposed: seq<Port>) returns (d: Option<PortsDiff>)
    ensures d == PortsDiffOf(base, proposed)
  {
    var bKeys, b := BuildPortTable(base);
    var pKeys, p := BuildPortTable(proposed);
    var added, changed := ScanPorts(pKeys, p, b);
    var removed, _ := ScanPorts(bKeys, b, p);
    d := if added == [] && removed == [] && changed == [] then None else Some(PortsDiff(added, removed, changed));
  }

  // ----- one stage -----

  predicate SameType(b: Stage, p: Stage) {
    && (b.kind.Agent? <==> p.kind.Agent?) && (b.kind.Gate? <==> p.kind.Gate?)
  }

  function ChangeOf<T(==)>(before: T, after: T): Option<Change<T>> {
    if before == after then None else Some(Change(before, after))
  }

  /** Field changes of a stage present on both sides with the same type. */
  function ChangesOf(b: Stage, p: Stage): Changes
    requires SameType(b, p)
  {
    Changes(
      if b.kind.Agent? then ChangeOf(b.kind.promptRef, p.kind.promptRef) else None,
      if b.kind.Script? then ChangeOf(b.kind.code, p.kind.code) else None,
      if b.kind.Gate? then ChangeOf(b.kind.question, p.kind.question) else None,
      PortsDiffOf(b.inputs, p.inputs), PortsDiffOf(b.outputs, p.outputs))
  }

  predicate Rerouted(b: Stage, p: Stage)
    requires SameType(b, p)
  {
    b.kind.Gate? && b.kind.routes != p.kind.routes
  }

  function Classify(c: Changes, rerouted: bool): Category {
    if rerouted then Structural
    else if c == NO_CHANGES then Structural
    else if c.(promptRef := None) == NO_CHANGES then PromptOnly
    else Structural
  }

  /** The entry a stage contributes to the modified list, if any. */
  function StageEntry(b: Stage, p: Stage): Option<StageDiff> {
    if !SameType(b, p) then Some(StageDiff(b.name, NO_CHANGES, Structural))
    else if ChangesOf(b, p) == NO_CHANGES && !Rerouted(b, p) then None
    else Some(StageDiff(b.name, ChangesOf(b, p), Classify(ChangesOf(b, p), Rerouted(b, p))))
  }

  // ----- the whole diff -----

  function StagesMissing(keys: seq<string>, own: map<string, Stage>, other: map<string, Stage>): seq<Stage>
  {
    if keys == [] then []
    else
      var rest, n := StagesMissing(keys[..|keys| - 1], own, other), keys[|keys| - 1];
      if n in own && n !in other then rest + [own[n]] else rest
  }

  function Modified(keys: seq<string>, b: map<string, Stage>, p: map<string, Stage>): seq<StageDiff>
  {
    if keys == [] then []
    else
      var rest, n := Modified(keys[..|keys| - 1], b, p), keys[|keys| - 1];
      if n in b && n in p && StageEntry(b[n], p[n]).Some? then rest + [StageEntry(b[n], p[n]).value] else rest
  }

  function RoutingChanges(keys: seq<string>, b: map<string, Stage>, p: map<string, Stage>): seq<RoutingChange>
  {
    if keys == [] then []
    else
      var rest, n := RoutingChanges(keys[..|keys| - 1], b, p), keys[|keys| - 1];
      if n in b && n in p && SameType(b[n], p[n]) && Rerouted(b[n], p[n])
      then rest + [RoutingChange(n, b[n].kind.routes, p[n].kind.routes)] else rest
  }

  datatype WireKey = WireKey(from: Source, to: Endpoint, guard: string)

  /** An absent guard and an empty one give the same key. */
  function KeyOfWire(w: Wire): WireKey {
    WireKey(w.from, w.to, if w.guard.Some? then w.guard.value else "")
  }

  function WireKeys(wires: seq<Wire>): set<WireKey> {
    set w | w in wires :: KeyOfWire(w)
  }

  function WiresMissing(wires: seq<Wire>, keys: set<WireKey>): seq<Wire> {
    if wires == [] then []
    else
      var rest, w := WiresMissing(wires[..|wires| - 1], keys), wires[|wires| - 1];
      if KeyOfWire(w) in keys then rest else rest + [w]
  }

  function AddCategory(cs: seq<Category>, c: Category): seq<Category> {
    if c in cs then cs else cs + [c]
  }

  /** Categories in order of first appearance. */
  function Categories(cs: seq<Category>, stages: seq<StageDiff>): seq<Category> {
    if stages == [] then cs
    else AddCategory(Categories(cs, stages[..|stages| - 1]), stages[|stages| - 1].category)
  }

  function DiffOf(base: Pipeline, proposed: Pipeline): PipelineDiff {
    var b, p := StageTable(base.stages), StageTable(proposed.stages);
    var bKeys, pKeys := StageKeys(base.stages), StageKeys(proposed.stages);
    var added, removed := StagesMissing(pKeys, p, b), StagesMissing(bKeys, b, p);
    var modified := Modified(bKeys, b, p);
    var wiresAdded := WiresMissing(proposed.wires, WireKeys(base.wires));
    var wiresRemoved := WiresMissing(base.wires, WireKeys(proposed.wires));
    var presence := if added != [] || removed != [] then [Structural] else [];
    var stagewise := Categories(presence, modified);
    var all := if wiresAdded != [] || wiresRemoved != [] then AddCategory(stagewise, Structural) else stagewise;
    PipelineDiff(added, removed, modified, wiresAdded, wiresRemoved, RoutingChanges(bKeys, b, p), all)
  }

  method FilterWires(wires: seq<Wire>, keys: set<WireKey>) returns (r: seq<Wire>)
    ensures r == WiresMissing(wires, keys)
  {
    r := [];
    for k := 0 to |wires|
      invariant r == WiresMissing(wires[..k], keys)
    {
      assert wires[..k + 1][..k] == wires[..k];
      if KeyOfWire(wires[k]) !in keys { r := r + [wires[k]]; }
    }
    assert wires[..|wires|] == wires;
  }

  method DiffStage(b: Stage, p: Stage) returns (entry: Option<StageDiff>, reroute: Option<RoutingChange>)
    ensures entry == StageEntry(b, p)
    ensures reroute == if SameType(b, p) && Rerouted(b, p)
                       then Some(RoutingChange(b.name, b.kind.routes, p.kind.routes)) else None
  {
    entry, reroute := None, None;
    if !SameType(b, p) {
      entry := Some(StageDiff(b.name, NO_CHANGES, Structural));
      return;
    }
    var changes := NO_CHANGES;
    var inputs := DiffPorts(b.inputs, p.inputs);
    var outputs := DiffPorts(b.outputs, p.outputs);
    changes := changes.(inputs := inputs, outputs := outputs);
    if b.kind.Agent? {
      if b.kind.promptRef != p.kind.promptRef { changes := changes.(promptRef := Some(Change(b.kind.promptRef, p.kind.promptRef))); }
    } else if b.kind.Script? {
      if b.kind.code != p.kind.code { changes := changes.(code := Some(Change(b.kind.code, p.kind.code))); }
    } else {
      if b.kind.question != p.kind.question { changes := changes.(question := Some(Change(b.kind.question, p.kind.question))); }
      if b.kind.routes != p.kind.routes { reroute := Some(RoutingChange(b.name, b.kind.routes, p.kind.routes)); }
    }
    if changes != NO_CHANGES || reroute.Some? {
      entry := Some(StageDiff(b.name, changes, Classify(changes, reroute.Some?)));
    }
  }

  method MissingStages(keys: seq<string>, own: map<string, Stage>, other: map<string, Stage>) returns (missing: seq<Stage>)
    requires forall n :: n in keys ==> n in own
    ensures missing == StagesMissing(keys, own, other)
  {
    missing := [];
    for k := 0 to |keys|
      invariant missing == StagesMissing(keys[..k], own, other)
    {
      assert keys[..k + 1][..k] == keys[..k];
      if keys[k] !in other { missing := missing + [own[keys[k]]]; }
    }
    assert keys[..|keys|] == keys;
  }

  /** The stages on both sides, compared one by one. */
  method CompareStages(keys: seq<string>, b: map<string, Stage>, p: map<string, Stage>, presence: seq<Category>)
    returns (modified: seq<StageDiff>, routing: seq<RoutingChange>, categories: seq<Category>)
    requires forall n :: n in keys ==> n in b && b[n].name == n
    ensures modified == Modified(keys, b, p) && routing == RoutingChanges(keys, b, p)
    ensures categories == Categories(presence, modified)
  {
    modified, routing, categories := [], [], presence;
    for k := 0 to |keys|
      invariant modified == Modified(keys[..k], b, p) && routing == RoutingChanges(keys[..k], b, p)
      invariant categories == Categories(presence, modified)
    {
      assert keys[..k + 1][..k] == keys[..k];
      var n := keys[k];
      if n in p {
        var entry, reroute := DiffStage(b[n], p[n]);
        if reroute.Some? { routing := routing + [reroute.value]; }
        if entry.Some? {
          assert (modified + [entry.value])[..|modified|] == modified;
          modified, categories := modified + [entry.value], AddCategory(categories, entry.value.category);
        }
      }
    }
    assert keys[..|keys|] == keys;
  }

  method ComputePipelineDiff(base: Pipeline, proposed: Pipeline) returns (d: PipelineDiff)
    ensures d == DiffOf(base, proposed)
  {
    var bKeys, b := BuildStageTable(base.stages);
    var pKeys, p := BuildStageTable(proposed.stages);
    var added := MissingStages(pKeys, p, b);
    var removed := MissingStages(bKeys, b, p);
    var presence := if added != [] || removed != [] then [Structural] else [];
    var modified, routing, categories := CompareStages(bKeys, b, p, presence);
    var wiresAdded := FilterWires(proposed.wires, WireKeys(base.wires));
    var wiresRemoved := FilterWires(base.wires, WireKeys(proposed.wires));
    if wiresAdded != [] || wiresRemoved != [] { categories := AddCategory(categories, Structural); }
    d := PipelineDiff(added, removed, modified, wiresAdded, wiresRemoved, routing, categories);
  }
}
