/** The deterministic repair of generated pipelines: five passes that only
    rewire, add missing ports and bundle over-fanned outputs, or give up. */
module Repair {
  import opened Text
  import opened Ir
  import opened Tables

  datatype Result<+T> = Ok(value: T) | Thrown

  /** What was repaired, in place of the log text. */
  datatype Fix =
    | RemovedDuplicates(count: nat)
    | RenamedTarget(stage: string, port: string, chosen: string)
    | RenamedSource(stage: string, port: string, chosen: string)
    | AddedInput(stage: string, port: string)
    | RewiredSource(stage: string, port: string, chosen: string)
    | BundledOutputs(stage: string, port: string, count: nat)
    | AddedExternal(port: string)

  datatype Repaired = Repaired(ir: Pipeline, fixes: seq<Fix>)

  type Table = map<string, Stage>

  // ----- strings -----

  function LowerChar(c: char): char {
    if 'A' <= c <= 'Z' then c - 'A' + 'a' else c
  }

  function Lower(s: string): string {
    seq(|s|, i requires 0 <= i < |s| => LowerChar(s[i]))
  }

  predicate EndsWith(s: string, t: string) {
    |t| <= |s| && s[|s| - |t|..] == t
  }

  predicate OccursAt(s: string, t: string, i: nat) {
    i + |t| <= |s| && s[i..i + |t|] == t
  }

  predicate Includes(s: string, t: string) {
    exists i :: 0 <= i <= |s| && OccursAt(s, t, i)
  }

  /** The relaxed name match. */
  predicate Similar(name: string, wanted: string) {
    var n, w := Lower(name), Lower(wanted);
    n == w || EndsWith(n, w) || EndsWith(w, n) || Includes(n, w) || Includes(w, n)
  }

  function Candidates(names: seq<string>, wanted: string): seq<string> {
    if names == [] then []
    else
      var rest, n := Candidates(names[..|names| - 1], wanted), names[|names| - 1];
      if Similar(n, wanted) then rest + [n] else rest
  }

  /** The text without white space. */
  function Compact(t: string): string {
    if t == [] then []
    else if IsSpace(t[|t| - 1]) then Compact(t[..|t| - 1])
    else Compact(t[..|t| - 1]) + [t[|t| - 1]]
  }

  predicate IsObjectArray(t: string) {
    var c := Compact(t);
    "Array<{" <= c || "Array<Record<" <= c || (|c| >= 4 && c[0] == '{' && EndsWith(c, "}[]"))
  }

  predicate IsScalarArray(t: string) {
    Compact(t) in {"string[]", "number[]", "boolean[]", "Array<string>", "Array<number>", "Array<boolean>"}
  }

  predicate IsObjectType(t: string) {
    Compact(t) != "" && Compact(t)[0] == '{'
  }

  // ----- ports -----

  /** The first port of that name. */
  function FindPort(ports: seq<Port>, name: string): (r: Option<Port>)
    ensures r.None? <==> name !in PortNames(ports)
    ensures r.Some? ==> r.value in ports && r.value.name == name
  {
    if ports == [] then None
    else if ports[0].name == name then assert PortNames(ports)[0] == name; Some(ports[0])
    else
      assert PortNames(ports) == [ports[0].name] + PortNames(ports[1..]);
      FindPort(ports[1..], name)
  }

  /** The type of the wire's target port, empty if there is none. */
  function TargetType(table: Table, w: Wire): string {
    if w.to.stage in table then
      match FindPort(table[w.to.stage].inputs, w.to.port)
      case Some(p) => p.typ
      case None => ""
    else ""
  }

  // ----- pass 1: duplicate wires -----

  function Dedupe(wires: seq<Wire>): seq<Wire> {
    if wires == [] then []
    else
      var rest, w := Dedupe(wires[..|wires| - 1]), wires[|wires| - 1];
      if w in rest then rest else rest + [w]
  }

  method DedupeWires(wires: seq<Wire>) returns (r: seq<Wire>)
    ensures r == Dedupe(wires)
  {
    var seen: set<Wire> := {};
    r := [];
    for k := 0 to |wires|
      invariant r == Dedupe(wires[..k]) && forall w :: w in seen <==> w in r
    {
      assert wires[..k + 1][..k] == wires[..k];
      if wires[k] !in seen { seen, r := seen + {wires[k]}, r + [wires[k]]; }
    }
    assert wires[..|wires|] == wires;
  }

  // ----- passes that rewrite wires one by one -----

  datatype Rewrite = Rewrite(wire: Wire, fixes: seq<Fix>)

  /** Rewriting a list of wires: all results in order, or the failure of one. */
  function RewriteAll(wires: seq<Wire>, fix: Wire -> Result<Rewrite>): Result<(seq<Wire>, seq<Fix>)> {
    if wires == [] then Ok(([], []))
    else
      match RewriteAll(wires[..|wires| - 1], fix)
      case Thrown => Thrown
      case Ok((ws, fixes)) =>
        match fix(wires[|wires| - 1])
        case Thrown => Thrown
        case Ok(r) => Ok((ws + [r.wire], fixes + r.fixes))
  }

  lemma {:induction false} ThrowSticks(wires: seq<Wire>, fix: Wire -> Result<Rewrite>, k: nat)
    requires k < |wires| && fix(wires[k]).Thrown?
    ensures RewriteAll(wires, fix).Thrown?
  {
    if k < |wires| - 1 { ThrowSticks(wires[..|wires| - 1], fix, k); }
  }

  method RewriteWires(wires: seq<Wire>, fix: Wire -> Result<Rewrite>) returns (r: Result<(seq<Wire>, seq<Fix>)>)
    ensures r == RewriteAll(wires, fix)
  {
    var newWires, fixes := [], [];
    for k := 0 to |wires|
      invariant RewriteAll(wires[..k], fix) == Ok((newWires, fixes))
    {
      assert wires[..k + 1][..k] == wires[..k];
      var out := fix(wires[k]);
      if out.Thrown? {
        ThrowSticks(wires, fix, k);
        return Thrown;
      }
      newWires, fixes := newWires + [out.value.wire], fixes + out.value.fixes;
    }
    assert wires[..|wires|] == wires;
    r := Ok((newWires, fixes));
  }

  // ----- pass 2: misspelled port names -----

  /** Target side: an undeclared target port becomes the one similar input. */
  function FixTarget(table: Table, w: Wire): Result<Rewrite> {
    if w.to.stage !in table || w.to.port in PortNames(table[w.to.stage].inputs) then Ok(Rewrite(w, []))
    else
      var found := Candidates(PortNames(table[w.to.stage].inputs), w.to.port);
      if |found| > 1 then Thrown
      else if |found| == 1 then
        Ok(Rewrite(w.(to := w.to.(port := found[0])), [RenamedTarget(w.to.stage, w.to.port, found[0])]))
      else Ok(Rewrite(w, []))
  }

  /** Source side, for stages without fanout. */
  function FixSource(table: Table, w: Wire): Result<Rewrite> {
    match w.from
    case External(_) => Ok(Rewrite(w, []))
    case FromStage(s, p) =>
      if s !in table || table[s].fanout || p in PortNames(table[s].outputs) then Ok(Rewrite(w, []))
      else
        var found := Candidates(PortNames(table[s].outputs), p);
        if |found| > 1 then Thrown
        else if |found| == 1 then Ok(Rewrite(w.(from := FromStage(s, found[0])), [RenamedSource(s, p, found[0])]))
        else Ok(Rewrite(w, []))
  }

  function FixNames(table: Table, w: Wire): Result<Rewrite> {
    match FixTarget(table, w)
    case Thrown => Thrown
    case Ok(t) =>
      match FixSource(table, t.wire)
      case Thrown => Thrown
      case Ok(s) => Ok(Rewrite(s.wire, t.fixes + s.fixes))
  }

  // ----- pass 3: missing input ports -----

  /** The type of the source port, where it is known. */
  function InferType(table: Table, from: Source): string {
    match from
    case External(_) => "string"
    case FromStage(s, p) =>
      if p == GATE_FEEDBACK || s !in table then "string"
      else
        match FindPort(table[s].outputs, p)
        case Some(port) => port.typ
        case None => "string"
  }

  function Additions(adds: map<string, seq<Port>>, stage: string): seq<Port> {
    if stage in adds then adds[stage] else []
  }

  predicate LacksInput(table: Table, adds: map<string, seq<Port>>, w: Wire) {
    && w.to.stage in table
    && w.to.port !in PortNames(table[w.to.stage].inputs)
    && w.to.port !in PortNames(Additions(adds, w.to.stage))
  }

  function AddFor(table: Table, adds: map<string, seq<Port>>, w: Wire): map<string, seq<Port>> {
    adds[w.to.stage := Additions(adds, w.to.stage) + [Port(w.to.port, InferType(table, w.from), false)]]
  }

  /** Input ports to add, stage by stage, in wire order. */
  function MissingInputs(table: Table, wires: seq<Wire>): (map<string, seq<Port>>, seq<Fix>) {
    if wires == [] then (map[], [])
    else
      var (adds, fixes) := MissingInputs(table, wires[..|wires| - 1]);
      var w := wires[|wires| - 1];
      if LacksInput(table, adds, w) then (AddFor(table, adds, w), fixes + [AddedInput(w.to.stage, w.to.port)])
      else (adds, fixes)
  }

  function WithInputs(stages: seq<Stage>, adds: map<string, seq<Port>>): (r: seq<Stage>)
    ensures |r| == |stages|
  {
    seq(|stages|, i requires 0 <= i < |stages| =>
      if Additions(adds, stages[i].name) == [] then stages[i]
      else stages[i].(inputs := stages[i].inputs + Additions(adds, stages[i].name)))
  }

  function InputsBackfilled(ir: Pipeline): Repaired {
    var (adds, fixes) := MissingInputs(StageTable(ir.stages), ir.wires);
    Repaired(ir.(stages := WithInputs(ir.stages, adds)), fixes)
  }

  method BackfillMissingTargetInputs(ir: Pipeline) returns (r: Repaired)
    ensures r == InputsBackfilled(ir)
  {
    var _, table := BuildStageTable(ir.stages);
    var adds: map<string, seq<Port>>, fixes: seq<Fix> := map[], [];
    for k := 0 to |ir.wires|
      invariant (adds, fixes) == MissingInputs(table, ir.wires[..k])
    {
      assert ir.wires[..k + 1][..k] == ir.wires[..k];
      var w := ir.wires[k];
      if LacksInput(table, adds, w) {
        adds, fixes := AddFor(table, adds, w), fixes + [AddedInput(w.to.stage, w.to.port)];
      }
    }
    assert ir.wires[..|ir.wires|] == ir.wires;
    var stages := [];
    for k := 0 to |ir.stages|
      invariant |stages| == k && forall i :: 0 <= i < k ==> stages[i] == WithInputs(ir.stages, adds)[i]
    {
      var s, more := ir.stages[k], Additions(adds, ir.stages[k].name);
      stages := stages + [if more == [] then s else s.(inputs := s.inputs + more)];
    }
    assert stages == WithInputs(ir.stages, adds);
    r := Repaired(ir.(stages := stages), fixes);
  }

  // ----- pass 4, first half: sources that do not exist -----

  function ObjectOutputs(ports: seq<Port>): seq<Port> {
    if ports == [] then []
    else
      var rest, p := ObjectOutputs(ports[..|ports| - 1]), ports[|ports| - 1];
      if IsObjectType(p.typ) then rest + [p] else rest
  }

  /** The first output named within the target's name, else the first whose
      name holds the target's. */
  function FirstWithin(outputs: seq<Port>, lower: string): Option<Port> {
    if outputs == [] then None
    else if Includes(lower, Lower(outputs[0].name)) then Some(outputs[0])
    else FirstWithin(outputs[1..], lower)
  }

  function FirstAround(outputs: seq<Port>, lower: string): Option<Port> {
    if outputs == [] then None
    else if Includes(Lower(outputs[0].name), lower) then Some(outputs[0])
    else FirstAround(outputs[1..], lower)
  }

  function ElementOutput(outputs: seq<Port>, target: string): Option<Port> {
    if FirstWithin(outputs, Lower(target)).Some? then FirstWithin(outputs, Lower(target))
    else FirstAround(outputs, Lower(target))
  }

  function Rewire(w: Wire, s: string, chosen: string): Rewrite
    requires w.from.FromStage?
  {
    Rewrite(w.(from := FromStage(s, chosen)), [RewiredSource(s, w.from.port, chosen)])
  }

  function FixShape(table: Table, w: Wire): Result<Rewrite> {
    match w.from
    case External(_) => Ok(Rewrite(w, []))
    case FromStage(s, p) =>
      if s !in table || p in PortNames(table[s].outputs) then Ok(Rewrite(w, []))
      else if !table[s].fanout then
        var found := Candidates(PortNames(table[s].outputs), p);
        if |found| == 1 then Ok(Rewire(w, s, found[0])) else Ok(Rewrite(w, []))
      else if IsObjectArray(TargetType(table, w)) then
        var objects := ObjectOutputs(table[s].outputs);
        if |objects| == 1 then Ok(Rewire(w, s, objects[0].name))
        else if |objects| == 0 then Ok(Rewrite(w, []))
        else Thrown
      else if IsScalarArray(TargetType(table, w)) then
        match ElementOutput(table[s].outputs, w.to.port)
        case Some(port) => Ok(Rewire(w, s, port.name))
        case None => Ok(Rewrite(w, []))
      else Ok(Rewrite(w, []))
  }

  // ----- pass 4, second half: over-fanned outputs -----

  datatype GroupKey = GroupKey(from: string, to: Endpoint)

  /** The wire leaves a fanout stage. */
  predicate Grouped(table: Table, w: Wire) {
    w.from.FromStage? && w.from.stage in table && table[w.from.stage].fanout
  }

  function KeyOf(w: Wire): GroupKey
    requires w.from.FromStage?
  {
    GroupKey(w.from.stage, w.to)
  }

  predicate InGroup(table: Table, w: Wire, key: GroupKey) {
    Grouped(table, w) && KeyOf(w) == key
  }

  /** Group keys in order of first appearance. */
  function GroupKeys(table: Table, wires: seq<Wire>): seq<GroupKey> {
    if wires == [] then []
    else
      var rest, w := GroupKeys(table, wires[..|wires| - 1]), wires[|wires| - 1];
      if Grouped(table, w) && KeyOf(w) !in rest then rest + [KeyOf(w)] else rest
  }

  function Group(table: Table, wires: seq<Wire>, key: GroupKey): seq<Wire> {
    if wires == [] then []
    else
      var rest, w := Group(table, wires[..|wires| - 1], key), wires[|wires| - 1];
      if InGroup(table, w, key) then rest + [w] else rest
  }

  /** The distinct declared outputs the group's wires read. */
  function Fields(outputs: seq<Port>, group: seq<Wire>): seq<Port> {
    if group == [] then []
    else
      var rest, w := Fields(outputs, group[..|group| - 1]), group[|group| - 1];
      match FindPort(outputs, w.from.port)
      case Some(p) => if p.name in PortNames(rest) then rest else rest + [p]
      case None => rest
  }

  function FieldList(fields: seq<Port>): string {
    if fields == [] then ""
    else if |fields| == 1 then fields[0].name + ": " + fields[0].typ
    else FieldList(fields[..|fields| - 1]) + "; " + fields[|fields| - 1].name + ": " + fields[|fields| - 1].typ
  }

  datatype Bundling = Bundling(stages: seq<Stage>, removed: set<Wire>, added: seq<Wire>, fixes: seq<Fix>)

  /** The port that bundles a group, or nothing if the group stays as it is. */
  function BundlePort(table: Table, group: seq<Wire>, key: GroupKey): Result<Option<Port>> {
    if |group| < 2 || key.from !in table then Ok(None)
    else if !IsObjectArray(TargetType(table, group[0])) then Thrown
    else
      var outputs := table[key.from].outputs;
      var fields := Fields(outputs, group);
      if |fields| < 2 || key.to.port in PortNames(outputs) then Ok(None)
      else Ok(Some(Port(key.to.port, "{ " + FieldList(fields) + " }", false)))
  }

  function WithOutput(stages: seq<Stage>, name: string, p: Port): (r: seq<Stage>)
    ensures |r| == |stages|
  {
    seq(|stages|, i requires 0 <= i < |stages| =>
      if stages[i].name != name then stages[i] else stages[i].(outputs := stages[i].outputs + [p]))
  }

  function Bundle(b: Bundling, group: seq<Wire>, key: GroupKey, p: Port): Bundling {
    Bundling(
      WithOutput(b.stages, key.from, p),
      b.removed + (set w | w in group),
      b.added + [Wire(FromStage(key.from, p.name), key.to, None)],
      b.fixes + [BundledOutputs(key.from, p.name, |group|)])
  }

  /** Bundling group by group. `table` is not refreshed in between. */
  function BundleAll(table: Table, stages: seq<Stage>, wires: seq<Wire>, keys: seq<GroupKey>): Result<Bundling> {
    if keys == [] then Ok(Bundling(stages, {}, [], []))
    else
      match BundleAll(table, stages, wires, keys[..|keys| - 1])
      case Thrown => Thrown
      case Ok(b) =>
        var key := keys[|keys| - 1];
        var group := Group(table, wires, key);
        match BundlePort(table, group, key)
        case Thrown => Thrown
        case Ok(None) => Ok(b)
        case Ok(Some(p)) => Ok(Bundle(b, group, key, p))
  }

  function Without(wires: seq<Wire>, removed: set<Wire>): seq<Wire> {
    if wires == [] then []
    else
      var rest, w := Without(wires[..|wires| - 1], removed), wires[|wires| - 1];
      if w in removed then rest else rest + [w]
  }

  function ShapeRepaired(ir: Pipeline): Result<Repaired> {
    var table := StageTable(ir.stages);
    match RewriteAll(ir.wires, w => FixShape(table, w))
    case Thrown => Thrown
    case Ok((wires, fixes)) =>
      match BundleAll(table, ir.stages, wires, GroupKeys(table, wires))
      case Thrown => Thrown
      case Ok(b) =>
        Ok(Repaired(ir.(stages := b.stages, wires := Without(wires, b.removed) + b.added), fixes + b.fixes))
  }

  method CollectGroups(table: Table, wires: seq<Wire>) returns (keys: seq<GroupKey>, groups: map<GroupKey, seq<Wire>>)
    ensures keys == GroupKeys(table, wires)
    ensures forall key :: key in keys <==> key in groups
    ensures forall key :: key in groups ==> groups[key] == Group(table, wires, key)
  {
    keys, groups := [], map[];
    for k := 0 to |wires|
      invariant keys == GroupKeys(table, wires[..k])
      invariant forall key :: key in keys <==> key in groups
      invariant forall key :: (if key in groups then groups[key] else []) == Group(table, wires[..k], key)
    {
      assert wires[..k + 1][..k] == wires[..k];
      var w := wires[k];
      if Grouped(table, w) {
        var key := KeyOf(w);
        if key in groups {
          groups := groups[key := groups[key] + [w]];
        } else {
          keys, groups := keys + [key], groups[key := [w]];
        }
      }
    }
    assert wires[..|wires|] == wires;
  }

  lemma {:induction false} BundleThrowSticks(table: Table, stages: seq<Stage>, wires: seq<Wire>, keys: seq<GroupKey>, k: nat)
    requires k < |keys| && BundlePort(table, Group(table, wires, keys[k]), keys[k]).Thrown?
    ensures BundleAll(table, stages, wires, keys).Thrown?
  {
    if k < |keys| - 1 { BundleThrowSticks(table, stages, wires, keys[..|keys| - 1], k); }
  }

  method BundleGroups(table: Table, stages: seq<Stage>, wires: seq<Wire>) returns (r: Result<Bundling>)
    ensures r == BundleAll(table, stages, wires, GroupKeys(table, wires))
  {
    var keys, groups := CollectGroups(table, wires);
    var b := Bundling(stages, {}, [], []);
    for k := 0 to |keys|
      invariant BundleAll(table, stages, wires, keys[..k]) == Ok(b)
    {
      assert keys[..k + 1][..k] == keys[..k];
      assert keys[k] in keys;
      var group := groups[keys[k]];
      match BundlePort(table, group, keys[k]) {
        case Thrown =>
          BundleThrowSticks(table, stages, wires, keys, k);
          return Thrown;
        case Ok(None) =>
        case Ok(Some(p)) => b := Bundle(b, group, keys[k], p);
      }
    }
    assert keys[..|keys|] == keys;
    r := Ok(b);
  }

  method FilterOut(wires: seq<Wire>, removed: set<Wire>) returns (r: seq<Wire>)
    ensures r == Without(wires, removed)
  {
    r := [];
    for k := 0 to |wires|
      invariant r == Without(wires[..k], removed)
    {
      assert wires[..k + 1][..k] == wires[..k];
      if wires[k] !in removed { r := r + [wires[k]]; }
    }
    assert wires[..|wires|] == wires;
  }

  method RepairFanoutShape(ir: Pipeline) returns (r: Result<Repaired>)
    ensures r == ShapeRepaired(ir)
  {
    var _, table := BuildStageTable(ir.stages);
    var a := RewriteWires(ir.wires, w => FixShape(table, w));
    if a.Thrown? { return Thrown; }
    var (wires, fixes) := a.value;
    var bundled := BundleGroups(table, ir.stages, wires);
    if bundled.Thrown? { return Thrown; }
    var b := bundled.value;
    var kept := FilterOut(wires, b.removed);
    r := Ok(Repaired(ir.(stages := b.stages, wires := kept + b.added), fixes + b.fixes));
  }

  // ----- pass 5: undeclared external inputs -----

  /** External inputs to add, in wire order. */
  function MissingExternals(table: Table, declared: seq<string>, wires: seq<Wire>): seq<Port> {
    if wires == [] then []
    else
      var rest, w := MissingExternals(table, declared, wires[..|wires| - 1]), wires[|wires| - 1];
      if w.from.External? && w.from.port !in declared && w.from.port !in PortNames(rest)
      then rest + [Port(w.from.port, ExternalType(table, w), false)] else rest
  }

  function ExternalType(table: Table, w: Wire): string {
    if w.to.stage in table && FindPort(table[w.to.stage].inputs, w.to.port).Some? then TargetType(table, w) else "string"
  }

  function AddedExternals(ports: seq<Port>): (r: seq<Fix>)
    ensures |r| == |ports|
  {
    seq(|ports|, i requires 0 <= i < |ports| => AddedExternal(ports[i].name))
  }

  function ExternalsBackfilled(ir: Pipeline): Repaired {
    var more := MissingExternals(StageTable(ir.stages), PortNames(ir.externalInputs), ir.wires);
    Repaired(ir.(externalInputs := ir.externalInputs + more), AddedExternals(more))
  }

  method BackfillExternalInputs(ir: Pipeline) returns (r: Repaired)
    ensures r == ExternalsBackfilled(ir)
  {
    var _, table := BuildStageTable(ir.stages);
    var declared := PortNames(ir.externalInputs);
    var more: seq<Port> := [];
    for k := 0 to |ir.wires|
      invariant more == MissingExternals(table, declared, ir.wires[..k])
    {
      assert ir.wires[..k + 1][..k] == ir.wires[..k];
      var w := ir.wires[k];
      if w.from.External? && w.from.port !in declared && w.from.port !in PortNames(more) {
        more := more + [Port(w.from.port, ExternalType(table, w), false)];
      }
    }
    assert ir.wires[..|ir.wires|] == ir.wires;
    r := Repaired(ir.(externalInputs := ir.externalInputs + more), AddedExternals(more));
  }

  // ----- the whole repair -----

  function NamesRepaired(ir: Pipeline): Result<Repaired> {
    var table := StageTable(ir.stages);
    match RewriteAll(ir.wires, w => FixNames(table, w))
    case Thrown => Thrown
    case Ok((wires, fixes)) => Ok(Repaired(ir.(wires := wires), fixes))
  }

  function Deduped(ir: Pipeline): Repaired {
    var wires := Dedupe(ir.wires);
    Repaired(ir.(wires := wires), if |wires| < |ir.wires| then [RemovedDuplicates(|ir.wires| - |wires|)] else [])
  }

  function RepairOf(ir: Pipeline): Result<Repaired> {
    var a := Deduped(ir);
    match NamesRepaired(a.ir)
    case Thrown => Thrown
    case Ok(b) =>
      var c := InputsBackfilled(b.ir);
      match ShapeRepaired(c.ir)
      case Thrown => Thrown
      case Ok(d) =>
        var e := ExternalsBackfilled(d.ir);
        Ok(Repaired(e.ir, a.fixes + b.fixes + c.fixes + d.fixes + e.fixes))
  }

  method DedupePass(ir: Pipeline) returns (r: Repaired)
    ensures r == Deduped(ir)
  {
    var wires := DedupeWires(ir.wires);
    var fixes := if |wires| < |ir.wires| then [RemovedDuplicates(|ir.wires| - |wires|)] else [];
    r := Repaired(ir.(wires := wires), fixes);
  }

  method RepairPortNameMismatch(ir: Pipeline) returns (r: Result<Repaired>)
    ensures r == NamesRepaired(ir)
  {
    var _, table := BuildStageTable(ir.stages);
    var renamed := RewriteWires(ir.wires, w => FixNames(table, w));
    r := if renamed.Thrown? then Thrown else Ok(Repaired(ir.(wires := renamed.value.0), renamed.value.1));
  }

  method ValidateAndRepairIR(ir: Pipeline) returns (r: Result<Repaired>)
    ensures r == RepairOf(ir)
  {
    var a := DedupePass(ir);
    var b := RepairPortNameMismatch(a.ir);
    if b.Thrown? { return Thrown; }
    var c := BackfillMissingTargetInputs(b.value.ir);
    var d := RepairFanoutShape(c.ir);
    if d.Thrown? { return Thrown; }
    var e := BackfillExternalInputs(d.value.ir);
    r := Ok(Repaired(e.ir, a.fixes + b.value.fixes + c.fixes + d.value.fixes + e.fixes));
  }
}
