/** From a pipeline to its machine: stage metadata, gate routing, rollback
    answers and initial port values, with what they guarantee about runs. */
module CompileMachine {
  import opened Ir
  import opened Graph
  import opened Compile
  import opened Machine
  import opened MachineRun
  import opened MachineSafety
  import opened MachineCausality
  import opened MachineProgress

  // ----- gate-routed targets -----

  /** `t` is a routing target of this gate, and not one to roll back to. */
  ghost predicate RoutedBy(ir: Pipeline, s: Stage, t: string) {
    IsGate(s) && t in FlatTargets(s.kind.routes) && !ReachesPlus(DeclaredEdges(ir), t, s.name)
  }

  ghost predicate RoutedByFirst(ir: Pipeline, k: nat, t: string)
    requires k <= |ir.stages|
  {
    exists i :: 0 <= i < k && RoutedBy(ir, ir.stages[i], t)
  }

  ghost predicate GateRouted(ir: Pipeline, t: string) {
    RoutedByFirst(ir, |ir.stages|, t)
  }

  /** The routing targets of one gate, flattened answer by answer. */
  method CollectTargets(routes: seq<Route>) returns (targets: seq<string>)
    ensures targets == FlatTargets(routes)
  {
    targets := [];
    for k := 0 to |routes|
      invariant targets + FlatTargets(routes[k..]) == FlatTargets(routes)
    {
      assert routes[k..][1..] == routes[k + 1..];
      targets := targets + routes[k].target.List();
    }
  }

  method GateRoutedTargets(ir: Pipeline, ancestors: map<string, set<string>>) returns (routed: set<string>)
    requires forall g :: g in ancestors <==> IsGateNamed(ir, g)
    requires forall g :: g in ancestors ==> forall t :: t in ancestors[g] <==> ReachesPlus(DeclaredEdges(ir), t, g)
    ensures forall t :: t in routed <==> GateRouted(ir, t)
  {
    routed := {};
    for k := 0 to |ir.stages|
      invariant forall t :: t in routed <==> RoutedByFirst(ir, k, t)
    {
      var s := ir.stages[k];
      ghost var before := routed;
      if IsGate(s) {
        assert IsGateNamed(ir, s.name);
        var targets := CollectTargets(s.kind.routes);
        for j := 0 to |targets|
          invariant forall t :: t in routed <==> t in before || (t in targets[..j] && t !in ancestors[s.name])
        {
          assert targets[..j + 1] == targets[..j] + [targets[j]];
          if targets[j] !in ancestors[s.name] { routed := routed + {targets[j]}; }
        }
        assert targets[..|targets|] == targets;
      }
      forall t ensures t in routed <==> RoutedByFirst(ir, k + 1, t) {
        assert t in routed <==> t in before || RoutedBy(ir, s, t);
        assert RoutedByFirst(ir, k + 1, t) <==> RoutedByFirst(ir, k, t) || RoutedBy(ir, ir.stages[k], t);
      }
    }
  }

  // ----- stage metadata -----

  function SourceKey(from: Source): Key {
    match from
    case FromStage(s, p) => Key(s, p)
    case External(p) => Key(EXTERNAL_OWNER, p)
  }

  /** The inbound wires of a stage, in wire order. */
  function InboundOf(wires: seq<Wire>, name: string): seq<Inbound> {
    if wires == [] then []
    else
      var rest, w := InboundOf(wires[..|wires| - 1], name), wires[|wires| - 1];
      if w.to.stage == name then rest + [Inbound(SourceKey(w.from), w.guard)] else rest
  }

  function OutboundOf(s: Stage): seq<Key> {
    seq(|s.outputs|, j requires 0 <= j < |s.outputs| => Key(s.name, s.outputs[j].name))
  }

  function RetryOf(s: Stage): Option<Retry> {
    if s.kind.Script? then s.kind.retry else None
  }

  ghost function RegionOf(ir: Pipeline, s: Stage): Region {
    Region(s.name, IsGate(s), InboundOf(ir.wires, s.name), OutboundOf(s), GateRouted(ir, s.name), RetryOf(s))
  }

  function RoutingOf(stages: seq<Stage>): map<string, seq<string>> {
    if stages == [] then map[]
    else
      var rest, s := RoutingOf(stages[..|stages| - 1]), stages[|stages| - 1];
      if IsGate(s) then rest[s.name := FlatTargets(s.kind.routes)] else rest
  }

  /** The machine a pipeline stands for. */
  ghost function NetOf(ir: Pipeline, eval: (string, Value) -> bool): Net {
    Net(seq(|ir.stages|, i requires 0 <= i < |ir.stages| => RegionOf(ir, ir.stages[i])), RoutingOf(ir.stages), eval)
  }

  method GateRoutingMap(stages: seq<Stage>) returns (routing: map<string, seq<string>>)
    ensures routing == RoutingOf(stages)
  {
    routing := map[];
    for k := 0 to |stages|
      invariant routing == RoutingOf(stages[..k])
    {
      assert stages[..k + 1][..k] == stages[..k];
      if IsGate(stages[k]) {
        var targets := CollectTargets(stages[k].kind.routes);
        routing := routing[stages[k].name := targets];
      }
    }
    assert stages[..|stages|] == stages;
  }

  /** The stage's entry after the first `k` wires have been added. */
  ghost function EntryAfter(ir: Pipeline, s: Stage, k: nat): Region
    requires k <= |ir.wires|
  {
    Region(s.name, IsGate(s), InboundOf(ir.wires[..k], s.name), OutboundOf(s), GateRouted(ir, s.name), RetryOf(s))
  }

  /** Every stage has its entry, every entry belongs to a stage. */
  ghost predicate Indexed(ir: Pipeline, index: map<string, Region>, k: nat)
    requires k <= |ir.wires|
  {
    && (forall s :: s in ir.stages ==> s.name in index && index[s.name] == EntryAfter(ir, s, k))
    && (forall n :: n in index ==> Declared(ir, n))
  }

  method DeclareStages(ir: Pipeline, routed: set<string>) returns (index: map<string, Region>)
    requires UniqueStages(ir) && forall t :: t in routed <==> GateRouted(ir, t)
    ensures Indexed(ir, index, 0)
  {
    index := map[];
    for k := 0 to |ir.stages|
      invariant forall s :: s in ir.stages[..k] ==> s.name in index && index[s.name] == EntryAfter(ir, s, 0)
      invariant forall n :: n in index ==> Declared(ir, n)
    {
      var s := ir.stages[k];
      assert ir.stages[..k + 1] == ir.stages[..k] + [s];
      forall i | 0 <= i < k ensures ir.stages[..k][i].name != s.name {
        assert StageNames(ir.stages)[i] != StageNames(ir.stages)[k];
      }
      index := index[s.name := Region(s.name, IsGate(s), [], OutboundOf(s), s.name in routed, RetryOf(s))];
    }
    assert ir.stages[..|ir.stages|] == ir.stages;
  }

  lemma WireAdded(ir: Pipeline, s: Stage, k: nat)
    requires k < |ir.wires|
    ensures EntryAfter(ir, s, k + 1) ==
            if ir.wires[k].to.stage == s.name
            then EntryAfter(ir, s, k).(inbound := EntryAfter(ir, s, k).inbound + [Inbound(SourceKey(ir.wires[k].from), ir.wires[k].guard)])
            else EntryAfter(ir, s, k)
  {
    assert ir.wires[..k + 1][..k] == ir.wires[..k];
  }

  /** Stage metadata keyed by name: declare every stage, then add the wires. */
  method IndexStages(ir: Pipeline) returns (index: map<string, Region>)
    requires UniqueStages(ir)
    ensures forall s :: s in ir.stages ==> s.name in index && index[s.name] == RegionOf(ir, s)
  {
    var ancestors := ComputeGateAncestors(ir);
    var routed := GateRoutedTargets(ir, ancestors);
    index := DeclareStages(ir, routed);
    for k := 0 to |ir.wires|
      invariant Indexed(ir, index, k)
    {
      var w := ir.wires[k];
      forall s | s in ir.stages { WireAdded(ir, s, k); }
      if w.to.stage in index {
        var entry := index[w.to.stage];
        index := index[w.to.stage := entry.(inbound := entry.inbound + [Inbound(SourceKey(w.from), w.guard)])];
      }
    }
    assert ir.wires[..|ir.wires|] == ir.wires;
  }

  method RegionsInOrder(ir: Pipeline, index: map<string, Region>) returns (regions: seq<Region>)
    requires forall s :: s in ir.stages ==> s.name in index && index[s.name] == RegionOf(ir, s)
    ensures |regions| == |ir.stages| && forall i :: 0 <= i < |regions| ==> regions[i] == RegionOf(ir, ir.stages[i])
  {
    regions := [];
    for k := 0 to |ir.stages|
      invariant |regions| == k && forall i :: 0 <= i < k ==> regions[i] == RegionOf(ir, ir.stages[i])
    {
      assert ir.stages[k] in ir.stages;
      regions := regions + [index[ir.stages[k].name]];
    }
  }

  /** Compilation of a validated pipeline. */
  method CompileIR(ir: Pipeline, eval: (string, Value) -> bool) returns (net: Net)
    requires UniqueStages(ir)
    ensures net == NetOf(ir, eval) && UniqueNames(net)
  {
    var index := IndexStages(ir);
    var routing := GateRoutingMap(ir.stages);
    var regions := RegionsInOrder(ir, index);
    net := Net(regions, routing, eval);
    assert net.regions == NetOf(ir, eval).regions;
    NetNamesUnique(ir, eval);
  }

  lemma NetNamesUnique(ir: Pipeline, eval: (string, Value) -> bool)
    requires UniqueStages(ir)
    ensures UniqueNames(NetOf(ir, eval))
  {
    forall i, j | 0 <= i < j < |ir.stages| ensures ir.stages[i].name != ir.stages[j].name {
      assert StageNames(ir.stages)[i] != StageNames(ir.stages)[j];
    }
  }

  // ----- backward and forward search agree -----

  lemma EdgesAgree(ir: Pipeline)
    requires TargetsDeclared(ir)
    ensures DeclaredEdges(ir) == StageEdges(ir)
  {
  }

  /** A stage other than the gate is one of its ancestors exactly when the
      forward closure of that stage holds the gate. */
  lemma SearchesAreConverse(ir: Pipeline, gate: string, t: string)
    requires TargetsDeclared(ir) && t != gate
    ensures ReachesPlus(DeclaredEdges(ir), t, gate) <==> Reaches(StageEdges(ir), t, gate)
  {
    EdgesAgree(ir);
    if Reaches(StageEdges(ir), t, gate) { ReachesIsSelfOrPlus(StageEdges(ir), t, gate); }
    if ReachesPlus(StageEdges(ir), t, gate) { PlusReaches(StageEdges(ir), t, gate); }
  }

  // ----- rollback answers -----

  datatype RejectRollback = RejectRollback(answer: string, targets: seq<string>, affected: seq<string>)

  /** All targets of the answer lead back to the gate. */
  ghost predicate IsRollback(ir: Pipeline, gate: string, r: Route) {
    r.target.List() != [] && forall t :: t in r.target.List() ==> Reaches(StageEdges(ir), t, gate)
  }

  ghost predicate ReachedFromAny(edges: set<Edge>, targets: seq<string>, x: string) {
    exists t :: t in targets && Reaches(edges, t, x)
  }

  /** The union of the targets' downstream closures, and whether every one of
      them holds the gate. */
  method UnionDownstream(ghost edges: set<Edge>, downs: map<string, seq<string>>, targets: seq<string>, gate: string)
    returns (all: bool, affected: seq<string>)
    requires IsDownstreamMap(downs, edges)
    ensures all <==> forall t :: t in targets ==> Reaches(edges, t, gate)
    ensures forall x :: x in affected <==> ReachedFromAny(edges, targets, x)
  {
    all, affected := true, [];
    for k := 0 to |targets|
      invariant all <==> forall t :: t in targets[..k] ==> Reaches(edges, t, gate)
      invariant forall x :: x in affected <==> ReachedFromAny(edges, targets[..k], x)
    {
      assert targets[..k + 1] == targets[..k] + [targets[k]];
      var down := BfsDownstream(edges, downs, targets[k]);
      all := all && gate in down;
      ghost var before := affected;
      for j := 0 to |down|
        invariant forall x :: x in affected <==> x in before || x in down[..j]
      {
        assert down[..j + 1] == down[..j] + [down[j]];
        affected := Add(affected, down[j]);
      }
      assert down[..|down|] == down;
      forall x ensures x in affected <==> ReachedFromAny(edges, targets[..k + 1], x) {
        assert x in affected <==> ReachedFromAny(edges, targets[..k], x) || Reaches(edges, targets[k], x);
      }
    }
    assert targets[..|targets|] == targets;
  }

  ghost predicate IsFirstRollback(ir: Pipeline, s: Stage, k: nat)
    requires IsGate(s)
  {
    k < |s.kind.routes| && IsRollback(ir, s.name, s.kind.routes[k])
    && forall j :: 0 <= j < k ==> !IsRollback(ir, s.name, s.kind.routes[j])
  }

  /** `r` describes the first rollback answer of the gate. */
  ghost predicate Describes(ir: Pipeline, s: Stage, r: RejectRollback)
    requires IsGate(s)
  {
    exists k: nat :: IsFirstRollback(ir, s, k)
      && r.answer == s.kind.routes[k].answer && r.targets == s.kind.routes[k].target.List()
      && forall x :: x in r.affected <==> ReachedFromAny(StageEdges(ir), r.targets, x)
  }

  ghost predicate HasRollback(ir: Pipeline, s: Stage)
    requires IsGate(s)
  {
    exists k :: 0 <= k < |s.kind.routes| && IsRollback(ir, s.name, s.kind.routes[k])
  }

  method FirstRollback(ir: Pipeline, downs: map<string, seq<string>>, s: Stage) returns (r: Option<RejectRollback>)
    requires IsGate(s) && IsDownstreamMap(downs, StageEdges(ir))
    ensures r.Some? <==> HasRollback(ir, s)
    ensures r.Some? ==> Describes(ir, s, r.value)
  {
    for k := 0 to |s.kind.routes|
      invariant forall j :: 0 <= j < k ==> !IsRollback(ir, s.name, s.kind.routes[j])
    {
      var targets := s.kind.routes[k].target.List();
      if targets != [] {
        var all, affected := UnionDownstream(StageEdges(ir), downs, targets, s.name);
        if all {
          assert IsFirstRollback(ir, s, k);
          return Some(RejectRollback(s.kind.routes[k].answer, targets, affected));
        }
      }
    }
    r := None;
  }

  /** One rollback answer per gate: the first whose targets all lead back. */
  method RejectRollbackMap(ir: Pipeline) returns (m: map<string, RejectRollback>)
    requires UniqueStages(ir)
    ensures forall i :: 0 <= i < |ir.stages| && IsGate(ir.stages[i]) ==>
              && (ir.stages[i].name in m <==> HasRollback(ir, ir.stages[i]))
              && (ir.stages[i].name in m ==> Describes(ir, ir.stages[i], m[ir.stages[i].name]))
  {
    var downs := DownstreamAdjacency(ir);
    m := map[];
    for k := 0 to |ir.stages|
      invariant forall g :: g in m ==> exists i :: 0 <= i < k && ir.stages[i].name == g
      invariant forall i :: 0 <= i < k && IsGate(ir.stages[i]) ==>
                  && (ir.stages[i].name in m <==> HasRollback(ir, ir.stages[i]))
                  && (ir.stages[i].name in m ==> Describes(ir, ir.stages[i], m[ir.stages[i].name]))
    {
      forall i | 0 <= i < k ensures ir.stages[i].name != ir.stages[k].name {
        assert StageNames(ir.stages)[i] != StageNames(ir.stages)[k];
      }
      if IsGate(ir.stages[k]) {
        var r := FirstRollback(ir, downs, ir.stages[k]);
        if r.Some? { m := m[ir.stages[k].name := r.value]; }
      }
    }
  }

  /** No target of a recorded rollback answer, other than the gate itself, is
      made gate-routed by that gate. */
  lemma RollbackTargetsStayForward(ir: Pipeline, s: Stage, r: RejectRollback, t: string)
    requires TargetsDeclared(ir) && IsGate(s) && Describes(ir, s, r)
    requires t in r.targets && t != s.name
    ensures !RoutedBy(ir, s, t)
  {
    SearchesAreConverse(ir, s.name, t);
  }

  /** The affected stages are the least forward-closed set that contains the
      targets, and the gate is among them. */
  lemma AffectedIsLeastClosed(ir: Pipeline, s: Stage, r: RejectRollback)
    requires IsGate(s) && Describes(ir, s, r)
    ensures Closed(StageEdges(ir), Elems(r.affected)) && Elems(r.targets) <= Elems(r.affected) && s.name in r.affected
    ensures forall b :: Closed(StageEdges(ir), b) && Elems(r.targets) <= b ==> Elems(r.affected) <= b
  {
    var edges := StageEdges(ir);
    forall e | e in edges && e.0 in Elems(r.affected) ensures e.1 in Elems(r.affected) {
      var t :| t in r.targets && Reaches(edges, t, e.0);
      ReachThenStep(edges, t, e.0, e.1);
      PlusReaches(edges, t, e.1);
    }
    forall t | t in r.targets ensures t in r.affected { ReachesSelf(edges, t); }
    assert r.targets[0] in r.targets;
    forall b | Closed(edges, b) && Elems(r.targets) <= b ensures Elems(r.affected) <= b {
      forall x | x in r.affected ensures x in b {
        var t :| t in r.targets && Reaches(edges, t, x);
        assert t in Elems(r.targets);
        ClosedContains(edges, b, t, x);
      }
    }
  }

  // ----- initial port values -----

  /** An external input is seeded if a value was given or it may be omitted. */
  ghost predicate SeededInput(inputs: seq<Port>, seeds: map<string, Value>, name: string) {
    exists i :: 0 <= i < |inputs| && inputs[i].name == name && (name in seeds || inputs[i].optional)
  }

  /** The slots filled before the first event. */
  ghost predicate IsInitialPorts(ir: Pipeline, seeds: map<string, Value>, ports: map<Key, Value>) {
    forall k :: k in ports <==>
      || (k.port == GATE_FEEDBACK && IsGateNamed(ir, k.owner))
      || (k.owner == EXTERNAL_OWNER && SeededInput(ir.externalInputs, seeds, k.port))
  }

  ghost function InitialValue(inputs: seq<Port>, seeds: map<string, Value>, k: Key): Value {
    if k.owner == EXTERNAL_OWNER && SeededInput(inputs, seeds, k.port)
    then if k.port in seeds then seeds[k.port] else Null
    else Text("")
  }

  /** Gate feedback slots hold the empty text, external slots the given value
      or null. */
  method BuildInitialPortValues(ir: Pipeline, seeds: map<string, Value>) returns (out: map<Key, Value>)
    ensures IsInitialPorts(ir, seeds, out)
    ensures forall k :: k in out ==> out[k] == InitialValue(ir.externalInputs, seeds, k)
  {
    out := map[];
    for i := 0 to |ir.stages|
      invariant forall k :: k in out <==>
                  k.port == GATE_FEEDBACK && exists j :: 0 <= j < i && ir.stages[j].name == k.owner && IsGate(ir.stages[j])
      invariant forall k :: k in out ==> out[k] == Text("")
    {
      if IsGate(ir.stages[i]) { out := out[Key(ir.stages[i].name, GATE_FEEDBACK) := Text("")]; }
    }
    ghost var feedback := out;
    assert forall k :: k in out <==> k.port == GATE_FEEDBACK && IsGateNamed(ir, k.owner) by {
      forall g | IsGateNamed(ir, g) ensures exists j :: 0 <= j < |ir.stages| && ir.stages[j].name == g && IsGate(ir.stages[j]) {
        var s :| s in ir.stages && s.name == g && IsGate(s);
        var j :| 0 <= j < |ir.stages| && ir.stages[j] == s;
      }
    }
    for i := 0 to |ir.externalInputs|
      invariant forall k :: k in out <==>
                  k in feedback || (k.owner == EXTERNAL_OWNER && SeededInput(ir.externalInputs[..i], seeds, k.port))
      invariant forall k :: k in out ==> out[k] == InitialValue(ir.externalInputs[..i], seeds, k)
    {
      var p := ir.externalInputs[i];
      forall name ensures SeededInput(ir.externalInputs[..i + 1], seeds, name) <==>
                SeededInput(ir.externalInputs[..i], seeds, name) || (name == p.name && (name in seeds || p.optional))
      {
        SeededMore(ir.externalInputs, seeds, name, i);
      }
      if p.name in seeds {
        out := out[Key(EXTERNAL_OWNER, p.name) := seeds[p.name]];
      } else if p.optional {
        out := out[Key(EXTERNAL_OWNER, p.name) := Null];
      }
    }
    assert ir.externalInputs[..|ir.externalInputs|] == ir.externalInputs;
  }

  lemma SeededMore(inputs: seq<Port>, seeds: map<string, Value>, name: string, i: nat)
    requires i < |inputs|
    ensures SeededInput(inputs[..i + 1], seeds, name) <==>
              SeededInput(inputs[..i], seeds, name) || (name == inputs[i].name && (name in seeds || inputs[i].optional))
  {
    if SeededInput(inputs[..i], seeds, name) {
      var j :| 0 <= j < i && inputs[..i][j].name == name && (name in seeds || inputs[..i][j].optional);
      assert inputs[..i + 1][j].name == name;
    }
    if name == inputs[i].name && (name in seeds || inputs[i].optional) {
      assert inputs[..i + 1][i].name == name;
    }
    if SeededInput(inputs[..i + 1], seeds, name) {
      var j :| 0 <= j < i + 1 && inputs[..i + 1][j].name == name && (name in seeds || inputs[..i + 1][j].optional);
      if j < i { assert inputs[..i][j].name == name; }
    }
  }

  // ----- the compiled machine meets what the progress theorem asks for -----

  /** A wire reads a declared output of an existing stage that is not a gate,
      the feedback port of a gate, or an external input. */
  ghost predicate SoundSource(ir: Pipeline, from: Source) {
    match from
    case FromStage(u, p) =>
      exists s :: s in ir.stages && s.name == u
        && if p == GATE_FEEDBACK then IsGate(s) else !IsGate(s) && p in PortNames(s.outputs)
    case External(p) => p in PortNames(ir.externalInputs)
  }

  /** Gate to forward routing target. */
  ghost function ForwardRouting(ir: Pipeline): set<Edge> {
    set i, j | 0 <= i < |ir.stages| && 0 <= j < |ir.stages| && RoutedBy(ir, ir.stages[i], ir.stages[j].name)
      :: (ir.stages[i].name, ir.stages[j].name)
  }

  /** What the validators that run before compilation establish, with the
      routing edges counted into the acyclicity check. */
  ghost predicate Validated(ir: Pipeline) {
    && UniqueStages(ir) && TargetsDeclared(ir)
    && !Declared(ir, EXTERNAL_OWNER)
    && (forall w :: w in ir.wires ==> SoundSource(ir, w.from))
    && Acyclic(StageEdges(ir) + ForwardRouting(ir))
  }

  lemma {:induction false} InboundFrom(wires: seq<Wire>, name: string, j: nat) returns (w: Wire)
    requires j < |InboundOf(wires, name)|
    ensures w in wires && w.to.stage == name && InboundOf(wires, name)[j] == Inbound(SourceKey(w.from), w.guard)
  {
    var rest, last := InboundOf(wires[..|wires| - 1], name), wires[|wires| - 1];
    if j < |rest| {
      w := InboundFrom(wires[..|wires| - 1], name, j);
    } else {
      w := last;
    }
  }

  lemma {:induction false} InboundHas(wires: seq<Wire>, w: Wire) returns (j: nat)
    requires w in wires
    ensures j < |InboundOf(wires, w.to.stage)| && InboundOf(wires, w.to.stage)[j] == Inbound(SourceKey(w.from), w.guard)
  {
    var init := wires[..|wires| - 1];
    if w in init {
      j := InboundHas(init, w);
    } else {
      assert wires == init + [wires[|wires| - 1]];
      j := |InboundOf(init, w.to.stage)|;
    }
  }

  lemma SameName(ir: Pipeline, a: Stage, b: Stage)
    requires UniqueStages(ir) && a in ir.stages && b in ir.stages && a.name == b.name
    ensures a == b
  {
    var i :| 0 <= i < |ir.stages| && ir.stages[i] == a;
    var j :| 0 <= j < |ir.stages| && ir.stages[j] == b;
    assert StageNames(ir.stages)[i] == StageNames(ir.stages)[j];
  }

  lemma StageIsRegion(ir: Pipeline, eval: (string, Value) -> bool, name: string)
    ensures IsStage(NetOf(ir, eval), name) <==> Declared(ir, name)
  {
    var net := NetOf(ir, eval);
    if IsStage(net, name) {
      var i :| 0 <= i < |net.regions| && net.regions[i].name == name;
      assert ir.stages[i] in ir.stages;
    }
    if Declared(ir, name) {
      var s :| s in ir.stages && s.name == name;
      var i :| 0 <= i < |ir.stages| && ir.stages[i] == s;
      assert net.regions[i].name == name;
    }
  }

  lemma ForwardEdgesAreWires(ir: Pipeline, eval: (string, Value) -> bool)
    requires Validated(ir)
    ensures ForwardEdges(NetOf(ir, eval)) == StageEdges(ir)
  {
    WiresAreForwardEdges(ir, eval);
    var net := NetOf(ir, eval);
    forall e | e in ForwardEdges(net) ensures e in StageEdges(ir) {
      var i, j :| 0 <= i < |net.regions| && 0 <= j < |net.regions[i].inbound|
                 && net.regions[i].inbound[j].source.port != GATE_FEEDBACK
                 && IsStage(net, net.regions[i].inbound[j].source.owner)
                 && e == (net.regions[i].inbound[j].source.owner, net.regions[i].name);
      var w := InboundFrom(ir.wires, ir.stages[i].name, j);
      StageIsRegion(ir, eval, EXTERNAL_OWNER);
      assert w.from.FromStage?;
    }
  }

  lemma WiresAreForwardEdges(ir: Pipeline, eval: (string, Value) -> bool)
    requires Validated(ir)
    ensures StageEdges(ir) <= ForwardEdges(NetOf(ir, eval))
  {
    forall e | e in StageEdges(ir) ensures e in ForwardEdges(NetOf(ir, eval)) {
      var w :| w in ir.wires && OrdersStages(w) && e == (w.from.stage, w.to.stage);
      WireIsForwardEdge(ir, eval, w);
    }
  }

  lemma WireIsForwardEdge(ir: Pipeline, eval: (string, Value) -> bool, w: Wire)
    requires Validated(ir) && w in ir.wires && OrdersStages(w)
    ensures (w.from.stage, w.to.stage) in ForwardEdges(NetOf(ir, eval))
  {
    var net := NetOf(ir, eval);
    assert SoundSource(ir, w.from);
    StageIsRegion(ir, eval, w.from.stage);
    var s :| s in ir.stages && s.name == w.to.stage;
    var i :| 0 <= i < |ir.stages| && ir.stages[i] == s;
    var j := InboundHas(ir.wires, w);
    assert net.regions[i].inbound[j].source == Key(w.from.stage, w.from.port);
  }

  lemma {:induction false} RoutingLookup(stages: seq<Stage>, s: Stage)
    requires Distinct(StageNames(stages)) && s in stages
    ensures (if s.name in RoutingOf(stages) then RoutingOf(stages)[s.name] else []) == if IsGate(s) then FlatTargets(s.kind.routes) else []
  {
    var init, last := stages[..|stages| - 1], stages[|stages| - 1];
    if s == last {
      RoutingKeys(init, s.name);
      forall i | 0 <= i < |init| ensures init[i].name != s.name {
        assert StageNames(stages)[i] != StageNames(stages)[|stages| - 1];
      }
    } else {
      assert s in init;
      var i :| 0 <= i < |init| && init[i] == s;
      assert StageNames(stages)[i] != StageNames(stages)[|stages| - 1];
      forall a, b | 0 <= a < b < |init| ensures StageNames(init)[a] != StageNames(init)[b] {
        assert StageNames(stages)[a] != StageNames(stages)[b];
      }
      RoutingLookup(init, s);
    }
  }

  lemma {:induction false} RoutingKeys(stages: seq<Stage>, name: string)
    ensures name in RoutingOf(stages) ==> exists i :: 0 <= i < |stages| && stages[i].name == name
  {
    if stages != [] {
      var init := stages[..|stages| - 1];
      RoutingKeys(init, name);
      if i :| 0 <= i < |init| && init[i].name == name { assert stages[i].name == name; }
    }
  }

  /** Compiled routing and the IR's forward routing are the same edges. */
  lemma RoutesAgree(ir: Pipeline, eval: (string, Value) -> bool, s: Stage, t: string)
    requires Validated(ir) && s in ir.stages
    ensures RoutesForward(NetOf(ir, eval), s.name, t) <==> RoutedBy(ir, s, t)
  {
    var net := NetOf(ir, eval);
    RoutingLookup(ir.stages, s);
    ForwardEdgesAreWires(ir, eval);
    EdgesAgree(ir);
    var k :| 0 <= k < |ir.stages| && ir.stages[k] == s;
    assert net.regions[k].name == s.name;
    if i :| 0 <= i < |net.regions| && net.regions[i].name == s.name && net.regions[i].isGate {
      SameName(ir, ir.stages[i], s);
    }
  }

  lemma {:induction false} SubPath(small: set<Edge>, big: set<Edge>, a: string, b: string)
    requires small <= big && ReachesPlus(small, a, b)
    ensures ReachesPlus(big, a, b)
  {
    var p :| PathFromTo(small, p, a, b) && |p| >= 2;
    assert PathFromTo(big, p, a, b);
  }

  lemma CompiledSources(ir: Pipeline, eval: (string, Value) -> bool, i: nat, j: nat)
    requires Validated(ir) && i < |ir.stages| && j < |InboundOf(ir.wires, ir.stages[i].name)|
    ensures DeclaredSource(NetOf(ir, eval), InboundOf(ir.wires, ir.stages[i].name)[j].source)
  {
    var net := NetOf(ir, eval);
    var w := InboundFrom(ir.wires, ir.stages[i].name, j);
    var k := SourceKey(w.from);
    assert SoundSource(ir, w.from);
    forall u | 0 <= u < |net.regions| && net.regions[u].name == k.owner
      ensures if k.port == GATE_FEEDBACK then net.regions[u].isGate else !net.regions[u].isGate && k in net.regions[u].outbound
    {
      assert ir.stages[u] in ir.stages;
      var s :| s in ir.stages && s.name == k.owner
        && if k.port == GATE_FEEDBACK then IsGate(s) else !IsGate(s) && k.port in PortNames(s.outputs);
      SameName(ir, s, ir.stages[u]);
      if k.port != GATE_FEEDBACK {
        var o :| 0 <= o < |s.outputs| && PortNames(s.outputs)[o] == k.port;
        assert net.regions[u].outbound[o] == k;
      }
    }
  }

  lemma CompiledRouting(ir: Pipeline, eval: (string, Value) -> bool, i: nat)
    requires Validated(ir) && i < |ir.stages| && GateRouted(ir, ir.stages[i].name)
    ensures exists g :: RoutesForward(NetOf(ir, eval), g, ir.stages[i].name)
  {
    var k :| 0 <= k < |ir.stages| && RoutedBy(ir, ir.stages[k], ir.stages[i].name);
    RoutesAgree(ir, eval, ir.stages[k], ir.stages[i].name);
  }

  lemma CompiledAcyclic(ir: Pipeline, eval: (string, Value) -> bool)
    requires Validated(ir)
    ensures Acyclic(AllEdges(NetOf(ir, eval)))
  {
    var net := NetOf(ir, eval);
    ForwardEdgesAreWires(ir, eval);
    forall e | e in RoutingEdges(net) ensures e in ForwardRouting(ir) {
      var i, j :| 0 <= i < |net.regions| && 0 <= j < |net.regions|
                 && RoutesForward(net, net.regions[i].name, net.regions[j].name)
                 && e == (net.regions[i].name, net.regions[j].name);
      assert ir.stages[i] in ir.stages;
      RoutesAgree(ir, eval, ir.stages[i], net.regions[j].name);
    }
    forall a ensures !ReachesPlus(AllEdges(net), a, a) {
      if ReachesPlus(AllEdges(net), a, a) { SubPath(AllEdges(net), StageEdges(ir) + ForwardRouting(ir), a, a); }
    }
  }

  /** The compiled machine of a validated pipeline is wired as the progress
      theorem asks. */
  lemma CompiledIsWellWired(ir: Pipeline, eval: (string, Value) -> bool)
    requires Validated(ir)
    ensures WellWired(NetOf(ir, eval))
  {
    var net := NetOf(ir, eval);
    forall i, j | 0 <= i < |net.regions| && 0 <= j < |net.regions[i].inbound|
      ensures DeclaredSource(net, net.regions[i].inbound[j].source)
    {
      CompiledSources(ir, eval, i, j);
    }
    forall i | 0 <= i < |net.regions| && net.regions[i].gateRouted
      ensures exists g :: RoutesForward(net, g, net.regions[i].name)
    {
      CompiledRouting(ir, eval, i);
    }
    CompiledAcyclic(ir, eval);
  }

  function FirstContext(ports: map<Key, Value>): Context {
    Context(ports, {}, {}, [], [], map[])
  }

  lemma CompiledIsSeeded(ir: Pipeline, eval: (string, Value) -> bool, seeds: map<string, Value>, ports: map<Key, Value>)
    requires Validated(ir) && IsInitialPorts(ir, seeds, ports)
    requires forall name :: name in PortNames(ir.externalInputs) ==> SeededInput(ir.externalInputs, seeds, name)
    ensures Fresh(NetOf(ir, eval), FirstContext(ports)) && Seeded(NetOf(ir, eval), FirstContext(ports))
  {
    var net := NetOf(ir, eval);
    StageIsRegion(ir, eval, EXTERNAL_OWNER);
    forall i, j | 0 <= i < |net.regions| && 0 <= j < |net.regions[i].inbound|
      ensures var k := net.regions[i].inbound[j].source;
              (!IsStage(net, k.owner) || k.port == GATE_FEEDBACK) ==> k in ports
    {
      var w := InboundFrom(ir.wires, ir.stages[i].name, j);
      assert SoundSource(ir, w.from);
      if w.from.FromStage? { StageIsRegion(ir, eval, w.from.stage); }
    }
  }

  /** From a validated pipeline, all of whose external inputs are given or
      optional, to progress: a first run of the compiled machine that has gone
      quiet has completed exactly if no gate awaits an answer and no waiting
      stage comes right after a failed one or one skipped before it finished. */
  lemma CompiledRunsComplete(ir: Pipeline, eval: (string, Value) -> bool, seeds: map<string, Value>,
                             ports: map<Key, Value>, evs: seq<Event>)
    requires Validated(ir) && IsInitialPorts(ir, seeds, ports) && ir.stages != []
    requires forall name :: name in PortNames(ir.externalInputs) ==> SeededInput(ir.externalInputs, seeds, name)
    requires UniqueNames(NetOf(ir, eval)) && Legal(NetOf(ir, eval), FirstContext(ports), evs)
    requires Quiet(NetOf(ir, eval), Run(NetOf(ir, eval), FirstContext(ports), evs))
    ensures var net, c := NetOf(ir, eval), Run(NetOf(ir, eval), FirstContext(ports), evs);
      Completed(c) <==> forall i :: 0 <= i < |ir.stages| ==> !Unanswered(net, c, i) && !Stuck(net, c, i)
  {
    CompiledIsWellWired(ir, eval);
    CompiledIsSeeded(ir, eval, seeds, ports);
    NoDeadlock(NetOf(ir, eval), FirstContext(ports), evs);
  }
}
