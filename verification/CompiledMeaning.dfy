/** What a compiled machine holds, read off the pipeline directly: its routing
    table place by place, each region's wires, outputs and retry specification,
    and which stages wait for a gate. */
module CompiledMeaning {
  import opened Ir
  import opened Graph
  import opened Compile
  import opened Machine
  import opened CompileMachine

  // ----- routing targets -----

  function Size(t: Target): nat {
    match t
    case One(_) => 1
    case Many(ss) => |ss|
  }

  function Nth(t: Target, j: nat): string
    requires j < Size(t)
  {
    match t
    case One(s) => s
    case Many(ss) => ss[j]
  }

  /** Where the targets of the k-th answer begin in the flattened list. */
  function Offset(routes: seq<Route>, k: nat): nat
    requires k <= |routes|
  {
    if k == 0 then 0 else Offset(routes, k - 1) + Size(routes[k - 1].target)
  }

  lemma ListPlaces(t: Target)
    ensures |t.List()| == Size(t) && forall j :: 0 <= j < Size(t) ==> t.List()[j] == Nth(t, j)
  {
  }

  lemma {:induction false} OffsetShift(routes: seq<Route>, k: nat)
    requires routes != [] && k < |routes|
    ensures Offset(routes, k + 1) == Size(routes[0].target) + Offset(routes[1..], k)
  {
    if k > 0 {
      OffsetShift(routes, k - 1);
      assert routes[1..][k - 1] == routes[k];
    }
  }

  lemma {:induction false} FlatPlaces(routes: seq<Route>, k: nat, j: nat)
    requires k < |routes| && j < Size(routes[k].target)
    ensures Offset(routes, k) + j < |FlatTargets(routes)|
    ensures FlatTargets(routes)[Offset(routes, k) + j] == Nth(routes[k].target, j)
  {
    ListPlaces(routes[0].target);
    if k > 0 {
      OffsetShift(routes, k - 1);
      assert routes[1..][k - 1] == routes[k];
      FlatPlaces(routes[1..], k - 1, j);
    }
  }

  lemma {:induction false} FlatLength(routes: seq<Route>)
    ensures |FlatTargets(routes)| == Offset(routes, |routes|)
  {
    if routes != [] {
      ListPlaces(routes[0].target);
      OffsetShift(routes, |routes| - 1);
      FlatLength(routes[1..]);
    }
  }

  /** The answer leads to the stage. */
  predicate Names(t: Target, x: string) {
    match t
    case One(s) => s == x
    case Many(ss) => x in ss
  }

  lemma {:induction false} FlatMembers(routes: seq<Route>, x: string)
    ensures x in FlatTargets(routes) <==> exists r :: r in routes && Names(r.target, x)
  {
    if routes != [] {
      FlatMembers(routes[1..], x);
      assert routes == [routes[0]] + routes[1..];
    }
  }

  /** The j-th target of the k-th answer stands where the answers before it and
      the targets before it leave off. */
  predicate Placed(table: seq<string>, routes: seq<Route>, k: nat, j: nat)
    requires k < |routes| && j < Size(routes[k].target)
  {
    Offset(routes, k) + j < |table| && table[Offset(routes, k) + j] == Nth(routes[k].target, j)
  }

  /** The list holds the targets of all answers, answer by answer, as often as
      they are named. */
  ghost predicate Lists(table: seq<string>, routes: seq<Route>) {
    && |table| == Offset(routes, |routes|)
    && (forall k, j :: 0 <= k < |routes| && 0 <= j < Size(routes[k].target) ==> Placed(table, routes, k, j))
    && (forall x :: x in table <==> exists r :: r in routes && Names(r.target, x))
  }

  lemma FlatLists(routes: seq<Route>)
    ensures Lists(FlatTargets(routes), routes)
  {
    FlatLength(routes);
    forall k, j | 0 <= k < |routes| && 0 <= j < Size(routes[k].target)
      ensures Placed(FlatTargets(routes), routes, k, j)
    {
      FlatPlaces(routes, k, j);
    }
    forall x ensures x in FlatTargets(routes) <==> exists r :: r in routes && Names(r.target, x) {
      FlatMembers(routes, x);
    }
  }

  /** In a compiled machine a gate's routing table lists the targets of all its
      answers; other stages have none. */
  lemma RoutingMeaning(ir: Pipeline, eval: (string, Value) -> bool, s: Stage)
    requires UniqueStages(ir) && s in ir.stages
    ensures s.kind.Gate? ==> Lists(Siblings(NetOf(ir, eval), s.name), s.kind.routes)
    ensures !s.kind.Gate? ==> Siblings(NetOf(ir, eval), s.name) == []
  {
    RoutingLookup(ir.stages, s);
    if s.kind.Gate? { FlatLists(s.kind.routes); }
  }

  // ----- edges -----

  /** The wires that order stages: from a stage, other than by its feedback
      port, to a stage of the pipeline. */
  ghost function Wiring(ir: Pipeline): set<Edge> {
    set w | w in ir.wires && w.from.FromStage? && w.from.port != "__gate_feedback__"
            && (exists s :: s in ir.stages && s.name == w.to.stage)
      :: (w.from.stage, w.to.stage)
  }

  lemma WiringMeaning(ir: Pipeline)
    ensures DeclaredEdges(ir) == Wiring(ir)
    ensures TargetsDeclared(ir) ==> StageEdges(ir) == Wiring(ir)
    ensures forall x, y :: (x, y) in StageEdges(ir) <==>
              exists w :: w in ir.wires && w.to.stage == y && w.from.FromStage? && w.from.stage == x
                          && w.from.port != "__gate_feedback__"
  {
  }

  /** A stage waits for a gate exactly if some answer of some gate leads to it
      and it does not lie upstream of that gate. */
  ghost predicate WaitsForGate(ir: Pipeline, t: string) {
    exists g, r :: g in ir.stages && g.kind.Gate? && r in g.kind.routes && Names(r.target, t)
                   && !ReachesPlus(Wiring(ir), t, g.name)
  }

  lemma GateRoutedMeaning(ir: Pipeline, t: string)
    ensures GateRouted(ir, t) <==> WaitsForGate(ir, t)
  {
    WiringMeaning(ir);
    if GateRouted(ir, t) {
      var i :| 0 <= i < |ir.stages| && RoutedBy(ir, ir.stages[i], t);
      FlatMembers(ir.stages[i].kind.routes, t);
      assert ir.stages[i] in ir.stages;
    }
    if WaitsForGate(ir, t) {
      var g, r :| g in ir.stages && g.kind.Gate? && r in g.kind.routes && Names(r.target, t)
                  && !ReachesPlus(Wiring(ir), t, g.name);
      FlatMembers(g.kind.routes, t);
      var i :| 0 <= i < |ir.stages| && ir.stages[i] == g;
      assert RoutedBy(ir, ir.stages[i], t);
    }
  }

  // ----- regions -----

  /** How many of the first `k` wires lead to the stage. */
  function WiresInto(wires: seq<Wire>, name: string, k: nat): nat
    requires k <= |wires|
  {
    if k == 0 then 0 else WiresInto(wires, name, k - 1) + if wires[k - 1].to.stage == name then 1 else 0
  }

  predicate Carries(x: Inbound, w: Wire) {
    x.guard == w.guard
    && match w.from
       case FromStage(s, p) => x.source == Key(s, p)
       case External(p) => x.source == Key("__external__", p)
  }

  lemma {:induction false} WiresIntoPrefix(wires: seq<Wire>, name: string, k: nat, n: nat)
    requires k <= n <= |wires|
    ensures WiresInto(wires[..n], name, k) == WiresInto(wires, name, k)
  {
    if k > 0 { WiresIntoPrefix(wires, name, k - 1, n); }
  }

  lemma {:induction false} InboundPlaces(wires: seq<Wire>, name: string)
    ensures |InboundOf(wires, name)| == WiresInto(wires, name, |wires|)
    ensures forall k :: 0 <= k < |wires| && wires[k].to.stage == name ==>
              WiresInto(wires, name, k) < |InboundOf(wires, name)|
              && Carries(InboundOf(wires, name)[WiresInto(wires, name, k)], wires[k])
  {
    if wires != [] {
      var n := |wires| - 1;
      InboundPlaces(wires[..n], name);
      WiresIntoPrefix(wires, name, n, n);
      forall k | 0 <= k < |wires| && wires[k].to.stage == name
        ensures WiresInto(wires, name, k) < |InboundOf(wires, name)|
                && Carries(InboundOf(wires, name)[WiresInto(wires, name, k)], wires[k])
      {
        if k < n {
          WiresIntoPrefix(wires, name, k, n);
          assert wires[..n][k] == wires[k];
        }
      }
    }
  }

  /** The region says of the stage what the pipeline does: its inbound wires in
      order with source and guard, its outputs, its kind, its retry
      specification if it is a script, and whether it waits for a gate. */
  ghost predicate TellsOf(ir: Pipeline, s: Stage, r: Region) {
    && r.name == s.name && r.isGate == s.kind.Gate? && (r.gateRouted <==> WaitsForGate(ir, s.name))
    && r.retry == (if s.kind.Script? then s.kind.retry else None)
    && |r.outbound| == |s.outputs|
    && (forall j :: 0 <= j < |s.outputs| ==> r.outbound[j] == Key(s.name, s.outputs[j].name))
    && |r.inbound| == WiresInto(ir.wires, s.name, |ir.wires|)
    && (forall k :: 0 <= k < |ir.wires| && ir.wires[k].to.stage == s.name ==>
          WiresInto(ir.wires, s.name, k) < |r.inbound| && Carries(r.inbound[WiresInto(ir.wires, s.name, k)], ir.wires[k]))
  }

  /** The compiled machine has one region per stage, in order, telling of it. */
  lemma RegionsMeaning(ir: Pipeline, eval: (string, Value) -> bool, i: nat)
    requires i < |ir.stages|
    ensures |NetOf(ir, eval).regions| == |ir.stages| && NetOf(ir, eval).eval == eval
    ensures TellsOf(ir, ir.stages[i], NetOf(ir, eval).regions[i])
  {
    InboundPlaces(ir.wires, ir.stages[i].name);
    GateRoutedMeaning(ir, ir.stages[i].name);
  }

  // ----- rollback answers -----

  /** The k-th answer names some stage, and from each it names the gate can be
      reached along the wires. */
  ghost predicate LeadsBack(ir: Pipeline, s: Stage, k: nat)
    requires s.kind.Gate? && k < |s.kind.routes|
  {
    && Size(s.kind.routes[k].target) > 0
    && forall j :: 0 <= j < Size(s.kind.routes[k].target) ==>
         Reaches(Wiring(ir), Nth(s.kind.routes[k].target, j), s.name)
  }

  lemma LeadsBackMeaning(ir: Pipeline, s: Stage, k: nat)
    requires TargetsDeclared(ir) && s.kind.Gate? && k < |s.kind.routes|
    ensures IsRollback(ir, s.name, s.kind.routes[k]) <==> LeadsBack(ir, s, k)
  {
    WiringMeaning(ir);
    var t := s.kind.routes[k].target;
    ListPlaces(t);
    assert forall j :: 0 <= j < Size(t) ==> t.List()[j] in t.List();
  }

  /** The k-th answer is the first that leads back, and the one recorded. */
  ghost predicate Records(ir: Pipeline, s: Stage, r: RejectRollback, k: nat)
    requires s.kind.Gate?
  {
    && k < |s.kind.routes| && LeadsBack(ir, s, k) && (forall j :: 0 <= j < k ==> !LeadsBack(ir, s, j))
    && r.answer == s.kind.routes[k].answer && |r.targets| == Size(s.kind.routes[k].target)
    && (forall j :: 0 <= j < |r.targets| ==> r.targets[j] == Nth(s.kind.routes[k].target, j))
  }

  /** The recorded rollback is the first answer that leads back, with exactly
      the stages its targets reach. */
  lemma RollbackMeaning(ir: Pipeline, s: Stage, r: RejectRollback)
    requires TargetsDeclared(ir) && s.kind.Gate? && Describes(ir, s, r)
    ensures exists k: nat :: Records(ir, s, r, k)
    ensures forall x :: x in r.affected <==> exists t :: t in r.targets && Reaches(Wiring(ir), t, x)
  {
    WiringMeaning(ir);
    var k: nat :| IsFirstRollback(ir, s, k)
      && r.answer == s.kind.routes[k].answer && r.targets == s.kind.routes[k].target.List()
      && forall x :: x in r.affected <==> ReachedFromAny(StageEdges(ir), r.targets, x);
    ListPlaces(s.kind.routes[k].target);
    forall j | 0 <= j <= k ensures IsRollback(ir, s.name, s.kind.routes[j]) <==> LeadsBack(ir, s, j) {
      LeadsBackMeaning(ir, s, j);
    }
    assert Records(ir, s, r, k);
  }

  /** A gate has a rollback to record exactly if some answer leads back. */
  lemma RollbackExists(ir: Pipeline, s: Stage)
    requires TargetsDeclared(ir) && s.kind.Gate?
    ensures HasRollback(ir, s) <==> exists k :: 0 <= k < |s.kind.routes| && LeadsBack(ir, s, k)
  {
    forall k | 0 <= k < |s.kind.routes| ensures IsRollback(ir, s.name, s.kind.routes[k]) <==> LeadsBack(ir, s, k) {
      LeadsBackMeaning(ir, s, k);
    }
  }

  // ----- initial values -----

  predicate IsInput(ir: Pipeline, name: string) {
    exists p :: p in ir.externalInputs && p.name == name
  }

  predicate IsOptionalInput(ir: Pipeline, name: string) {
    exists p :: p in ir.externalInputs && p.name == name && p.optional
  }

  predicate IsSeeded(ir: Pipeline, seeds: map<string, Value>, k: Key) {
    k.owner == "__external__" && IsInput(ir, k.port) && (k.port in seeds || IsOptionalInput(ir, k.port))
  }

  predicate IsGateStage(ir: Pipeline, name: string) {
    exists s :: s in ir.stages && s.name == name && s.kind.Gate?
  }

  /** A seeded input takes the value given, an optional one without value null,
      and every gate's feedback port the empty text; nothing else is filled. */
  lemma InitialMeaning(ir: Pipeline, seeds: map<string, Value>, ports: map<Key, Value>, k: Key)
    requires IsInitialPorts(ir, seeds, ports)
    requires forall k :: k in ports ==> ports[k] == InitialValue(ir.externalInputs, seeds, k)
    ensures k in ports <==> IsSeeded(ir, seeds, k) || (k.port == "__gate_feedback__" && IsGateStage(ir, k.owner))
    ensures k in ports ==>
              ports[k] == if !IsSeeded(ir, seeds, k) then Text("") else if k.port in seeds then seeds[k.port] else Null
  {
    assert forall p :: p in ir.externalInputs ==> exists i :: 0 <= i < |ir.externalInputs| && ir.externalInputs[i] == p;
  }
}
