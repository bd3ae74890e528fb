/** The pipeline intermediate representation: stages with typed ports, wires
    between ports, gate routing tables and script retry specifications. */
module Ir {
  datatype Option<+T> = None | Some(value: T)

  /** `optional` matters only for a pipeline's external inputs. */
  datatype Port = Port(name: string, typ: string, optional: bool)

  datatype Source = FromStage(stage: string, port: string) | External(port: string)

  datatype Endpoint = Endpoint(stage: string, port: string)

  datatype Wire = Wire(from: Source, to: Endpoint, guard: Option<string>)

  /** A routing answer names one stage or an array of stages. */
  datatype Target = One(stage: string) | Many(stages: seq<string>)
  {
    function List(): seq<string> {
      match this
      case One(s) => [s]
      case Many(ss) => ss
    }
  }

  datatype Route = Route(answer: string, target: Target)

  datatype Code = Registry(moduleId: string) | Inline(moduleSource: string)

  datatype Retry = Retry(maxRetries: nat, backToStage: string)

  datatype Kind =
    | Agent(promptRef: string)
    | Script(code: Code, retry: Option<Retry>)
    | Gate(question: string, routes: seq<Route>)

  datatype Stage = Stage(name: string, inputs: seq<Port>, outputs: seq<Port>, kind: Kind, fanout: bool)

  datatype Pipeline = Pipeline(stages: seq<Stage>, wires: seq<Wire>, externalInputs: seq<Port>)

  /** The output port every gate carries without declaring it. */
  const GATE_FEEDBACK := "__gate_feedback__"

  /** The owner under which seeded external values are stored. */
  const EXTERNAL_OWNER := "__external__"

  /** The stage a wire's source belongs to, if it is not an external input. */
  function WireFromStage(w: Wire): Option<string> {
    match w.from
    case FromStage(s, _) => Some(s)
    case External(_) => None
  }

  function StageNames(stages: seq<Stage>): (names: seq<string>)
    ensures |names| == |stages|
    ensures forall i :: 0 <= i < |stages| ==> names[i] == stages[i].name
  {
    seq(|stages|, i requires 0 <= i < |stages| => stages[i].name)
  }

  function PortNames(ports: seq<Port>): (names: seq<string>)
    ensures |names| == |ports|
    ensures forall i :: 0 <= i < |ports| ==> names[i] == ports[i].name
  {
    seq(|ports|, i requires 0 <= i < |ports| => ports[i].name)
  }

  ghost predicate Distinct<T>(s: seq<T>) {
    forall i, j :: 0 <= i < j < |s| ==> s[i] != s[j]
  }

  ghost predicate UniqueStages(ir: Pipeline) {
    Distinct(StageNames(ir.stages))
  }

  predicate IsGate(s: Stage) {
    s.kind.Gate?
  }

  /** All targets of a gate's routing table, answer by answer. */
  function FlatTargets(routes: seq<Route>): seq<string> {
    if routes == [] then [] else routes[0].target.List() + FlatTargets(routes[1..])
  }
}
