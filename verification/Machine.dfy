/** The compiled pipeline machine: one region per stage, a shared context, and
    the run-to-completion step of a parallel state machine. */
module Machine {
  import opened Ir

  datatype Value = Null | Text(s: string) | Encoded(json: string)

  /** A port-value slot, `owner.port` in the source. */
  datatype Key = Key(owner: string, port: string)

  datatype Inbound = Inbound(source: Key, guard: Option<string>)

  /** What a stage contributes to the machine. */
  datatype Region = Region(
    name: string, isGate: bool, inbound: seq<Inbound>, outbound: seq<Key>,
    gateRouted: bool, retry: Option<Retry>)

  /** `routing` lists every routing target of each gate; `eval` is the guard
      evaluator, of which only its being a function of expression and value
      is used. */
  datatype Net = Net(regions: seq<Region>, routing: map<string, seq<string>>, eval: (string, Value) -> bool)

  datatype Phase = Waiting | Executing | Done | Failed

  datatype Reason = NoActiveWire | ExecutorFailed(message: string) | UpstreamCancelled

  datatype Outcome = Finished | Broken(reason: Reason)

  datatype Verdict = Verdict(name: string, outcome: Outcome)

  datatype Mark = MarkExecuting | MarkDone | MarkError | MarkCancelled

  datatype LogEntry = LogEntry(stage: string, mark: Mark)

  /** The authorized and skipped lists are only ever tested for membership and
      are kept as sets. */
  datatype Context = Context(
    ports: map<Key, Value>, authorized: set<string>, skipped: set<string>,
    finals: seq<Verdict>, log: seq<LogEntry>, retries: map<string, nat>)

  datatype Config = Config(phases: seq<Phase>, ctx: Context)

  datatype Event =
    | PortWritten(key: Key, value: Value)
    | StageFailed(stage: string, message: string)
    | StageCancelled(stage: string)
    | GateAnswered(gate: string, targets: seq<string>)

  /** The assignments a transition carries. `RaiseRetry` stands for raising
      RETRY_TO_STAGE together with the counter bump its handler makes. */
  datatype Action =
    | NoAction
    | Fail(reason: Reason)
    | MarkSkipped
    | MarkAuthorized
    | FailAuthorized(why: Reason)
    | ApplyAnswer(gate: string, targets: seq<string>)
    | RaiseRetry

  datatype Move = Stay | Go(target: Phase, action: Action)

  predicate Final(p: Phase) {
    p == Done || p == Failed
  }

  // ----- guards -----

  predicate Settled(w: Inbound, ports: map<Key, Value>) {
    w.source in ports
  }

  predicate Delivers(net: Net, w: Inbound, ports: map<Key, Value>) {
    && Settled(w, ports)
    && (w.guard.None? || w.guard.value == "" || net.eval(w.guard.value, ports[w.source]))
  }

  predicate AllDeliver(net: Net, r: Region, ports: map<Key, Value>) {
    forall i :: 0 <= i < |r.inbound| ==> Delivers(net, r.inbound[i], ports)
  }

  predicate AllSettled(r: Region, ports: map<Key, Value>) {
    forall i :: 0 <= i < |r.inbound| ==> Settled(r.inbound[i], ports)
  }

  predicate Permitted(r: Region, ctx: Context) {
    r.gateRouted ==> r.name in ctx.authorized
  }

  predicate CanActivate(net: Net, r: Region, ctx: Context) {
    Permitted(r, ctx) && AllDeliver(net, r, ctx.ports)
  }

  /** Every source has fired and some wire was dropped by its guard. */
  predicate DeadEnd(net: Net, r: Region, ports: map<Key, Value>) {
    r.inbound != [] && AllSettled(r, ports) && !AllDeliver(net, r, ports)
  }

  predicate NoDeliverableWire(net: Net, r: Region, ctx: Context) {
    Permitted(r, ctx) && DeadEnd(net, r, ctx.ports)
  }

  predicate AllOutbound(r: Region, ports: map<Key, Value>) {
    forall i :: 0 <= i < |r.outbound| ==> r.outbound[i] in ports
  }

  function Siblings(net: Net, gate: string): seq<string> {
    if gate in net.routing then net.routing[gate] else []
  }

  predicate KnownTargets(net: Net, gate: string, targets: seq<string>) {
    forall i :: 0 <= i < |targets| ==> targets[i] in Siblings(net, gate)
  }

  function Count(ctx: Context, name: string): nat {
    if name in ctx.retries then ctx.retries[name] else 0
  }

  predicate HasVerdict(ctx: Context, name: string) {
    exists i :: 0 <= i < |ctx.finals| && ctx.finals[i].name == name
  }

  predicate HasOutcome(ctx: Context, name: string, done: bool) {
    exists i :: 0 <= i < |ctx.finals| && ctx.finals[i].name == name && ctx.finals[i].outcome.Finished? == done
  }

  // ----- transition selection: the first enabled transition of a region -----

  function WaitingMove(net: Net, r: Region, ctx: Context, ev: Event): Move {
    match ev
    case PortWritten(_, _) =>
      if CanActivate(net, r, ctx) then Go(Executing, NoAction)
      else if NoDeliverableWire(net, r, ctx) then Go(Failed, Fail(NoActiveWire))
      else Stay
    case StageFailed(s, message) =>
      if s == r.name then Go(Failed, Fail(ExecutorFailed(message))) else Stay
    case StageCancelled(s) =>
      if s == r.name then Go(Failed, Fail(UpstreamCancelled)) else Stay
    case GateAnswered(g, targets) =>
      if KnownTargets(net, g, targets) && r.name in Siblings(net, g) && r.name !in targets then Go(Done, MarkSkipped)
      else if r.name in targets && AllDeliver(net, r, ctx.ports) then Go(Executing, MarkAuthorized)
      else if r.name in targets && DeadEnd(net, r, ctx.ports) then Go(Failed, FailAuthorized(NoActiveWire))
      else Stay
  }

  predicate RetryLeft(r: Region, ctx: Context) {
    r.retry.Some? && Count(ctx, r.name) < r.retry.value.maxRetries
  }

  function ExecutingMove(r: Region, ctx: Context, ev: Event): Move {
    match ev
    case PortWritten(_, _) =>
      if !r.isGate && AllOutbound(r, ctx.ports) then Go(Done, NoAction) else Stay
    case StageFailed(s, message) =>
      if s != r.name then Stay
      else if RetryLeft(r, ctx) then Go(Waiting, RaiseRetry)
      else Go(Failed, Fail(ExecutorFailed(message)))
    case StageCancelled(s) =>
      if s == r.name then Go(Failed, Fail(UpstreamCancelled)) else Stay
    case GateAnswered(g, targets) =>
      if r.isGate && g == r.name then Go(Done, ApplyAnswer(g, targets)) else Stay
  }

  function EventMove(net: Net, r: Region, p: Phase, ctx: Context, ev: Event): Move {
    match p
    case Waiting => WaitingMove(net, r, ctx, ev)
    case Executing => ExecutingMove(r, ctx, ev)
    case Done => Stay
    case Failed => Stay
  }

  /** Eventless transitions. A verdict already on record sends the region
      straight back to its final state. */
  function AlwaysMove(net: Net, r: Region, p: Phase, ctx: Context): Move {
    match p
    case Waiting =>
      if HasOutcome(ctx, r.name, true) then Go(Done, NoAction)
      else if HasOutcome(ctx, r.name, false) then Go(Failed, NoAction)
      else if r.name in ctx.skipped then Go(Done, NoAction)
      else if CanActivate(net, r, ctx) then Go(Executing, NoAction)
      else if NoDeliverableWire(net, r, ctx) then Go(Failed, Fail(NoActiveWire))
      else Stay
    case Executing =>
      if !r.isGate && AllOutbound(r, ctx.ports) then Go(Done, NoAction) else Stay
    case Done => Stay
    case Failed => Stay
  }

  // ----- assignments -----

  function PushFailure(ctx: Context, name: string, reason: Reason): Context {
    var mark := if reason == UpstreamCancelled then MarkCancelled else MarkError;
    ctx.(log := ctx.log + [LogEntry(name, mark)], finals := ctx.finals + [Verdict(name, Broken(reason))])
  }

  /** The context update of an answered gate: every picked target becomes
      authorized, and if all picked targets are known the other targets of
      the gate become skipped. */
  function AnswerContext(net: Net, ctx: Context, gate: string, targets: seq<string>): Context {
    var skips := if KnownTargets(net, gate, targets)
                 then set t | t in Siblings(net, gate) && t !in targets
                 else {};
    ctx.(authorized := ctx.authorized + (set t | t in targets), skipped := ctx.skipped + skips)
  }

  function Perform(net: Net, ctx: Context, name: string, a: Action): Context {
    match a
    case NoAction => ctx
    case Fail(reason) => PushFailure(ctx, name, reason)
    case MarkSkipped => ctx.(skipped := ctx.skipped + {name})
    case MarkAuthorized => ctx.(authorized := ctx.authorized + {name})
    case FailAuthorized(reason) =>
      var failed := PushFailure(ctx, name, reason);
      failed.(authorized := failed.authorized + {name})
    case ApplyAnswer(g, targets) => AnswerContext(net, ctx, g, targets)
    case RaiseRetry => ctx.(retries := ctx.retries[name := Count(ctx, name) + 1])
  }

  /** Entry actions: `executing` logs; `done` records its verdict unless one
      is already on record. */
  function Enter(ctx: Context, name: string, p: Phase): Context {
    match p
    case Executing => ctx.(log := ctx.log + [LogEntry(name, MarkExecuting)])
    case Done =>
      if HasVerdict(ctx, name) then ctx
      else ctx.(log := ctx.log + [LogEntry(name, MarkDone)], finals := ctx.finals + [Verdict(name, Finished)])
    case Waiting => ctx
    case Failed => ctx
  }

  // ----- one microstep: all selected transitions together -----

  /** Transition actions of the first `k` regions, in region order. */
  function ActFirst(net: Net, ctx: Context, ms: seq<Move>, k: nat): Context
    requires |ms| == |net.regions| && k <= |ms|
  {
    if k == 0 then ctx
    else
      var before := ActFirst(net, ctx, ms, k - 1);
      match ms[k - 1]
      case Stay => before
      case Go(_, a) => Perform(net, before, net.regions[k - 1].name, a)
  }

  /** Entry actions of the first `k` regions, in region order. */
  function EnterFirst(net: Net, ctx: Context, ms: seq<Move>, k: nat): Context
    requires |ms| == |net.regions| && k <= |ms|
  {
    if k == 0 then ctx
    else
      var before := EnterFirst(net, ctx, ms, k - 1);
      match ms[k - 1]
      case Stay => before
      case Go(p, _) => Enter(before, net.regions[k - 1].name, p)
  }

  function Apply(net: Net, c: Config, ms: seq<Move>): (c': Config)
    requires |ms| == |net.regions| == |c.phases|
    ensures |c'.phases| == |c.phases|
  {
    var n := |ms|;
    Config(
      seq(n, i requires 0 <= i < n => if ms[i].Go? then ms[i].target else c.phases[i]),
      EnterFirst(net, ActFirst(net, c.ctx, ms, n), ms, n))
  }

  function EventMoves(net: Net, c: Config, ev: Event): (ms: seq<Move>)
    requires |c.phases| == |net.regions|
    ensures |ms| == |net.regions|
  {
    seq(|net.regions|, i requires 0 <= i < |net.regions| => EventMove(net, net.regions[i], c.phases[i], c.ctx, ev))
  }

  function AlwaysMoves(net: Net, c: Config): (ms: seq<Move>)
    requires |c.phases| == |net.regions|
    ensures |ms| == |net.regions|
  {
    seq(|net.regions|, i requires 0 <= i < |net.regions| => AlwaysMove(net, net.regions[i], c.phases[i], c.ctx))
  }

  predicate AnyMoves(ms: seq<Move>) {
    exists i :: 0 <= i < |ms| && ms[i].Go?
  }

  /** No eventless transition is enabled. */
  predicate Stable(net: Net, c: Config)
    requires |c.phases| == |net.regions|
  {
    !AnyMoves(AlwaysMoves(net, c))
  }

  // ----- termination measure -----

  function Rank(p: Phase): nat {
    match p
    case Waiting => 2
    case Executing => 1
    case Done => 0
    case Failed => 0
  }

  function Budget(r: Region, ctx: Context): nat {
    if RetryLeft(r, ctx) then r.retry.value.maxRetries - Count(ctx, r.name) else 0
  }

  /** Region ranks plus twice the remaining retries, over the first `k` regions. */
  function Potential(net: Net, c: Config, k: nat): nat
    requires |c.phases| == |net.regions| && k <= |net.regions|
  {
    if k == 0 then 0
    else Potential(net, c, k - 1) + Rank(c.phases[k - 1]) + 2 * Budget(net.regions[k - 1], c.ctx)
  }

  /** How many of the first `k` regions take a transition. */
  function Moving(ms: seq<Move>, k: nat): nat
    requires k <= |ms|
  {
    if k == 0 then 0 else Moving(ms, k - 1) + if ms[k - 1].Go? then 1 else 0
  }

  ghost predicate UniqueNames(net: Net) {
    forall i, j :: 0 <= i < j < |net.regions| ==> net.regions[i].name != net.regions[j].name
  }
}
