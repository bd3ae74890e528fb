/** Safety over whole runs: what must hold when a stage starts, what an
    answered gate authorizes and skips, and why no stage runs ahead of its
    ancestors. */
module MachineSafety {
  import opened Ir
  import opened Machine
  import opened MachineRun
  import opened MachineFacts

  predicate HasStarted(ctx: Context, name: string) {
    Starts(ctx, name) > 0
  }

  predicate IsStage(net: Net, name: string) {
    exists i :: 0 <= i < |net.regions| && net.regions[i].name == name
  }

  // ----- the environment -----

  /** What the executor and the human may send: a stage's own ports are
      written only once it has started; only a gate that is executing is
      answered, and only with targets from its routing table. Failures and
      cancellations may arrive at any time. */
  predicate Allowed(net: Net, c: Config, ev: Event)
    requires |c.phases| == |net.regions|
  {
    match ev
    case PortWritten(k, _) =>
      IsStage(net, k.owner) && k.port != GATE_FEEDBACK ==> HasStarted(c.ctx, k.owner)
    case GateAnswered(g, targets) =>
      KnownTargets(net, g, targets)
      && exists i :: 0 <= i < |net.regions| && net.regions[i].isGate && net.regions[i].name == g && c.phases[i] == Executing
    case _ => true
  }

  /** Every event was allowed in the configuration it met. */
  predicate Legal(net: Net, ctx: Context, evs: seq<Event>)
    requires UniqueNames(net)
  {
    evs != [] ==>
      && Legal(net, ctx, evs[..|evs| - 1])
      && Allowed(net, Run(net, ctx, evs[..|evs| - 1]), evs[|evs| - 1])
  }

  /** The context of a first run: nothing recorded, and of the stages' ports
      at most the gate feedback slots filled. */
  ghost predicate Fresh(net: Net, ctx: Context) {
    && ctx.finals == [] && ctx.log == [] && ctx.authorized == {} && ctx.skipped == {} && ctx.retries == map[]
    && forall k :: k in ctx.ports ==> k.port == GATE_FEEDBACK || !IsStage(net, k.owner)
  }

  // ----- activation -----

  /** A transition into `executing` has all wires delivering, and the stage
      permitted or being authorized by the same transition. */
  predicate SoundStart(net: Net, r: Region, ctx: Context, m: Move) {
    m.Go? && m.target == Executing ==>
      AllDeliver(net, r, ctx.ports) && (Permitted(r, ctx) || m.action == MarkAuthorized)
  }

  predicate RegionSafe(net: Net, c: Config, i: nat)
    requires |c.phases| == |net.regions| && i < |net.regions|
  {
    var r := net.regions[i];
    && (c.phases[i] == Executing ==> HasStarted(c.ctx, r.name))
    && (HasStarted(c.ctx, r.name) ==> AllSettled(r, c.ctx.ports) && Permitted(r, c.ctx))
  }

  ghost predicate Safe(net: Net, c: Config)
    requires |c.phases| == |net.regions|
  {
    forall i :: 0 <= i < |net.regions| ==> RegionSafe(net, c, i)
  }

  lemma ApplySafe(net: Net, c: Config, ms: seq<Move>, i: nat)
    requires |ms| == |net.regions| == |c.phases| && i < |ms| && UniqueNames(net)
    requires RegionSafe(net, c, i) && SoundStart(net, net.regions[i], c.ctx, ms[i])
    ensures RegionSafe(net, Apply(net, c, ms), i)
  {
    ApplyStarts(net, c, ms, i);
    ApplyPorts(net, c, ms);
    ApplySets(net, c, ms, net.regions[i].name);
  }

  lemma {:induction false} SettleSafe(net: Net, c: Config)
    requires |c.phases| == |net.regions| && UniqueNames(net) && Safe(net, c)
    ensures Safe(net, Settle(net, c))
    decreases Potential(net, c, |net.regions|)
  {
    if !Stable(net, c) {
      AlwaysSpends(net, c);
      var next := Apply(net, c, AlwaysMoves(net, c));
      forall i | 0 <= i < |net.regions| ensures RegionSafe(net, next, i) {
        ApplySafe(net, c, AlwaysMoves(net, c), i);
      }
      SettleSafe(net, next);
    }
  }

  lemma StepSafe(net: Net, c: Config, ev: Event)
    requires |c.phases| == |net.regions| && UniqueNames(net) && Safe(net, c)
    ensures Safe(net, Step(net, c, ev))
  {
    if !Completed(c) {
      var next, ms := React(net, c, ev), EventMoves(net, c, ev);
      forall i | 0 <= i < |net.regions| ensures RegionSafe(net, next, i) {
        assert RegionSafe(net, c, i);
        if AnyMoves(ms) { ApplySafe(net, c, ms, i); }
      }
      SettleSafe(net, next);
    }
  }

  lemma {:induction false} RunSafe(net: Net, ctx: Context, evs: seq<Event>)
    requires UniqueNames(net) && Fresh(net, ctx)
    ensures Safe(net, Run(net, ctx, evs))
  {
    if evs == [] {
      SettleSafe(net, Config(seq(|net.regions|, _ => Waiting), ctx));
    } else {
      RunSafe(net, ctx, evs[..|evs| - 1]);
      StepSafe(net, Run(net, ctx, evs[..|evs| - 1]), evs[|evs| - 1]);
    }
  }

  lemma {:induction false} SettleStarts(net: Net, c: Config, i: nat)
    requires |c.phases| == |net.regions| && UniqueNames(net) && i < |net.regions|
    ensures var r, d := net.regions[i], Settle(net, c);
            Starts(d.ctx, r.name) > Starts(c.ctx, r.name) ==> AllDeliver(net, r, d.ctx.ports) && Permitted(r, d.ctx)
    ensures net.regions[i].name in c.ctx.authorized ==> net.regions[i].name in Settle(net, c).ctx.authorized
    decreases Potential(net, c, |net.regions|)
  {
    if !Stable(net, c) {
      AlwaysSpends(net, c);
      ApplyStarts(net, c, AlwaysMoves(net, c), i);
      ApplyPorts(net, c, AlwaysMoves(net, c));
      ApplySets(net, c, AlwaysMoves(net, c), net.regions[i].name);
      SettleStarts(net, Apply(net, c, AlwaysMoves(net, c)), i);
    }
  }

  lemma ReactStarts(net: Net, c: Config, ev: Event, i: nat)
    requires |c.phases| == |net.regions| && UniqueNames(net) && i < |net.regions|
    ensures var r, d := net.regions[i], React(net, c, ev);
            Starts(d.ctx, r.name) > Starts(c.ctx, r.name) ==> AllDeliver(net, r, d.ctx.ports) && Permitted(r, d.ctx)
  {
    var ms := EventMoves(net, c, ev);
    if AnyMoves(ms) {
      ApplyStarts(net, c, ms, i);
      ApplyPorts(net, c, ms);
      ApplySets(net, c, ms, net.regions[i].name);
    }
  }

  /** Whenever a step makes a stage enter `executing`, first time or retry,
      every inbound wire is settled with its guard true on the port values
      the step ends with, and a gate-routed stage is authorized. */
  lemma StartsOnlyWhenDelivered(net: Net, c: Config, ev: Event, i: nat)
    requires |c.phases| == |net.regions| && UniqueNames(net) && i < |net.regions| && Stable(net, c)
    ensures var r, d := net.regions[i], Step(net, c, ev);
            Starts(d.ctx, r.name) > Starts(c.ctx, r.name) ==> AllDeliver(net, r, d.ctx.ports) && Permitted(r, d.ctx)
  {
    if !Completed(c) {
      ReactStarts(net, c, ev, i);
      SettleStarts(net, React(net, c, ev), i);
    }
  }

  // ----- authorizations are exactly the picked targets -----

  function PickedBy(ev: Event): set<string> {
    if ev.GateAnswered? then set t | t in ev.targets else {}
  }

  function PassedOverBy(net: Net, ev: Event): set<string> {
    if ev.GateAnswered? then set t | t in Siblings(net, ev.gate) && t !in ev.targets else {}
  }

  /** All targets picked by the answers of a run. */
  function Picked(evs: seq<Event>): set<string> {
    if evs == [] then {} else Picked(evs[..|evs| - 1]) + PickedBy(evs[|evs| - 1])
  }

  /** All routing targets the answers of a run passed over. */
  function PassedOver(net: Net, evs: seq<Event>): set<string> {
    if evs == [] then {} else PassedOver(net, evs[..|evs| - 1]) + PassedOverBy(net, evs[|evs| - 1])
  }

  lemma {:induction false} SettleKeepsSets(net: Net, c: Config)
    requires |c.phases| == |net.regions| && UniqueNames(net)
    ensures var d := Settle(net, c).ctx; d.authorized == c.ctx.authorized && d.skipped == c.ctx.skipped
    decreases Potential(net, c, |net.regions|)
  {
    if !Stable(net, c) {
      AlwaysSpends(net, c);
      AlwaysKeepsSets(net, c);
      SettleKeepsSets(net, Apply(net, c, AlwaysMoves(net, c)));
    }
  }

  /** A single region never authorizes or skips more than the event decides. */
  lemma NoMoreThanTheAnswer(net: Net, c: Config, ev: Event, j: nat)
    requires |c.phases| == |net.regions| && j < |net.regions| && Allowed(net, c, ev)
    ensures Authorizes(EventMoves(net, c, ev)[j], net.regions[j].name) <= PickedBy(ev)
    ensures Skips(net, EventMoves(net, c, ev)[j], net.regions[j].name) <= PassedOverBy(net, ev)
  {
  }

  /** The answered gate's own transition decides all of it. */
  lemma TheGateDecides(net: Net, c: Config, ev: Event) returns (i: nat)
    requires |c.phases| == |net.regions| && Allowed(net, c, ev) && ev.GateAnswered?
    ensures i < |net.regions| && EventMoves(net, c, ev)[i].Go?
    ensures Authorizes(EventMoves(net, c, ev)[i], net.regions[i].name) == PickedBy(ev)
    ensures Skips(net, EventMoves(net, c, ev)[i], net.regions[i].name) == PassedOverBy(net, ev)
  {
    i :| 0 <= i < |net.regions| && net.regions[i].isGate && net.regions[i].name == ev.gate && c.phases[i] == Executing;
    assert EventMoves(net, c, ev)[i] == Go(Done, ApplyAnswer(ev.gate, ev.targets));
  }

  lemma ReactSets(net: Net, c: Config, ev: Event, x: string)
    requires |c.phases| == |net.regions| && UniqueNames(net) && Allowed(net, c, ev)
    ensures x in React(net, c, ev).ctx.authorized <==> x in c.ctx.authorized || x in PickedBy(ev)
    ensures x in React(net, c, ev).ctx.skipped <==> x in c.ctx.skipped || x in PassedOverBy(net, ev)
  {
    var ms := EventMoves(net, c, ev);
    ApplySets(net, c, ms, x);
    forall j | 0 <= j < |ms|
      ensures x in Authorizes(ms[j], net.regions[j].name) ==> x in PickedBy(ev)
      ensures x in Skips(net, ms[j], net.regions[j].name) ==> x in PassedOverBy(net, ev)
    {
      NoMoreThanTheAnswer(net, c, ev, j);
    }
    if ev.GateAnswered? { var i := TheGateDecides(net, c, ev); }
  }

  lemma StepSets(net: Net, c: Config, ev: Event)
    requires |c.phases| == |net.regions| && UniqueNames(net) && Allowed(net, c, ev)
    ensures Step(net, c, ev).ctx.authorized == c.ctx.authorized + PickedBy(ev)
    ensures Step(net, c, ev).ctx.skipped == c.ctx.skipped + PassedOverBy(net, ev)
  {
    if !Completed(c) {
      var d := React(net, c, ev).ctx;
      forall x ensures x in d.authorized <==> x in c.ctx.authorized + PickedBy(ev) { ReactSets(net, c, ev, x); }
      forall x ensures x in d.skipped <==> x in c.ctx.skipped + PassedOverBy(net, ev) { ReactSets(net, c, ev, x); }
      SettleKeepsSets(net, React(net, c, ev));
    } else if ev.GateAnswered? {
      var i := TheGateDecides(net, c, ev);
    }
  }

  /** In a legal first run the authorized stages are exactly the picked
      targets, and the skipped ones exactly the targets passed over. */
  lemma {:induction false} AnswersDecide(net: Net, ctx: Context, evs: seq<Event>)
    requires UniqueNames(net) && Fresh(net, ctx) && Legal(net, ctx, evs)
    ensures Run(net, ctx, evs).ctx.authorized == Picked(evs)
    ensures Run(net, ctx, evs).ctx.skipped == PassedOver(net, evs)
  {
    if evs == [] {
      SettleKeepsSets(net, Config(seq(|net.regions|, _ => Waiting), ctx));
    } else {
      AnswersDecide(net, ctx, evs[..|evs| - 1]);
      StepSets(net, Run(net, ctx, evs[..|evs| - 1]), evs[|evs| - 1]);
    }
  }

  /** A stage that runs in a first run has all its wires settled, and if it is
      gate-routed some answer picked it. */
  lemma GateRoutedRunsOnlyIfPicked(net: Net, ctx: Context, evs: seq<Event>, i: nat)
    requires UniqueNames(net) && Fresh(net, ctx) && Legal(net, ctx, evs) && i < |net.regions|
    requires HasStarted(Run(net, ctx, evs).ctx, net.regions[i].name)
    ensures AllSettled(net.regions[i], Run(net, ctx, evs).ctx.ports)
    ensures net.regions[i].gateRouted ==> net.regions[i].name in Picked(evs)
  {
    RunSafe(net, ctx, evs);
    assert RegionSafe(net, Run(net, ctx, evs), i);
    AnswersDecide(net, ctx, evs);
  }
}
