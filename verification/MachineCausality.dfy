/** Gate answers split a gate's targets for good, and no stage runs ahead of
    its forward ancestors. */
module MachineCausality {
  import opened Ir
  import opened Graph
  import opened Machine
  import opened MachineRun
  import opened MachineFacts
  import opened MachineVerdicts
  import opened MachineSafety

  // ----- prefixes of legal runs -----

  lemma {:induction false} LegalAt(net: Net, ctx: Context, evs: seq<Event>, k: nat)
    requires UniqueNames(net) && Legal(net, ctx, evs) && k < |evs|
    ensures Legal(net, ctx, evs[..k]) && Allowed(net, Run(net, ctx, evs[..k]), evs[k])
  {
    if k < |evs| - 1 {
      LegalAt(net, ctx, evs[..|evs| - 1], k);
      assert evs[..|evs| - 1][..k] == evs[..k];
    }
  }

  lemma {:induction false} FinalSince(net: Net, ctx: Context, evs: seq<Event>, k: nat, i: nat)
    requires UniqueNames(net) && OneVerdictEach(net, ctx) && k <= |evs| && i < |net.regions|
    requires Final(Run(net, ctx, evs[..k]).phases[i])
    ensures Run(net, ctx, evs).phases[i] == Run(net, ctx, evs[..k]).phases[i]
  {
    if k == |evs| {
      assert evs[..k] == evs;
    } else {
      var before := evs[..|evs| - 1];
      assert before[..k] == evs[..k];
      FinalSince(net, ctx, before, k, i);
      RunAgrees(net, ctx, before);
      FinalIsForever(net, Run(net, ctx, before), evs[|evs| - 1], i);
    }
  }

  // ----- answers -----

  lemma {:induction false} SettleKeepsFinal(net: Net, c: Config, i: nat)
    requires |c.phases| == |net.regions| && UniqueNames(net) && i < |net.regions| && Final(c.phases[i])
    ensures Settle(net, c).phases[i] == c.phases[i]
    decreases Potential(net, c, |net.regions|)
  {
    if !Stable(net, c) {
      AlwaysSpends(net, c);
      SettleKeepsFinal(net, Apply(net, c, AlwaysMoves(net, c)), i);
    }
  }

  /** A legal answer ends its gate. */
  lemma AnswerEndsGate(net: Net, c: Config, ev: Event) returns (i: nat)
    requires |c.phases| == |net.regions| && UniqueNames(net) && Allowed(net, c, ev) && ev.GateAnswered?
    ensures i < |net.regions| && net.regions[i].name == ev.gate && c.phases[i] == Executing
    ensures Step(net, c, ev).phases[i] == Done
  {
    i :| 0 <= i < |net.regions| && net.regions[i].isGate && net.regions[i].name == ev.gate && c.phases[i] == Executing;
    assert EventMoves(net, c, ev)[i] == Go(Done, ApplyAnswer(ev.gate, ev.targets));
    SettleKeepsFinal(net, React(net, c, ev), i);
  }

  lemma FreshHasNoVerdicts(net: Net, ctx: Context)
    requires Fresh(net, ctx)
    ensures OneVerdictEach(net, ctx)
  {
  }

  lemma GateDoneAfter(net: Net, ctx: Context, evs: seq<Event>, k: nat) returns (i: nat)
    requires UniqueNames(net) && Legal(net, ctx, evs) && k < |evs| && evs[k].GateAnswered?
    ensures i < |net.regions| && net.regions[i].name == evs[k].gate
    ensures Run(net, ctx, evs[..k]).phases[i] == Executing && Run(net, ctx, evs[..k + 1]).phases[i] == Done
  {
    LegalAt(net, ctx, evs, k);
    i := AnswerEndsGate(net, Run(net, ctx, evs[..k]), evs[k]);
    assert evs[..k + 1][..k] == evs[..k];
  }

  /** No gate is answered twice in a legal run. */
  lemma AnsweredOnce(net: Net, ctx: Context, evs: seq<Event>, k: nat, l: nat)
    requires UniqueNames(net) && Fresh(net, ctx) && Legal(net, ctx, evs) && k < l < |evs|
    requires evs[k].GateAnswered? && evs[l].GateAnswered?
    ensures evs[k].gate != evs[l].gate
  {
    FreshHasNoVerdicts(net, ctx);
    var i := GateDoneAfter(net, ctx, evs, k);
    var j := GateDoneAfter(net, ctx, evs, l);
    assert evs[..l][..k + 1] == evs[..k + 1];
    FinalSince(net, ctx, evs[..l], k + 1, i);
    assert i != j;
  }

  lemma {:induction false} PickedWhen(evs: seq<Event>, x: string)
    ensures x in Picked(evs) <==> exists k :: 0 <= k < |evs| && x in PickedBy(evs[k])
  {
    if evs != [] {
      var before := evs[..|evs| - 1];
      PickedWhen(before, x);
      assert forall k :: 0 <= k < |before| ==> before[k] == evs[k];
    }
  }

  lemma {:induction false} PassedOverWhen(net: Net, evs: seq<Event>, x: string)
    ensures x in PassedOver(net, evs) <==> exists k :: 0 <= k < |evs| && x in PassedOverBy(net, evs[k])
  {
    if evs != [] {
      var before := evs[..|evs| - 1];
      PassedOverWhen(net, before, x);
      assert forall k :: 0 <= k < |before| ==> before[k] == evs[k];
    }
  }

  ghost predicate NoSharedTargets(net: Net) {
    forall g, h, x :: g != h && x in Siblings(net, g) ==> x !in Siblings(net, h)
  }

  /** Only the answer of its own gate decides about a target. */
  lemma OneDecision(net: Net, ctx: Context, evs: seq<Event>, k: nat, l: nat, x: string)
    requires UniqueNames(net) && Fresh(net, ctx) && Legal(net, ctx, evs) && NoSharedTargets(net)
    requires k < |evs| && evs[k].GateAnswered? && x in Siblings(net, evs[k].gate)
    requires l < |evs| && (x in PickedBy(evs[l]) || x in PassedOverBy(net, evs[l]))
    ensures l == k
  {
    LegalAt(net, ctx, evs, l);
    assert x in Siblings(net, evs[l].gate);
    if l < k { AnsweredOnce(net, ctx, evs, l, k); }
    if k < l { AnsweredOnce(net, ctx, evs, k, l); }
  }

  /** If gates share no routing targets, an answered gate's targets are split
      for the rest of the run: the picked ones are authorized and not skipped,
      the others skipped and not authorized. */
  lemma AnswerSplitsTargets(net: Net, ctx: Context, evs: seq<Event>, k: nat, x: string)
    requires UniqueNames(net) && Fresh(net, ctx) && Legal(net, ctx, evs) && NoSharedTargets(net)
    requires k < |evs| && evs[k].GateAnswered? && x in Siblings(net, evs[k].gate)
    ensures var d := Run(net, ctx, evs).ctx;
      && (x in evs[k].targets ==> x in d.authorized && x !in d.skipped)
      && (x !in evs[k].targets ==> x in d.skipped && x !in d.authorized)
  {
    AnswersDecide(net, ctx, evs);
    PickedWhen(evs, x);
    PassedOverWhen(net, evs, x);
    if l :| 0 <= l < |evs| && x in PickedBy(evs[l]) { OneDecision(net, ctx, evs, k, l, x); }
    if l :| 0 <= l < |evs| && x in PassedOverBy(net, evs[l]) { OneDecision(net, ctx, evs, k, l, x); }
    assert x in evs[k].targets ==> x in PickedBy(evs[k]);
    assert x !in evs[k].targets ==> x in PassedOverBy(net, evs[k]);
  }

  lemma {:induction false} SettleStartsGrow(net: Net, c: Config, i: nat)
    requires |c.phases| == |net.regions| && UniqueNames(net) && i < |net.regions|
    ensures Starts(Settle(net, c).ctx, net.regions[i].name) >= Starts(c.ctx, net.regions[i].name)
    decreases Potential(net, c, |net.regions|)
  {
    if !Stable(net, c) {
      AlwaysSpends(net, c);
      ApplyStarts(net, c, AlwaysMoves(net, c), i);
      SettleStartsGrow(net, Apply(net, c, AlwaysMoves(net, c)), i);
    }
  }

  lemma StepStartsGrow(net: Net, c: Config, ev: Event, i: nat)
    requires |c.phases| == |net.regions| && UniqueNames(net) && i < |net.regions|
    ensures Starts(Step(net, c, ev).ctx, net.regions[i].name) >= Starts(c.ctx, net.regions[i].name)
  {
    if !Completed(c) {
      ApplyStarts(net, c, EventMoves(net, c, ev), i);
      SettleStartsGrow(net, React(net, c, ev), i);
    }
  }

  lemma {:induction false} SettleKeepsStarts(net: Net, c: Config, i: nat)
    requires |c.phases| == |net.regions| && UniqueNames(net) && i < |net.regions| && Final(c.phases[i])
    ensures Starts(Settle(net, c).ctx, net.regions[i].name) == Starts(c.ctx, net.regions[i].name)
    decreases Potential(net, c, |net.regions|)
  {
    if !Stable(net, c) {
      AlwaysSpends(net, c);
      ApplyStarts(net, c, AlwaysMoves(net, c), i);
      SettleKeepsStarts(net, Apply(net, c, AlwaysMoves(net, c)), i);
    }
  }

  /** A final region stays final and never starts again. */
  lemma FinalNeverStarts(net: Net, c: Config, ev: Event, i: nat)
    requires |c.phases| == |net.regions| && UniqueNames(net) && i < |net.regions| && Final(c.phases[i])
    ensures Final(Step(net, c, ev).phases[i])
    ensures Starts(Step(net, c, ev).ctx, net.regions[i].name) == Starts(c.ctx, net.regions[i].name)
  {
    if !Completed(c) {
      ApplyStarts(net, c, EventMoves(net, c, ev), i);
      SettleKeepsFinal(net, React(net, c, ev), i);
      SettleKeepsStarts(net, React(net, c, ev), i);
    }
  }

  /** Over before it could begin. */
  predicate Forgone(net: Net, c: Config, i: nat)
    requires |c.phases| == |net.regions| && i < |net.regions|
  {
    Final(c.phases[i]) && !HasStarted(c.ctx, net.regions[i].name)
  }

  /** An answer that passes over a stage that has not started ends it. */
  lemma PassedOverIsForgone(net: Net, c: Config, ev: Event, i: nat)
    requires |c.phases| == |net.regions| && UniqueNames(net) && i < |net.regions| && RegionSafe(net, c, i)
    requires Allowed(net, c, ev) && net.regions[i].name in PassedOverBy(net, ev)
    requires !HasStarted(c.ctx, net.regions[i].name)
    ensures Forgone(net, Step(net, c, ev), i)
  {
    if Final(c.phases[i]) {
      FinalNeverStarts(net, c, ev, i);
    } else {
      var ms := EventMoves(net, c, ev);
      assert ms[i] == Go(Done, MarkSkipped);
      ApplyStarts(net, c, ms, i);
      SettleKeepsFinal(net, React(net, c, ev), i);
      SettleKeepsStarts(net, React(net, c, ev), i);
    }
  }

  lemma {:induction false} ForgoneSince(net: Net, ctx: Context, evs: seq<Event>, k: nat, i: nat)
    requires UniqueNames(net) && k <= |evs| && i < |net.regions| && Forgone(net, Run(net, ctx, evs[..k]), i)
    ensures Forgone(net, Run(net, ctx, evs), i)
  {
    if k == |evs| {
      assert evs[..k] == evs;
    } else {
      var before := evs[..|evs| - 1];
      assert before[..k] == evs[..k];
      ForgoneSince(net, ctx, before, k, i);
      FinalNeverStarts(net, Run(net, ctx, before), evs[|evs| - 1], i);
    }
  }

  lemma {:induction false} StartedSince(net: Net, ctx: Context, evs: seq<Event>, k: nat, i: nat)
    requires UniqueNames(net) && k <= |evs| && i < |net.regions|
    requires HasStarted(Run(net, ctx, evs[..k]).ctx, net.regions[i].name)
    ensures HasStarted(Run(net, ctx, evs).ctx, net.regions[i].name)
  {
    if k == |evs| {
      assert evs[..k] == evs;
    } else {
      var before := evs[..|evs| - 1];
      assert before[..k] == evs[..k];
      StartedSince(net, ctx, before, k, i);
      StepStartsGrow(net, Run(net, ctx, before), evs[|evs| - 1], i);
    }
  }

  /** A stage passed over while it has not started is forgone from then on. */
  lemma PassedOverSince(net: Net, ctx: Context, evs: seq<Event>, k: nat, i: nat)
    requires UniqueNames(net) && Fresh(net, ctx) && Legal(net, ctx, evs) && i < |net.regions| && k < |evs|
    requires net.regions[i].name in PassedOverBy(net, evs[k])
    requires !HasStarted(Run(net, ctx, evs[..k]).ctx, net.regions[i].name)
    ensures Forgone(net, Run(net, ctx, evs), i)
  {
    LegalAt(net, ctx, evs, k);
    RunSafe(net, ctx, evs[..k]);
    assert RegionSafe(net, Run(net, ctx, evs[..k]), i);
    PassedOverIsForgone(net, Run(net, ctx, evs[..k]), evs[k], i);
    assert evs[..k + 1][..k] == evs[..k];
    ForgoneSince(net, ctx, evs, k + 1, i);
  }

  /** The answer `l` picks the stage and none before it passed it over. */
  ghost predicate FirstPicked(net: Net, evs: seq<Event>, l: nat, x: string) {
    && l < |evs| && x in PickedBy(evs[l])
    && forall k :: 0 <= k < l ==> x !in PassedOverBy(net, evs[k])
  }

  /** Of several gates that route to a stage the first answer decides: a
      gate-routed stage that has started was picked by an answer before which
      none had passed it over. */
  lemma {:induction false} FirstAnswerDecides(net: Net, ctx: Context, evs: seq<Event>, i: nat) returns (l: nat)
    requires UniqueNames(net) && Fresh(net, ctx) && Legal(net, ctx, evs)
    requires i < |net.regions| && net.regions[i].gateRouted
    requires HasStarted(Run(net, ctx, evs).ctx, net.regions[i].name)
    ensures FirstPicked(net, evs, l, net.regions[i].name)
  {
    var x := net.regions[i].name;
    GateRoutedRunsOnlyIfPicked(net, ctx, evs, i);
    PickedWhen(evs, x);
    var before := evs[..|evs| - 1];
    if HasStarted(Run(net, ctx, before).ctx, x) {
      l := FirstAnswerDecides(net, ctx, before, i);
      assert forall k :: 0 <= k <= l ==> before[k] == evs[k];
    } else {
      l :| 0 <= l < |evs| && x in PickedBy(evs[l]);
      forall k | 0 <= k < l ensures x !in PassedOverBy(net, evs[k]) {
        if x in PassedOverBy(net, evs[k]) { NotPassedOverBefore(net, ctx, evs, k, i); }
      }
    }
  }

  lemma NotPassedOverBefore(net: Net, ctx: Context, evs: seq<Event>, k: nat, i: nat)
    requires UniqueNames(net) && Fresh(net, ctx) && Legal(net, ctx, evs) && i < |net.regions| && k < |evs| - 1
    requires HasStarted(Run(net, ctx, evs).ctx, net.regions[i].name)
    requires !HasStarted(Run(net, ctx, evs[..|evs| - 1]).ctx, net.regions[i].name)
    ensures net.regions[i].name !in PassedOverBy(net, evs[k])
  {
    var before := evs[..|evs| - 1];
    assert before[..k] == evs[..k];
    if net.regions[i].name in PassedOverBy(net, evs[k]) {
      if HasStarted(Run(net, ctx, before[..k]).ctx, net.regions[i].name) {
        StartedSince(net, ctx, before, k, i);
      } else {
        PassedOverSince(net, ctx, evs, k, i);
      }
    }
  }

  /** A gate-routed stage that the answer of its gate passed over never runs,
      if no other gate routes to it. */
  lemma PassedOverNeverRuns(net: Net, ctx: Context, evs: seq<Event>, k: nat, i: nat)
    requires UniqueNames(net) && Fresh(net, ctx) && Legal(net, ctx, evs)
    requires i < |net.regions| && net.regions[i].gateRouted
    requires k < |evs| && evs[k].GateAnswered? && net.regions[i].name in Siblings(net, evs[k].gate)
    requires forall g :: net.regions[i].name in Siblings(net, g) ==> g == evs[k].gate
    requires net.regions[i].name !in evs[k].targets
    ensures !HasStarted(Run(net, ctx, evs).ctx, net.regions[i].name)
  {
    var x := net.regions[i].name;
    if HasStarted(Run(net, ctx, evs).ctx, x) {
      var l := FirstAnswerDecides(net, ctx, evs, i);
      LegalAt(net, ctx, evs, l);
      assert x in Siblings(net, evs[l].gate);
      if l < k { AnsweredOnce(net, ctx, evs, l, k); }
      if k < l { AnsweredOnce(net, ctx, evs, k, l); }
    }
  }

  // ----- ancestors -----

  /** Forward wires between stages: all but the gate feedback back-edges. */
  function ForwardEdges(net: Net): set<Edge> {
    set i, j | 0 <= i < |net.regions| && 0 <= j < |net.regions[i].inbound|
               && net.regions[i].inbound[j].source.port != GATE_FEEDBACK
               && IsStage(net, net.regions[i].inbound[j].source.owner)
      :: (net.regions[i].inbound[j].source.owner, net.regions[i].name)
  }

  /** Every filled port of a stage belongs to a stage that has started. */
  ghost predicate PortsFromStarted(net: Net, c: Config) {
    forall k :: k in c.ctx.ports && IsStage(net, k.owner) && k.port != GATE_FEEDBACK ==> HasStarted(c.ctx, k.owner)
  }

  lemma StageStartsGrow(net: Net, c: Config, ev: Event, name: string)
    requires |c.phases| == |net.regions| && UniqueNames(net) && IsStage(net, name)
    ensures HasStarted(c.ctx, name) ==> HasStarted(Step(net, c, ev).ctx, name)
  {
    var i :| 0 <= i < |net.regions| && net.regions[i].name == name;
    StepStartsGrow(net, c, ev, i);
  }

  lemma {:induction false} RunPorts(net: Net, ctx: Context, evs: seq<Event>)
    requires UniqueNames(net) && Fresh(net, ctx) && Legal(net, ctx, evs)
    ensures PortsFromStarted(net, Run(net, ctx, evs))
  {
    if evs != [] {
      var c, ev := Run(net, ctx, evs[..|evs| - 1]), evs[|evs| - 1];
      RunPorts(net, ctx, evs[..|evs| - 1]);
      StepPorts(net, c, ev);
      forall k | k in Step(net, c, ev).ctx.ports && IsStage(net, k.owner) && k.port != GATE_FEEDBACK
        ensures HasStarted(Step(net, c, ev).ctx, k.owner)
      {
        assert k in c.ctx.ports || (IsWrite(ev) && k == ev.key);
        StageStartsGrow(net, c, ev, k.owner);
      }
    }
  }

  /** A stage that has started is past `waiting` once the machine is stable. */
  lemma StartedNotWaiting(net: Net, c: Config, i: nat)
    requires |c.phases| == |net.regions| && i < |net.regions| && Stable(net, c) && RegionSafe(net, c, i)
    requires HasStarted(c.ctx, net.regions[i].name)
    ensures c.phases[i] != Waiting
  {
    assert AlwaysMoves(net, c)[i].Stay?;
  }

  lemma StartedSource(net: Net, c: Config, e: Edge)
    requires |c.phases| == |net.regions| && UniqueNames(net) && Safe(net, c) && PortsFromStarted(net, c)
    requires e in ForwardEdges(net) && HasStarted(c.ctx, e.1)
    ensures HasStarted(c.ctx, e.0)
  {
    var i, j :| 0 <= i < |net.regions| && 0 <= j < |net.regions[i].inbound|
               && net.regions[i].inbound[j].source.port != GATE_FEEDBACK
               && IsStage(net, net.regions[i].inbound[j].source.owner)
               && e == (net.regions[i].inbound[j].source.owner, net.regions[i].name);
    assert RegionSafe(net, c, i);
    assert Settled(net.regions[i].inbound[j], c.ctx.ports);
  }

  lemma {:induction false} StartedAncestor(net: Net, c: Config, p: seq<string>)
    requires |c.phases| == |net.regions| && UniqueNames(net) && Safe(net, c) && PortsFromStarted(net, c)
    requires IsPath(ForwardEdges(net), p) && HasStarted(c.ctx, p[|p| - 1])
    ensures HasStarted(c.ctx, p[0])
    decreases |p|
  {
    if |p| > 1 {
      assert (p[|p| - 2], p[|p| - 2 + 1]) in ForwardEdges(net);
      StartedSource(net, c, (p[|p| - 2], p[|p| - 1]));
      PathPrefix(ForwardEdges(net), p, |p| - 1);
      StartedAncestor(net, c, p[..|p| - 1]);
    }
  }

  /** In a legal first run, once a stage has entered `executing`, or one of its
      ports has been written, it and every transitive forward ancestor of it
      have left `waiting`. */
  lemma AncestorsHaveLeftWaiting(net: Net, ctx: Context, evs: seq<Event>, i: nat, s: string)
    requires UniqueNames(net) && Fresh(net, ctx) && Legal(net, ctx, evs) && i < |net.regions|
    requires Reaches(ForwardEdges(net), net.regions[i].name, s) && IsStage(net, s)
    requires var c := Run(net, ctx, evs);
             HasStarted(c.ctx, s) || exists port :: port != GATE_FEEDBACK && Key(s, port) in c.ctx.ports
    ensures Run(net, ctx, evs).phases[i] != Waiting
  {
    var c := Run(net, ctx, evs);
    RunSafe(net, ctx, evs);
    RunPorts(net, ctx, evs);
    var p :| PathFromTo(ForwardEdges(net), p, net.regions[i].name, s);
    StartedAncestor(net, c, p);
    assert RegionSafe(net, c, i);
    StartedNotWaiting(net, c, i);
  }

  /** Hence an answered gate never ends, as an unpicked sibling, a rollback
      target that is still waiting to run: every forward ancestor of an
      executing gate takes no transition on that gate's answer. */
  lemma AnswerSparesRollbackTargets(net: Net, ctx: Context, evs: seq<Event>, ev: Event, i: nat)
    requires UniqueNames(net) && Fresh(net, ctx) && Legal(net, ctx, evs) && i < |net.regions|
    requires ev.GateAnswered? && Allowed(net, Run(net, ctx, evs), ev)
    requires ReachesPlus(ForwardEdges(net), net.regions[i].name, ev.gate) && net.regions[i].name != ev.gate
    ensures EventMoves(net, Run(net, ctx, evs), ev)[i].Stay?
  {
    var c := Run(net, ctx, evs);
    var g := AnswerEndsGate(net, c, ev);
    RunSafe(net, ctx, evs);
    assert RegionSafe(net, c, g);
    AncestorsHaveLeftWaiting(net, ctx, evs, i, ev.gate);
  }
}
