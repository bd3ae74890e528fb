/** No deadlock: a first run that has gone quiet either has completed or every
    stage still waiting traces back to a stage that failed, was skipped, or is
    a gate without an answer. */
module MachineProgress {
  import opened Ir
  import opened Graph
  import opened Machine
  import opened MachineRun
  import opened MachineFacts
  import opened MachineSafety
  import opened MachineCausality

  // ----- why a region is done -----

  predicate Decided(net: Net, ctx: Context, gate: string) {
    forall k :: 0 <= k < |Siblings(net, gate)| ==> Siblings(net, gate)[k] in ctx.authorized + ctx.skipped
  }

  /** Nothing is left to do for the region's readers: it wrote all its ports,
      or is a gate whose targets have all been decided. */
  predicate Fulfilled(net: Net, r: Region, ctx: Context) {
    if r.isGate then Decided(net, ctx, r.name) else AllOutbound(r, ctx.ports)
  }

  predicate DoneExplained(net: Net, r: Region, ctx: Context) {
    r.name in ctx.skipped || Fulfilled(net, r, ctx)
  }

  /** Regions that are not final have no verdict, and done ones a reason. */
  predicate Explained(net: Net, c: Config, i: nat)
    requires |c.phases| == |net.regions| && i < |net.regions|
  {
    && (!Final(c.phases[i]) ==> Of(c.ctx.finals, net.regions[i].name) == [])
    && (c.phases[i] == Done ==> DoneExplained(net, net.regions[i], c.ctx))
  }

  ghost predicate AllExplained(net: Net, c: Config)
    requires |c.phases| == |net.regions|
  {
    forall i :: 0 <= i < |net.regions| ==> Explained(net, c, i)
  }

  lemma ExplanationsLast(net: Net, r: Region, a: Context, b: Context)
    requires DoneExplained(net, r, a)
    requires a.authorized <= b.authorized && a.skipped <= b.skipped && a.ports.Keys <= b.ports.Keys
    ensures DoneExplained(net, r, b)
  {
  }

  lemma ApplyGrows(net: Net, c: Config, ms: seq<Move>)
    requires |ms| == |net.regions| == |c.phases|
    ensures var d := Apply(net, c, ms).ctx; c.ctx.authorized <= d.authorized && c.ctx.skipped <= d.skipped && d.ports == c.ctx.ports
  {
    ApplyPorts(net, c, ms);
    var d := Apply(net, c, ms).ctx;
    forall x | x in c.ctx.authorized ensures x in d.authorized { ApplySets(net, c, ms, x); }
    forall x | x in c.ctx.skipped ensures x in d.skipped { ApplySets(net, c, ms, x); }
  }

  lemma AlwaysExplained(net: Net, c: Config, i: nat)
    requires |c.phases| == |net.regions| && UniqueNames(net) && i < |net.regions| && Explained(net, c, i)
    ensures Explained(net, Apply(net, c, AlwaysMoves(net, c)), i)
  {
    var r, d := net.regions[i], Apply(net, c, AlwaysMoves(net, c));
    ApplyFinals(net, c, AlwaysMoves(net, c), i);
    ApplyGrows(net, c, AlwaysMoves(net, c));
    VerdictIsOf(c.ctx, r.name);
    if d.phases[i] == Done {
      assert DoneExplained(net, r, c.ctx);
      ExplanationsLast(net, r, c.ctx, d.ctx);
    }
  }

  lemma {:induction false} SettleExplained(net: Net, c: Config)
    requires |c.phases| == |net.regions| && UniqueNames(net) && AllExplained(net, c)
    ensures AllExplained(net, Settle(net, c))
    decreases Potential(net, c, |net.regions|)
  {
    if !Stable(net, c) {
      AlwaysSpends(net, c);
      var next := Apply(net, c, AlwaysMoves(net, c));
      forall i | 0 <= i < |net.regions| ensures Explained(net, next, i) { AlwaysExplained(net, c, i); }
      SettleExplained(net, next);
    }
  }

  lemma AnswerExplains(net: Net, c: Config, ev: Event, i: nat)
    requires |c.phases| == |net.regions| && UniqueNames(net) && i < |net.regions| && Allowed(net, c, ev)
    requires EventMoves(net, c, ev)[i] == Go(Done, MarkSkipped) || (EventMoves(net, c, ev)[i].Go? && EventMoves(net, c, ev)[i].action.ApplyAnswer?)
    ensures DoneExplained(net, net.regions[i], React(net, c, ev).ctx)
  {
    var ms, r, d := EventMoves(net, c, ev), net.regions[i], React(net, c, ev).ctx;
    if ms[i] == Go(Done, MarkSkipped) {
      ReactSets(net, c, ev, r.name);
    } else {
      forall k | 0 <= k < |Siblings(net, r.name)| ensures Siblings(net, r.name)[k] in d.authorized + d.skipped {
        ReactSets(net, c, ev, Siblings(net, r.name)[k]);
      }
    }
  }

  lemma StayExplained(net: Net, c: Config, ms: seq<Move>, i: nat)
    requires |ms| == |c.phases| == |net.regions| && UniqueNames(net) && i < |net.regions|
    requires Explained(net, c, i) && ms[i].Stay?
    ensures Explained(net, Apply(net, c, ms), i)
  {
    ApplyFinals(net, c, ms, i);
    ApplyGrows(net, c, ms);
    if c.phases[i] == Done { ExplanationsLast(net, net.regions[i], c.ctx, Apply(net, c, ms).ctx); }
  }

  lemma MoveExplained(net: Net, c: Config, ev: Event, i: nat)
    requires |c.phases| == |net.regions| && UniqueNames(net) && i < |net.regions|
    requires Explained(net, c, i) && Allowed(net, c, ev) && EventMoves(net, c, ev)[i].Go?
    ensures Explained(net, React(net, c, ev), i)
  {
    var ms, d := EventMoves(net, c, ev), React(net, c, ev);
    assert d == Apply(net, c, ms);
    ApplyFinals(net, c, ms, i);
    if ms[i].target == Done { NewlyDoneExplained(net, c, ev, i); }
  }

  lemma NewlyDoneExplained(net: Net, c: Config, ev: Event, i: nat)
    requires |c.phases| == |net.regions| && UniqueNames(net) && i < |net.regions| && Allowed(net, c, ev)
    requires EventMoves(net, c, ev)[i].Go? && EventMoves(net, c, ev)[i].target == Done
    ensures DoneExplained(net, net.regions[i], React(net, c, ev).ctx)
  {
    if EventMoves(net, c, ev)[i].action == NoAction {
      ApplyPorts(net, c, EventMoves(net, c, ev));
    } else {
      AnswerExplains(net, c, ev, i);
    }
  }

  lemma EventExplained(net: Net, c: Config, ev: Event, i: nat)
    requires |c.phases| == |net.regions| && UniqueNames(net) && i < |net.regions|
    requires Explained(net, c, i) && Allowed(net, c, ev)
    ensures Explained(net, React(net, c, ev), i)
  {
    var ms := EventMoves(net, c, ev);
    if ms[i].Go? {
      MoveExplained(net, c, ev, i);
    } else if AnyMoves(ms) {
      StayExplained(net, c, ms, i);
    } else if c.phases[i] == Done {
      ExplanationsLast(net, net.regions[i], c.ctx, React(net, c, ev).ctx);
    }
  }

  lemma {:induction false} RunExplained(net: Net, ctx: Context, evs: seq<Event>)
    requires UniqueNames(net) && Fresh(net, ctx) && Legal(net, ctx, evs)
    ensures AllExplained(net, Run(net, ctx, evs))
  {
    if evs == [] {
      SettleExplained(net, Config(seq(|net.regions|, _ => Waiting), ctx));
    } else {
      var c, ev := Run(net, ctx, evs[..|evs| - 1]), evs[|evs| - 1];
      RunExplained(net, ctx, evs[..|evs| - 1]);
      if !Completed(c) {
        forall i | 0 <= i < |net.regions| ensures Explained(net, React(net, c, ev), i) { EventExplained(net, c, ev, i); }
        SettleExplained(net, React(net, c, ev));
      }
    }
  }

  // ----- the wiring a compiled pipeline has -----

  /** Gate to gate-routed target, unless the target is a forward ancestor of
      the gate (a rollback target). */
  ghost predicate RoutesForward(net: Net, g: string, t: string) {
    && t in Siblings(net, g)
    && !ReachesPlus(ForwardEdges(net), t, g)
    && exists i :: 0 <= i < |net.regions| && net.regions[i].name == g && net.regions[i].isGate
  }

  ghost function RoutingEdges(net: Net): set<Edge> {
    set i, j | 0 <= i < |net.regions| && 0 <= j < |net.regions| && RoutesForward(net, net.regions[i].name, net.regions[j].name)
      :: (net.regions[i].name, net.regions[j].name)
  }

  ghost function AllEdges(net: Net): set<Edge> {
    ForwardEdges(net) + RoutingEdges(net)
  }

  /** A wire from a stage reads one of its declared outputs, or the feedback
      port if the stage is a gate. */
  ghost predicate DeclaredSource(net: Net, k: Key) {
    forall u :: 0 <= u < |net.regions| && net.regions[u].name == k.owner ==>
      if k.port == GATE_FEEDBACK then net.regions[u].isGate else !net.regions[u].isGate && k in net.regions[u].outbound
  }

  ghost predicate WellWired(net: Net) {
    && (forall i, j :: 0 <= i < |net.regions| && 0 <= j < |net.regions[i].inbound| ==>
          DeclaredSource(net, net.regions[i].inbound[j].source))
    && (forall i :: 0 <= i < |net.regions| && net.regions[i].gateRouted ==>
          exists g :: RoutesForward(net, g, net.regions[i].name))
    && Acyclic(AllEdges(net))
  }

  /** Every external value and every gate feedback slot a wire reads is there
      from the start. */
  ghost predicate Seeded(net: Net, ctx: Context) {
    forall i, j :: 0 <= i < |net.regions| && 0 <= j < |net.regions[i].inbound| ==>
      var k := net.regions[i].inbound[j].source;
      (!IsStage(net, k.owner) || k.port == GATE_FEEDBACK) ==> k in ctx.ports
  }

  lemma {:induction false} RunKeepsPorts(net: Net, ctx: Context, evs: seq<Event>)
    requires UniqueNames(net)
    ensures ctx.ports.Keys <= Run(net, ctx, evs).ctx.ports.Keys
  {
    if evs != [] {
      RunKeepsPorts(net, ctx, evs[..|evs| - 1]);
      StepPorts(net, Run(net, ctx, evs[..|evs| - 1]), evs[|evs| - 1]);
    }
  }

  // ----- tracing a waiting region back -----

  /** Nothing can happen by itself: no eventless transition is enabled and the
      only regions executing are gates. */
  predicate Quiet(net: Net, c: Config)
    requires |c.phases| == |net.regions|
  {
    Stable(net, c) && forall i :: 0 <= i < |net.regions| && c.phases[i] == Executing ==> net.regions[i].isGate
  }

  /** A stage that failed, a stage that was skipped without having run to its
      end, or a gate without answer. A stage an answer passed over after it
      had finished, as an approved gate does its rollback targets, is none. */
  predicate Culprit(net: Net, c: Config, i: nat)
    requires |c.phases| == |net.regions| && i < |net.regions|
  {
    var r := net.regions[i];
    || c.phases[i] == Failed
    || (c.phases[i] == Done && r.name in c.ctx.skipped && !Fulfilled(net, r, c.ctx))
    || (c.phases[i] == Executing && r.isGate)
  }

  ghost predicate IsCulprit(net: Net, c: Config, name: string)
    requires |c.phases| == |net.regions|
  {
    exists i :: 0 <= i < |net.regions| && net.regions[i].name == name && Culprit(net, c, i)
  }

  predicate IsWaiting(net: Net, c: Config, name: string)
    requires |c.phases| == |net.regions|
  {
    exists i :: 0 <= i < |net.regions| && net.regions[i].name == name && c.phases[i] == Waiting
  }

  /** What tracing back uses about a quiet configuration. */
  ghost predicate Traceable(net: Net, c: Config) {
    && |c.phases| == |net.regions| && UniqueNames(net) && WellWired(net)
    && Quiet(net, c) && AllExplained(net, c) && Seeded(net, c.ctx)
  }

  lemma BlockedByWire(net: Net, c: Config, i: nat, j: nat) returns (u: nat)
    requires Traceable(net, c) && i < |net.regions| && j < |net.regions[i].inbound|
    requires !Settled(net.regions[i].inbound[j], c.ctx.ports)
    ensures u < |net.regions| && (net.regions[u].name, net.regions[i].name) in AllEdges(net)
    ensures c.phases[u] == Waiting || Culprit(net, c, u)
  {
    var k := net.regions[i].inbound[j].source;
    assert DeclaredSource(net, k);
    u :| 0 <= u < |net.regions| && net.regions[u].name == k.owner;
    assert (k.owner, net.regions[i].name) in ForwardEdges(net);
    assert Explained(net, c, u);
  }

  lemma BlockedByRouting(net: Net, c: Config, i: nat) returns (u: nat)
    requires Traceable(net, c) && i < |net.regions| && c.phases[i] == Waiting && !Permitted(net.regions[i], c.ctx)
    ensures u < |net.regions| && (net.regions[u].name, net.regions[i].name) in AllEdges(net)
    ensures c.phases[u] == Waiting || Culprit(net, c, u)
  {
    var r := net.regions[i];
    var g :| RoutesForward(net, g, r.name);
    u :| 0 <= u < |net.regions| && net.regions[u].name == g && net.regions[u].isGate;
    assert (g, r.name) in RoutingEdges(net);
    assert AlwaysMoves(net, c)[i].Stay?;
    assert Explained(net, c, u);
  }

  /** A waiting region has a predecessor, by a wire or by routing, that is
      itself waiting or to blame. */
  lemma WaitsForSomeone(net: Net, c: Config, i: nat) returns (u: nat)
    requires Traceable(net, c) && i < |net.regions| && c.phases[i] == Waiting
    ensures u < |net.regions| && (net.regions[u].name, net.regions[i].name) in AllEdges(net)
    ensures c.phases[u] == Waiting || Culprit(net, c, u)
  {
    if Permitted(net.regions[i], c.ctx) {
      assert AlwaysMoves(net, c)[i].Stay?;
      var j :| 0 <= j < |net.regions[i].inbound| && !Settled(net.regions[i].inbound[j], c.ctx.ports);
      u := BlockedByWire(net, c, i, j);
    } else {
      u := BlockedByRouting(net, c, i);
    }
  }

  lemma RunIsTraceable(net: Net, ctx: Context, evs: seq<Event>)
    requires UniqueNames(net) && Fresh(net, ctx) && Legal(net, ctx, evs) && WellWired(net) && Seeded(net, ctx)
    requires Quiet(net, Run(net, ctx, evs))
    ensures Traceable(net, Run(net, ctx, evs))
  {
    RunExplained(net, ctx, evs);
    RunKeepsPorts(net, ctx, evs);
  }

  /** `p` leads from a culprit to the last stage of `p` through stages that
      are all waiting. */
  ghost predicate BlamePath(net: Net, c: Config, p: seq<string>)
    requires |c.phases| == |net.regions|
  {
    && IsPath(AllEdges(net), p) && IsCulprit(net, c, p[0])
    && forall k :: 0 < k < |p| ==> IsWaiting(net, c, p[k])
  }

  function Names(net: Net): set<string> {
    set i | 0 <= i < |net.regions| :: net.regions[i].name
  }

  ghost predicate AllWaiting(net: Net, c: Config, chain: seq<string>)
    requires |c.phases| == |net.regions|
  {
    forall k :: 0 <= k < |chain| ==> IsWaiting(net, c, chain[k])
  }

  lemma ChainIsStages(net: Net, c: Config, chain: seq<string>)
    requires |c.phases| == |net.regions| && AllWaiting(net, c, chain)
    ensures Elems(chain) <= Names(net)
  {
    forall x | x in Elems(chain) ensures x in Names(net) {
      var k :| 0 <= k < |chain| && chain[k] == x;
      assert IsWaiting(net, c, chain[k]);
    }
  }

  /** Acyclic: the predecessor found is never one already on the walk. */
  lemma NeverBack(net: Net, m: string, chain: seq<string>)
    requires WellWired(net) && IsPath(AllEdges(net), chain) && (m, chain[0]) in AllEdges(net)
    ensures m !in chain
  {
    if k :| 0 <= k < |chain| && chain[k] == m {
      CloseTheLoop(AllEdges(net), m, chain, k);
      assert false;
    }
  }

  lemma OneStepBack(net: Net, c: Config, chain: seq<string>) returns (m: string)
    requires Traceable(net, c) && IsPath(AllEdges(net), chain) && AllWaiting(net, c, chain)
    ensures IsPath(AllEdges(net), [m] + chain) && m !in chain
    ensures IsWaiting(net, c, m) || IsCulprit(net, c, m)
  {
    assert IsWaiting(net, c, chain[0]);
    var i :| 0 <= i < |net.regions| && net.regions[i].name == chain[0] && c.phases[i] == Waiting;
    var u := WaitsForSomeone(net, c, i);
    m := net.regions[u].name;
    Prepend(AllEdges(net), m, chain);
    NeverBack(net, m, chain);
  }

  lemma {:induction false} TraceBack(net: Net, c: Config, chain: seq<string>) returns (p: seq<string>)
    requires Traceable(net, c) && IsPath(AllEdges(net), chain) && AllWaiting(net, c, chain)
    ensures BlamePath(net, c, p) && p[|p| - 1] == chain[|chain| - 1]
    decreases |Names(net) - Elems(chain)|
  {
    var m := OneStepBack(net, c, chain);
    p := [m] + chain;
    if IsWaiting(net, c, m) {
      ChainIsStages(net, c, p);
      ChainIsStages(net, c, chain);
      assert m in Elems(p);
      LongerWalk(Names(net), m, chain);
      p := TraceBack(net, c, p);
    }
  }

  /** Every region still waiting in a quiet configuration of a legal first run
      is reached, through waiting stages only, from a culprit. */
  lemma WaitingTracesBack(net: Net, ctx: Context, evs: seq<Event>, i: nat) returns (p: seq<string>)
    requires UniqueNames(net) && Fresh(net, ctx) && Legal(net, ctx, evs) && WellWired(net) && Seeded(net, ctx)
    requires i < |net.regions| && Quiet(net, Run(net, ctx, evs)) && Run(net, ctx, evs).phases[i] == Waiting
    ensures BlamePath(net, Run(net, ctx, evs), p) && p[|p| - 1] == net.regions[i].name
  {
    var chain := [net.regions[i].name];
    assert IsPath(AllEdges(net), chain);
    RunIsTraceable(net, ctx, evs);
    assert IsWaiting(net, Run(net, ctx, evs), chain[0]);
    p := TraceBack(net, Run(net, ctx, evs), chain);
  }

  /** A waiting region with a culprit right before it, by a wire or by
      routing. */
  ghost predicate Stuck(net: Net, c: Config, i: nat)
    requires |c.phases| == |net.regions| && i < |net.regions|
  {
    c.phases[i] == Waiting
    && exists u :: 0 <= u < |net.regions| && Culprit(net, c, u)
                   && (net.regions[u].name, net.regions[i].name) in AllEdges(net)
  }

  /** A gate that waits for its answer. */
  predicate Unanswered(net: Net, c: Config, i: nat)
    requires |c.phases| == |net.regions| && i < |net.regions|
  {
    c.phases[i] == Executing && net.regions[i].isGate
  }

  /** A blame path with somebody waiting on it ends its first step in a region
      that is stuck. */
  lemma BlameMeansStuck(net: Net, c: Config, p: seq<string>) returns (i: nat)
    requires |c.phases| == |net.regions| && BlamePath(net, c, p) && |p| > 1
    ensures i < |net.regions| && Stuck(net, c, i)
  {
    assert IsWaiting(net, c, p[1]) && (p[0], p[0 + 1]) in AllEdges(net);
    i :| 0 <= i < |net.regions| && net.regions[i].name == p[1] && c.phases[i] == Waiting;
  }

  lemma WaitingMeansStuck(net: Net, ctx: Context, evs: seq<Event>, i: nat) returns (j: nat)
    requires UniqueNames(net) && Fresh(net, ctx) && Legal(net, ctx, evs) && WellWired(net) && Seeded(net, ctx)
    requires i < |net.regions| && Quiet(net, Run(net, ctx, evs)) && Run(net, ctx, evs).phases[i] == Waiting
    ensures j < |net.regions| && Stuck(net, Run(net, ctx, evs), j)
  {
    var c := Run(net, ctx, evs);
    var p := WaitingTracesBack(net, ctx, evs, i);
    assert !IsCulprit(net, c, net.regions[i].name) by {
      assert forall u :: 0 <= u < |net.regions| && net.regions[u].name == net.regions[i].name ==> u == i;
    }
    j := BlameMeansStuck(net, c, p);
  }

  /** A quiet machine has completed, whatever its gates were answered, exactly
      if no gate waits for an answer and no waiting stage comes right after a
      failed one or one skipped before it had finished. */
  lemma NoDeadlock(net: Net, ctx: Context, evs: seq<Event>)
    requires UniqueNames(net) && Fresh(net, ctx) && Legal(net, ctx, evs) && WellWired(net) && Seeded(net, ctx)
    requires net.regions != [] && Quiet(net, Run(net, ctx, evs))
    ensures Completed(Run(net, ctx, evs)) <==>
              forall i :: 0 <= i < |net.regions| ==>
                !Unanswered(net, Run(net, ctx, evs), i) && !Stuck(net, Run(net, ctx, evs), i)
  {
    var c := Run(net, ctx, evs);
    if forall i :: 0 <= i < |net.regions| ==> !Unanswered(net, c, i) && !Stuck(net, c, i) {
      forall i | 0 <= i < |net.regions| ensures Final(c.phases[i]) {
        assert !Unanswered(net, c, i);
        if c.phases[i] == Waiting {
          var j := WaitingMeansStuck(net, ctx, evs, i);
          assert false;
        }
      }
    }
  }

  /** Without a culprit, a quiet machine has completed, every stage done. */
  lemma AllDone(net: Net, ctx: Context, evs: seq<Event>)
    requires UniqueNames(net) && Fresh(net, ctx) && Legal(net, ctx, evs) && WellWired(net) && Seeded(net, ctx)
    requires net.regions != [] && Quiet(net, Run(net, ctx, evs))
    requires forall i :: 0 <= i < |net.regions| ==> !Culprit(net, Run(net, ctx, evs), i)
    ensures Completed(Run(net, ctx, evs))
    ensures forall i :: 0 <= i < |net.regions| ==> Run(net, ctx, evs).phases[i] == Done
  {
    var c := Run(net, ctx, evs);
    NoDeadlock(net, ctx, evs);
    forall i | 0 <= i < |net.regions| ensures !Unanswered(net, c, i) && !Stuck(net, c, i) { assert !Culprit(net, c, i); }
    forall i | 0 <= i < |net.regions| ensures c.phases[i] == Done { assert !Culprit(net, c, i); }
  }
}
