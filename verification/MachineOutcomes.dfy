/** What becomes of one region when the machine reacts, told from the port
    values and the event alone: when it starts, ends, fails and why, and when a
    failure is retried. */
module MachineOutcomes {
  import opened Ir
  import opened Machine
  import opened MachineRun
  import opened MachineFacts
  import opened MachineVerdicts
  import opened MachineSafety

  // ----- the states of a region's wires and ports -----

  /** The wire's source was written, and its guard, if any, holds of the value. */
  predicate Passes(net: Net, w: Inbound, ports: map<Key, Value>) {
    && w.source in ports
    && (w.guard == None || w.guard == Some("") || net.eval(w.guard.value, ports[w.source]))
  }

  /** Nothing keeps the stage from running. */
  predicate CanRun(net: Net, r: Region, ctx: Context) {
    && (forall w :: w in r.inbound ==> Passes(net, w, ctx.ports))
    && (r.gateRouted ==> r.name in ctx.authorized)
  }

  /** All sources were written and some guard does not hold. */
  predicate Dropped(net: Net, r: Region, ports: map<Key, Value>) {
    && (forall w :: w in r.inbound ==> w.source in ports)
    && exists w :: w in r.inbound && !Passes(net, w, ports)
  }

  predicate CannotRun(net: Net, r: Region, ctx: Context) {
    Dropped(net, r, ctx.ports) && (r.gateRouted ==> r.name in ctx.authorized)
  }

  /** The stage has written all it declares; a gate has nothing to write. */
  predicate HasWritten(r: Region, ports: map<Key, Value>) {
    !r.isGate && forall k :: k in r.outbound ==> k in ports
  }

  lemma InboundMembers(net: Net, r: Region, ports: map<Key, Value>)
    ensures AllDeliver(net, r, ports) <==> forall w :: w in r.inbound ==> Passes(net, w, ports)
    ensures DeadEnd(net, r, ports) <==> Dropped(net, r, ports)
    ensures AllOutbound(r, ports) <==> forall k :: k in r.outbound ==> k in ports
  {
    if forall w :: w in r.inbound ==> Passes(net, w, ports) {
      forall i | 0 <= i < |r.inbound| ensures Delivers(net, r.inbound[i], ports) { assert r.inbound[i] in r.inbound; }
    }
    if Dropped(net, r, ports) {
      forall i | 0 <= i < |r.inbound| ensures Settled(r.inbound[i], ports) { assert r.inbound[i] in r.inbound; }
      var w :| w in r.inbound && !Passes(net, w, ports);
      var i :| 0 <= i < |r.inbound| && r.inbound[i] == w;
      assert !Delivers(net, r.inbound[i], ports);
    }
    if DeadEnd(net, r, ports) {
      var i :| 0 <= i < |r.inbound| && !Delivers(net, r.inbound[i], ports);
      assert r.inbound[i] in r.inbound && !Passes(net, r.inbound[i], ports);
    }
  }

  // ----- where a region comes to rest -----

  /** Where a waiting or executing region without a verdict comes to rest when
      nothing more is written. */
  function RestPhase(net: Net, r: Region, p: Phase, ctx: Context): Phase {
    if p == Executing then (if HasWritten(r, ctx.ports) then Done else Executing)
    else if r.name in ctx.skipped then Done
    else if CanRun(net, r, ctx) then (if HasWritten(r, ctx.ports) then Done else Executing)
    else if CannotRun(net, r, ctx) then Failed
    else Waiting
  }

  function RestVerdicts(net: Net, r: Region, p: Phase, ctx: Context): seq<Verdict> {
    match RestPhase(net, r, p, ctx)
    case Done => [Verdict(r.name, Finished)]
    case Failed => [Verdict(r.name, Broken(NoActiveWire))]
    case _ => []
  }

  predicate Undecided(net: Net, c: Config, i: nat)
    requires |c.phases| == |net.regions| && i < |net.regions|
  {
    !Final(c.phases[i]) && Of(c.ctx.finals, net.regions[i].name) == []
  }

  /** From `c` to `d` the region goes to that phase, gains exactly these
      verdicts, starts and retries so many times. */
  predicate Becomes(net: Net, c: Config, d: Config, i: nat, p: Phase, vs: seq<Verdict>, starts: nat, retries: nat)
    requires |c.phases| == |d.phases| == |net.regions| && i < |net.regions|
  {
    var name := net.regions[i].name;
    && d.phases[i] == p && Of(d.ctx.finals, name) == Of(c.ctx.finals, name) + vs
    && Starts(d.ctx, name) == Starts(c.ctx, name) + starts
    && Count(d.ctx, name) == Count(c.ctx, name) + retries
  }

  predicate StartsNow(net: Net, r: Region, p: Phase, ctx: Context) {
    p == Waiting && r.name !in ctx.skipped && CanRun(net, r, ctx)
  }

  /** Phase, verdicts and starts at rest. */
  predicate ComesToRest(net: Net, c: Config, d: Config, i: nat)
    requires |c.phases| == |d.phases| == |net.regions| && i < |net.regions|
  {
    var r, p := net.regions[i], c.phases[i];
    Becomes(net, c, d, i, RestPhase(net, r, p, c.ctx), RestVerdicts(net, r, p, c.ctx),
            if StartsNow(net, r, p, c.ctx) then 1 else 0, 0)
  }

  lemma AlwaysMoveMeans(net: Net, c: Config, i: nat)
    requires |c.phases| == |net.regions| && i < |net.regions| && Undecided(net, c, i)
    ensures var r, m := net.regions[i], AlwaysMoves(net, c)[i];
      if c.phases[i] == Executing then m == if HasWritten(r, c.ctx.ports) then Go(Done, NoAction) else Stay
      else if r.name in c.ctx.skipped then m == Go(Done, NoAction)
      else if CanRun(net, r, c.ctx) then m == Go(Executing, NoAction)
      else if CannotRun(net, r, c.ctx) then m == Go(Failed, Fail(NoActiveWire))
      else m == Stay
  {
    InboundMembers(net, net.regions[i], c.ctx.ports);
    VerdictIsOf(c.ctx, net.regions[i].name);
  }

  /** The region makes this transition. */
  predicate Takes(net: Net, c: Config, d: Config, i: nat, m: Move)
    requires |c.phases| == |d.phases| == |net.regions| && i < |net.regions|
  {
    var name := net.regions[i].name;
    && d.phases[i] == (if m.Go? then m.target else c.phases[i])
    && Of(d.ctx.finals, name) == OwnVerdicts(Of(c.ctx.finals, name), m, name)
    && Starts(d.ctx, name) == Starts(c.ctx, name) + (if m.Go? && m.target == Executing then 1 else 0)
    && Count(d.ctx, name) == Count(c.ctx, name) + (if Retries(m) then 1 else 0)
  }

  lemma ApplyTakes(net: Net, c: Config, ms: seq<Move>, i: nat)
    requires |ms| == |c.phases| == |net.regions| && UniqueNames(net) && i < |net.regions|
    ensures Takes(net, c, Apply(net, c, ms), i, ms[i])
  {
    ApplyFinals(net, c, ms, i);
    ApplyStarts(net, c, ms, i);
    ApplyRetries(net, c, ms, i);
  }

  /** The inputs of a region's own transitions: slots written and decisions. */
  predicate SameInputs(x: Context, y: Context) {
    x.ports == y.ports && x.authorized == y.authorized && x.skipped == y.skipped
  }

  lemma AlwaysKeepsInputs(net: Net, c: Config)
    requires |c.phases| == |net.regions|
    ensures var d := Apply(net, c, AlwaysMoves(net, c));
      SameInputs(c.ctx, d.ctx)
  {
    ApplyPorts(net, c, AlwaysMoves(net, c));
    AlwaysKeepsSets(net, c);
  }

  lemma {:induction false} SettleFinal(net: Net, c: Config, i: nat)
    requires |c.phases| == |net.regions| && UniqueNames(net) && i < |net.regions| && Final(c.phases[i])
    ensures Becomes(net, c, Settle(net, c), i, c.phases[i], [], 0, 0)
    decreases Potential(net, c, |net.regions|)
  {
    if !Stable(net, c) {
      AlwaysSpends(net, c);
      ApplyTakes(net, c, AlwaysMoves(net, c), i);
      SettleFinal(net, Apply(net, c, AlwaysMoves(net, c)), i);
    }
  }

  lemma FirstMove(net: Net, c: Config, d: Config, i: nat)
    requires |c.phases| == |d.phases| == |net.regions| && i < |net.regions| && Undecided(net, c, i)
    requires SameInputs(c.ctx, d.ctx) && Takes(net, c, d, i, AlwaysMoves(net, c)[i])
    ensures if Final(d.phases[i]) then ComesToRest(net, c, d, i) else Undecided(net, d, i)
  {
    AlwaysMoveMeans(net, c, i);
  }

  lemma LaterMoves(net: Net, c: Config, d: Config, e: Config, i: nat)
    requires |c.phases| == |d.phases| == |e.phases| == |net.regions| && i < |net.regions| && Undecided(net, c, i)
    requires SameInputs(c.ctx, d.ctx) && Takes(net, c, d, i, AlwaysMoves(net, c)[i])
    requires !Final(d.phases[i]) && ComesToRest(net, d, e, i)
    ensures ComesToRest(net, c, e, i)
  {
    AlwaysMoveMeans(net, c, i);
  }

  /** Each region comes to rest by itself: where, is decided by its own wires,
      ports and decisions. */
  lemma {:induction false} SettleRests(net: Net, c: Config, i: nat)
    requires |c.phases| == |net.regions| && UniqueNames(net) && i < |net.regions| && Undecided(net, c, i)
    ensures ComesToRest(net, c, Settle(net, c), i)
    decreases Potential(net, c, |net.regions|)
  {
    AlwaysMoveMeans(net, c, i);
    if Stable(net, c) {
      assert AlwaysMoves(net, c)[i].Stay?;
    } else {
      AlwaysSpends(net, c);
      ApplyTakes(net, c, AlwaysMoves(net, c), i);
      AlwaysKeepsInputs(net, c);
      var d := Apply(net, c, AlwaysMoves(net, c));
      FirstMove(net, c, d, i);
      if Final(d.phases[i]) {
        SettleFinal(net, d, i);
      } else {
        SettleRests(net, d, i);
        LaterMoves(net, c, d, Settle(net, c), i);
      }
    }
  }

  // ----- one event -----

  /** A region still under way in a configuration of a run. */
  ghost predicate Live(net: Net, c: Config, i: nat) {
    && |c.phases| == |net.regions| && UniqueNames(net) && Stable(net, c) && VerdictsAgree(net, c)
    && i < |net.regions| && !Final(c.phases[i])
  }

  lemma LiveIsUndecided(net: Net, c: Config, i: nat)
    requires Live(net, c, i)
    ensures Undecided(net, c, i) && !Completed(c)
    ensures RestPhase(net, net.regions[i], c.phases[i], c.ctx) == c.phases[i]
    ensures c.phases[i] == Waiting ==> net.regions[i].name !in c.ctx.skipped
  {
    assert RegionAgrees(net, c, i);
    if c.phases[i] == Waiting { StableWaitingHasNone(net, c, i); }
    AlwaysMoveMeans(net, c, i);
    assert AlwaysMoves(net, c)[i].Stay?;
  }

  /** Regions of a run are live or final. */
  lemma RunIsLive(net: Net, ctx: Context, evs: seq<Event>, i: nat)
    requires UniqueNames(net) && OneVerdictEach(net, ctx) && i < |net.regions|
    ensures Live(net, Run(net, ctx, evs), i) || Final(Run(net, ctx, evs).phases[i])
  {
    RunAgrees(net, ctx, evs);
  }

  lemma ReactTo(net: Net, c: Config, ev: Event, i: nat)
    requires |c.phases| == |net.regions| && UniqueNames(net) && i < |net.regions| && AnyMoves(EventMoves(net, c, ev))
    ensures Takes(net, c, React(net, c, ev), i, EventMoves(net, c, ev)[i])
  {
    ApplyTakes(net, c, EventMoves(net, c, ev), i);
  }

  predicate IsTrouble(ev: Event) {
    ev.StageFailed? || ev.StageCancelled?
  }

  lemma TroubleDecidesNothing(net: Net, c: Config, ev: Event)
    requires |c.phases| == |net.regions| && IsTrouble(ev)
    ensures React(net, c, ev).ctx.authorized == c.ctx.authorized && React(net, c, ev).ctx.skipped == c.ctx.skipped
    ensures React(net, c, ev).ctx.ports == c.ctx.ports
  {
    var ms, d := EventMoves(net, c, ev), React(net, c, ev).ctx;
    ApplyPorts(net, c, ms);
    forall x ensures x in d.authorized <==> x in c.ctx.authorized { ApplySets(net, c, ms, x); }
    forall x ensures x in d.skipped <==> x in c.ctx.skipped { ApplySets(net, c, ms, x); }
  }

  /** The stage has retries left. */
  predicate MayRetry(r: Region, ctx: Context) {
    match r.retry
    case None => false
    case Some(spec) => (if r.name in ctx.retries then ctx.retries[r.name] else 0) < spec.maxRetries
  }

  /** A failing stage with retries left is retried: its count grows by one, the
      failure records no verdict, and the stage goes on as a waiting one would,
      starting again if it still can. */
  lemma FailureIsRetried(net: Net, c: Config, i: nat, message: string)
    requires Live(net, c, i) && c.phases[i] == Executing && MayRetry(net.regions[i], c.ctx)
    ensures var r, d := net.regions[i], Step(net, c, StageFailed(net.regions[i].name, message));
      && Becomes(net, c, d, i, RestPhase(net, r, Waiting, c.ctx), RestVerdicts(net, r, Waiting, c.ctx),
                 if StartsNow(net, r, Waiting, c.ctx) then 1 else 0, 1)
      && (r.name !in c.ctx.skipped && CanRun(net, r, c.ctx) ==> d.phases[i] == Executing && Of(d.ctx.finals, r.name) == [])
  {
    var r, ev := net.regions[i], StageFailed(net.regions[i].name, message);
    LiveIsUndecided(net, c, i);
    RetryReaction(net, c, i, message);
    TroubleDecidesNothing(net, c, ev);
    SettleRests(net, React(net, c, ev), i);
    if r.name !in c.ctx.skipped && CanRun(net, r, c.ctx) { NotWritten(net, c, i); }
  }

  lemma RetryReaction(net: Net, c: Config, i: nat, message: string)
    requires Live(net, c, i) && c.phases[i] == Executing && MayRetry(net.regions[i], c.ctx)
    ensures var d := React(net, c, StageFailed(net.regions[i].name, message));
      Becomes(net, c, d, i, Waiting, [], 0, 1) && Undecided(net, d, i)
  {
    var ev := StageFailed(net.regions[i].name, message);
    LiveIsUndecided(net, c, i);
    assert EventMoves(net, c, ev)[i] == Go(Waiting, RaiseRetry);
    ReactTo(net, c, ev, i);
  }

  lemma NotWritten(net: Net, c: Config, i: nat)
    requires Live(net, c, i) && c.phases[i] == Executing
    ensures !HasWritten(net.regions[i], c.ctx.ports)
  {
    LiveIsUndecided(net, c, i);
  }

  /** Any other failure of a live stage is final, for exactly the reason given. */
  lemma FailureIsFinal(net: Net, c: Config, i: nat, message: string)
    requires Live(net, c, i) && !(c.phases[i] == Executing && MayRetry(net.regions[i], c.ctx))
    ensures var name := net.regions[i].name;
      Becomes(net, c, Step(net, c, StageFailed(name, message)), i, Failed,
              [Verdict(name, Broken(ExecutorFailed(message)))], 0, 0)
  {
    var ev := StageFailed(net.regions[i].name, message);
    LiveIsUndecided(net, c, i);
    assert EventMoves(net, c, ev)[i] == Go(Failed, Fail(ExecutorFailed(message)));
    ReactTo(net, c, ev, i);
    SettleFinal(net, React(net, c, ev), i);
  }

  /** A cancelled live stage fails for exactly that reason. */
  lemma CancellationIsFinal(net: Net, c: Config, i: nat)
    requires Live(net, c, i)
    ensures var name := net.regions[i].name;
      Becomes(net, c, Step(net, c, StageCancelled(name)), i, Failed, [Verdict(name, Broken(UpstreamCancelled))], 0, 0)
  {
    var ev := StageCancelled(net.regions[i].name);
    LiveIsUndecided(net, c, i);
    assert EventMoves(net, c, ev)[i] == Go(Failed, Fail(UpstreamCancelled));
    ReactTo(net, c, ev, i);
    SettleFinal(net, React(net, c, ev), i);
  }

  /** Another stage's failure or cancellation leaves a live stage alone. */
  lemma TroubleElsewhere(net: Net, c: Config, ev: Event, i: nat)
    requires Live(net, c, i) && IsTrouble(ev) && ev.stage != net.regions[i].name
    ensures Becomes(net, c, Step(net, c, ev), i, c.phases[i], [], 0, 0)
  {
    LiveIsUndecided(net, c, i);
    assert EventMoves(net, c, ev)[i] == Stay;
    if AnyMoves(EventMoves(net, c, ev)) { ReactTo(net, c, ev, i); }
    TroubleDecidesNothing(net, c, ev);
    SettleRests(net, React(net, c, ev), i);
  }

  /** A port write: a live region comes to rest on the ports with the value
      written. */
  lemma WriteMovesOn(net: Net, c: Config, i: nat, k: Key, v: Value)
    requires Live(net, c, i)
    ensures var w := c.(ctx := c.ctx.(ports := c.ctx.ports[k := v]));
      ComesToRest(net, w, Step(net, c, PortWritten(k, v)), i)
  {
    LiveIsUndecided(net, c, i);
    NobodyTakesAWrite(net, c, k, v);
    SettleRests(net, React(net, c, PortWritten(k, v)), i);
  }

  // ----- answers -----

  predicate AllKnown(net: Net, g: string, targets: seq<string>) {
    forall t :: t in targets ==> t in Siblings(net, g)
  }

  lemma KnownMembers(net: Net, g: string, targets: seq<string>)
    ensures KnownTargets(net, g, targets) <==> AllKnown(net, g, targets)
  {
    if KnownTargets(net, g, targets) {
      forall t | t in targets ensures t in Siblings(net, g) {
        var i :| 0 <= i < |targets| && targets[i] == t;
      }
    }
    if AllKnown(net, g, targets) {
      forall i | 0 <= i < |targets| ensures targets[i] in Siblings(net, g) { assert targets[i] in targets; }
    }
  }

  /** The answer ends the gate it is given to, if that gate is executing. */
  lemma AnswerEndsItsGate(net: Net, c: Config, i: nat, targets: seq<string>)
    requires Live(net, c, i) && c.phases[i] == Executing && net.regions[i].isGate
    ensures var name := net.regions[i].name;
      Becomes(net, c, Step(net, c, GateAnswered(name, targets)), i, Done, [Verdict(name, Finished)], 0, 0)
  {
    var name := net.regions[i].name;
    LiveIsUndecided(net, c, i);
    assert EventMoves(net, c, GateAnswered(name, targets))[i] == Go(Done, ApplyAnswer(name, targets));
    ReactTo(net, c, GateAnswered(name, targets), i);
    SettleFinal(net, React(net, c, GateAnswered(name, targets)), i);
  }

  /** A waiting stage that a known answer passes over ends at once. */
  lemma PassedOverEnds(net: Net, c: Config, i: nat, g: string, targets: seq<string>)
    requires Live(net, c, i) && c.phases[i] == Waiting
    requires AllKnown(net, g, targets) && net.regions[i].name in Siblings(net, g) && net.regions[i].name !in targets
    ensures var name := net.regions[i].name;
      Becomes(net, c, Step(net, c, GateAnswered(g, targets)), i, Done, [Verdict(name, Finished)], 0, 0)
  {
    LiveIsUndecided(net, c, i);
    KnownMembers(net, g, targets);
    assert EventMoves(net, c, GateAnswered(g, targets))[i] == Go(Done, MarkSkipped);
    ReactTo(net, c, GateAnswered(g, targets), i);
    SettleFinal(net, React(net, c, GateAnswered(g, targets)), i);
  }

  lemma AnswerKeepsPorts(net: Net, c: Config, g: string, targets: seq<string>)
    requires |c.phases| == |net.regions|
    ensures React(net, c, GateAnswered(g, targets)).ctx.ports == c.ctx.ports
  {
    ApplyPorts(net, c, EventMoves(net, c, GateAnswered(g, targets)));
  }

  /** A picked stage whose wires all pass starts at once, and is done if it has
      nothing left to write. */
  lemma PickedStarts(net: Net, c: Config, i: nat, g: string, targets: seq<string>)
    requires Live(net, c, i) && c.phases[i] == Waiting && net.regions[i].name in targets
    requires forall w :: w in net.regions[i].inbound ==> Passes(net, w, c.ctx.ports)
    ensures var r := net.regions[i]; var written := HasWritten(r, c.ctx.ports);
      Becomes(net, c, Step(net, c, GateAnswered(g, targets)), i, if written then Done else Executing,
              if written then [Verdict(r.name, Finished)] else [], 1, 0)
  {
    LiveIsUndecided(net, c, i);
    InboundMembers(net, net.regions[i], c.ctx.ports);
    assert EventMoves(net, c, GateAnswered(g, targets))[i] == Go(Executing, MarkAuthorized);
    ReactTo(net, c, GateAnswered(g, targets), i);
    AnswerKeepsPorts(net, c, g, targets);
    SettleRests(net, React(net, c, GateAnswered(g, targets)), i);
  }

  /** A picked stage with a dropped wire fails for exactly that reason. */
  lemma PickedFails(net: Net, c: Config, i: nat, g: string, targets: seq<string>)
    requires Live(net, c, i) && c.phases[i] == Waiting && net.regions[i].name in targets
    requires Dropped(net, net.regions[i], c.ctx.ports)
    ensures var name := net.regions[i].name;
      Becomes(net, c, Step(net, c, GateAnswered(g, targets)), i, Failed, [Verdict(name, Broken(NoActiveWire))], 0, 0)
  {
    LiveIsUndecided(net, c, i);
    InboundMembers(net, net.regions[i], c.ctx.ports);
    assert EventMoves(net, c, GateAnswered(g, targets))[i] == Go(Failed, FailAuthorized(NoActiveWire));
    ReactTo(net, c, GateAnswered(g, targets), i);
    SettleFinal(net, React(net, c, GateAnswered(g, targets)), i);
  }

  /** The decisions an answer leaves behind once the gate it is given to has
      taken it: every target is authorized, and if all are known the gate's
      other targets are skipped. */
  lemma AnswerRecords(net: Net, c: Config, i: nat, targets: seq<string>)
    requires Live(net, c, i) && c.phases[i] == Executing && net.regions[i].isGate
    ensures var g := net.regions[i].name; var d := Step(net, c, GateAnswered(g, targets)).ctx;
      && (forall x :: x in d.authorized <==> x in c.ctx.authorized || x in targets)
      && (forall x :: x in d.skipped <==>
            x in c.ctx.skipped || (AllKnown(net, g, targets) && x in Siblings(net, g) && x !in targets))
  {
    var g := net.regions[i].name;
    LiveIsUndecided(net, c, i);
    KnownMembers(net, g, targets);
    var d := React(net, c, GateAnswered(g, targets));
    forall x
      ensures x in d.ctx.authorized <==> x in c.ctx.authorized || x in targets
      ensures x in d.ctx.skipped <==>
                x in c.ctx.skipped || (AllKnown(net, g, targets) && x in Siblings(net, g) && x !in targets)
    {
      AnswerRecordsOne(net, c, i, targets, x);
    }
    SettleKeepsSets(net, d);
  }

  lemma AnswerRecordsOne(net: Net, c: Config, i: nat, targets: seq<string>, x: string)
    requires |c.phases| == |net.regions| && UniqueNames(net) && i < |net.regions|
    requires c.phases[i] == Executing && net.regions[i].isGate
    ensures var g := net.regions[i].name; var d := React(net, c, GateAnswered(g, targets)).ctx;
      && (x in d.authorized <==> x in c.ctx.authorized || x in targets)
      && (x in d.skipped <==>
            x in c.ctx.skipped || (AllKnown(net, g, targets) && x in Siblings(net, g) && x !in targets))
  {
    var g := net.regions[i].name;
    var ms := EventMoves(net, c, GateAnswered(g, targets));
    KnownMembers(net, g, targets);
    ApplySets(net, c, ms, x);
    assert ms[i] == Go(Done, ApplyAnswer(g, targets));
    forall j | 0 <= j < |ms|
      ensures x in Authorizes(ms[j], net.regions[j].name) ==> x in targets
      ensures x in Skips(net, ms[j], net.regions[j].name) ==> AllKnown(net, g, targets) && x in Siblings(net, g) && x !in targets
    {
      AnswerSays(net, c, g, targets, j, x);
    }
  }

  /** What one region's transition on an answer can decide about a stage. */
  lemma AnswerSays(net: Net, c: Config, g: string, targets: seq<string>, j: nat, x: string)
    requires |c.phases| == |net.regions| && j < |net.regions|
    ensures var m := EventMoves(net, c, GateAnswered(g, targets))[j];
      && (x in Authorizes(m, net.regions[j].name) ==> x in targets)
      && (x in Skips(net, m, net.regions[j].name) ==> AllKnown(net, g, targets) && x in Siblings(net, g) && x !in targets)
  {
    KnownMembers(net, g, targets);
  }

  /** The answer has nothing to say to the region. */
  predicate NotAddressed(net: Net, c: Config, i: nat, g: string, targets: seq<string>)
    requires |c.phases| == |net.regions| && i < |net.regions|
  {
    var r := net.regions[i];
    if c.phases[i] == Executing then !(r.isGate && r.name == g)
    else if r.name in targets then
      !(forall w :: w in r.inbound ==> Passes(net, w, c.ctx.ports)) && !Dropped(net, r, c.ctx.ports)
    else !(AllKnown(net, g, targets) && r.name in Siblings(net, g))
  }

  lemma NotAddressedStays(net: Net, c: Config, i: nat, g: string, targets: seq<string>)
    requires Live(net, c, i) && NotAddressed(net, c, i, g, targets)
    ensures EventMoves(net, c, GateAnswered(g, targets))[i] == Stay
  {
    InboundMembers(net, net.regions[i], c.ctx.ports);
    KnownMembers(net, g, targets);
  }

  /** The decisions about one stage that an answer can bring about. */
  lemma AnswerDecisions(net: Net, c: Config, i: nat, g: string, targets: seq<string>)
    requires Live(net, c, i) && NotAddressed(net, c, i, g, targets) && c.phases[i] == Waiting
    ensures var name, d := net.regions[i].name, React(net, c, GateAnswered(g, targets)).ctx;
      && name !in d.skipped && (name in d.authorized ==> name in c.ctx.authorized || name in targets)
  {
    var name, ms := net.regions[i].name, EventMoves(net, c, GateAnswered(g, targets));
    NotAddressedStays(net, c, i, g, targets);
    LiveIsUndecided(net, c, i);
    KnownMembers(net, g, targets);
    ApplySets(net, c, ms, name);
    forall j | 0 <= j < |ms| ensures name !in Skips(net, ms[j], net.regions[j].name) {
      assert net.regions[j].name == name <==> j == i;
    }
    forall j | 0 <= j < |ms| ensures name in Authorizes(ms[j], net.regions[j].name) ==> name in targets {
      assert net.regions[j].name == name <==> j == i;
    }
  }

  /** An answer leaves every other live region alone: a stage that is executing,
      one that the answer does not decide about, and a picked one whose wires
      have not all been written yet, which goes on waiting. */
  lemma AnswerElsewhere(net: Net, c: Config, i: nat, g: string, targets: seq<string>)
    requires Live(net, c, i) && NotAddressed(net, c, i, g, targets)
    ensures Becomes(net, c, Step(net, c, GateAnswered(g, targets)), i, c.phases[i], [], 0, 0)
  {
    var ev := GateAnswered(g, targets);
    LiveIsUndecided(net, c, i);
    NotAddressedStays(net, c, i, g, targets);
    if AnyMoves(EventMoves(net, c, ev)) { ReactTo(net, c, ev, i); }
    AnswerKeepsPorts(net, c, g, targets);
    if c.phases[i] == Waiting { AnswerDecisions(net, c, i, g, targets); }
    SettleRests(net, React(net, c, ev), i);
  }

  /** In whatever step a stage starts, it can run when the step is over: every
      source written, every guard true, and authorized if it waits for a gate. */
  lemma StartsOnlyIfItCanRun(net: Net, c: Config, ev: Event, i: nat)
    requires |c.phases| == |net.regions| && UniqueNames(net) && i < |net.regions| && Stable(net, c)
    requires Starts(Step(net, c, ev).ctx, net.regions[i].name) > Starts(c.ctx, net.regions[i].name)
    ensures CanRun(net, net.regions[i], Step(net, c, ev).ctx)
  {
    StartsOnlyWhenDelivered(net, c, ev, i);
    InboundMembers(net, net.regions[i], Step(net, c, ev).ctx.ports);
  }

  /** In a configuration of a run no stage waits that could run or fail for its
      wires, and none executes that has written all its ports. */
  lemma NobodyIsLate(net: Net, c: Config, i: nat)
    requires Live(net, c, i)
    ensures c.phases[i] == Waiting ==>
              net.regions[i].name !in c.ctx.skipped && !CanRun(net, net.regions[i], c.ctx)
              && !CannotRun(net, net.regions[i], c.ctx)
    ensures c.phases[i] == Executing ==> !HasWritten(net.regions[i], c.ctx.ports)
  {
    LiveIsUndecided(net, c, i);
  }

  // ----- whole runs -----

  /** The event is a failure the executing stage reports. */
  predicate FailsNow(net: Net, c: Config, ev: Event, i: nat)
    requires |c.phases| == |net.regions| && i < |net.regions|
  {
    ev.StageFailed? && ev.stage == net.regions[i].name && c.phases[i] == Executing
  }

  /** How often the stage has failed while executing. */
  function Failures(net: Net, ctx: Context, evs: seq<Event>, i: nat): nat
    requires UniqueNames(net) && i < |net.regions|
  {
    if evs == [] then 0
    else
      var before, last := evs[..|evs| - 1], evs[|evs| - 1];
      Failures(net, ctx, before, i) + if FailsNow(net, Run(net, ctx, before), last, i) then 1 else 0
  }

  function RetryLimit(r: Region): nat {
    match r.retry
    case None => 0
    case Some(spec) => spec.maxRetries
  }

  lemma {:induction false} SettleKeepsCount(net: Net, c: Config, i: nat)
    requires |c.phases| == |net.regions| && UniqueNames(net) && i < |net.regions|
    ensures Count(Settle(net, c).ctx, net.regions[i].name) == Count(c.ctx, net.regions[i].name)
    decreases Potential(net, c, |net.regions|)
  {
    if !Stable(net, c) {
      AlwaysSpends(net, c);
      ApplyRetries(net, c, AlwaysMoves(net, c), i);
      SettleKeepsCount(net, Apply(net, c, AlwaysMoves(net, c)), i);
    }
  }

  /** Only a failure of the executing stage that may still be retried raises its
      count. */
  lemma StepCounts(net: Net, c: Config, ev: Event, i: nat)
    requires |c.phases| == |net.regions| && UniqueNames(net) && i < |net.regions|
    ensures Count(Step(net, c, ev).ctx, net.regions[i].name)
            == Count(c.ctx, net.regions[i].name) + if FailsNow(net, c, ev, i) && MayRetry(net.regions[i], c.ctx) then 1 else 0
  {
    if !Completed(c) {
      ReactCounts(net, c, ev, i);
      SettleKeepsCount(net, React(net, c, ev), i);
    }
  }

  lemma ReactCounts(net: Net, c: Config, ev: Event, i: nat)
    requires |c.phases| == |net.regions| && UniqueNames(net) && i < |net.regions|
    ensures Count(React(net, c, ev).ctx, net.regions[i].name)
            == Count(c.ctx, net.regions[i].name) + if FailsNow(net, c, ev, i) && MayRetry(net.regions[i], c.ctx) then 1 else 0
  {
    var ms := EventMoves(net, c, ev);
    assert Retries(ms[i]) <==> FailsNow(net, c, ev, i) && MayRetry(net.regions[i], c.ctx);
    if AnyMoves(ms) { ApplyRetries(net, c, ms, i); }
  }

  /** Over any run that starts without retries, a stage's retry count is the
      number of failures it has reported while executing, up to its limit. */
  lemma {:induction false} RetriesAreFailures(net: Net, ctx: Context, evs: seq<Event>, i: nat)
    requires UniqueNames(net) && i < |net.regions| && net.regions[i].name !in ctx.retries
    ensures var failures, limit := Failures(net, ctx, evs, i), RetryLimit(net.regions[i]);
      Count(Run(net, ctx, evs).ctx, net.regions[i].name) == if failures < limit then failures else limit
  {
    if evs == [] {
      SettleKeepsCount(net, Config(seq(|net.regions|, _ => Waiting), ctx), i);
    } else {
      RetriesAreFailures(net, ctx, evs[..|evs| - 1], i);
      StepCounts(net, Run(net, ctx, evs[..|evs| - 1]), evs[|evs| - 1], i);
    }
  }
}
