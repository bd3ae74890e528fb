/** Every run makes boundedly many region transitions. */
module MachineFinite {
  import opened Machine
  import opened MachineRun

  /** Region transitions taken while settling. */
  function SettleMoves(net: Net, c: Config): nat
    requires |c.phases| == |net.regions| && UniqueNames(net)
    decreases Potential(net, c, |net.regions|)
  {
    if Stable(net, c) then 0
    else
      AlwaysSpends(net, c);
      var ms := AlwaysMoves(net, c);
      Moving(ms, |ms|) + SettleMoves(net, Apply(net, c, ms))
  }

  function StepMoves(net: Net, c: Config, ev: Event): nat
    requires |c.phases| == |net.regions| && UniqueNames(net)
  {
    if Completed(c) then 0
    else
      var ms := EventMoves(net, c, ev);
      Moving(ms, |ms|) + SettleMoves(net, React(net, c, ev))
  }

  /** Region transitions taken by a whole run, initial settling included. */
  function RunMoves(net: Net, ctx: Context, evs: seq<Event>): nat
    requires UniqueNames(net)
  {
    if evs == [] then SettleMoves(net, Config(seq(|net.regions|, _ => Waiting), ctx))
    else
      var before := evs[..|evs| - 1];
      RunMoves(net, ctx, before) + StepMoves(net, Run(net, ctx, before), evs[|evs| - 1])
  }

  lemma {:induction false} SettleSpends(net: Net, c: Config)
    requires |c.phases| == |net.regions| && UniqueNames(net)
    ensures Potential(net, Settle(net, c), |net.regions|) + SettleMoves(net, c) <= Potential(net, c, |net.regions|)
    decreases Potential(net, c, |net.regions|)
  {
    if !Stable(net, c) {
      AlwaysSpends(net, c);
      SettleSpends(net, Apply(net, c, AlwaysMoves(net, c)));
    }
  }

  lemma {:induction false} SameBudget(net: Net, c: Config, d: Config, k: nat)
    requires |c.phases| == |d.phases| == |net.regions| && k <= |net.regions|
    requires c.phases == d.phases && c.ctx.retries == d.ctx.retries
    ensures Potential(net, c, k) == Potential(net, d, k)
  {
    if k > 0 { SameBudget(net, c, d, k - 1); }
  }

  lemma StepSpends(net: Net, c: Config, ev: Event)
    requires |c.phases| == |net.regions| && UniqueNames(net)
    ensures Potential(net, Step(net, c, ev), |net.regions|) + StepMoves(net, c, ev) <= Potential(net, c, |net.regions|)
  {
    if !Completed(c) {
      var ms := EventMoves(net, c, ev);
      EventSpends(net, c, ev);
      SomeMoving(ms, |ms|);
      if !AnyMoves(ms) { SameBudget(net, RootHandle(c, ev), c, |net.regions|); }
      SettleSpends(net, React(net, c, ev));
    }
  }

  lemma {:induction false} RunSpends(net: Net, ctx: Context, evs: seq<Event>)
    requires UniqueNames(net)
    ensures Potential(net, Run(net, ctx, evs), |net.regions|) + RunMoves(net, ctx, evs)
            <= Potential(net, Config(seq(|net.regions|, _ => Waiting), ctx), |net.regions|)
  {
    if evs == [] {
      SettleSpends(net, Config(seq(|net.regions|, _ => Waiting), ctx));
    } else {
      var before := evs[..|evs| - 1];
      RunSpends(net, ctx, before);
      StepSpends(net, Run(net, ctx, before), evs[|evs| - 1]);
    }
  }

  /** Total retries granted by the first `k` stages' specifications. */
  function MaxRetries(net: Net, k: nat): nat
    requires k <= |net.regions|
  {
    if k == 0 then 0
    else MaxRetries(net, k - 1) + match net.regions[k - 1].retry case Some(spec) => spec.maxRetries case None => 0
  }

  lemma {:induction false} InitialPotential(net: Net, ctx: Context, k: nat)
    requires k <= |net.regions|
    ensures Potential(net, Config(seq(|net.regions|, _ => Waiting), ctx), k) <= 2 * k + 2 * MaxRetries(net, k)
  {
    if k > 0 { InitialPotential(net, ctx, k - 1); }
  }

  /** However long the event sequence, the regions together take at most two
      transitions per stage and two per granted retry. */
  lemma RunsAreFinite(net: Net, ctx: Context, evs: seq<Event>)
    requires UniqueNames(net)
    ensures RunMoves(net, ctx, evs) <= 2 * |net.regions| + 2 * MaxRetries(net, |net.regions|)
  {
    RunSpends(net, ctx, evs);
    InitialPotential(net, ctx, |net.regions|);
  }
}
