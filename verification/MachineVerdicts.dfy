/** One verdict per stage: in every reachable configuration the verdict list
    and the final regions agree, and a machine recompiled with a recorded
    context resumes where the recording stopped. */
module MachineVerdicts {
  import opened Machine
  import opened MachineRun
  import opened MachineFacts

  /** The verdicts a region's phase allows. A waiting region may carry one
      only while a rebuilt machine is settling. */
  predicate Agrees(p: Phase, had: seq<Verdict>, name: string) {
    match p
    case Waiting => |had| <= 1
    case Executing => had == []
    case Done => had == [Verdict(name, Finished)]
    case Failed => |had| == 1 && had[0].outcome.Broken?
  }

  predicate RegionAgrees(net: Net, c: Config, i: nat)
    requires |c.phases| == |net.regions| && i < |net.regions|
  {
    Agrees(c.phases[i], Of(c.ctx.finals, net.regions[i].name), net.regions[i].name)
  }

  ghost predicate VerdictsAgree(net: Net, c: Config)
    requires |c.phases| == |net.regions|
  {
    forall i :: 0 <= i < |net.regions| ==> RegionAgrees(net, c, i)
  }

  /** A context no two of whose verdicts are about the same stage. */
  ghost predicate OneVerdictEach(net: Net, ctx: Context) {
    forall i :: 0 <= i < |net.regions| ==> |Of(ctx.finals, net.regions[i].name)| <= 1
  }

  lemma AlwaysAgrees(net: Net, c: Config, i: nat)
    requires |c.phases| == |net.regions| && i < |net.regions| && UniqueNames(net)
    requires RegionAgrees(net, c, i)
    ensures RegionAgrees(net, Apply(net, c, AlwaysMoves(net, c)), i)
  {
    var r := net.regions[i];
    ApplyFinals(net, c, AlwaysMoves(net, c), i);
    VerdictIsOf(c.ctx, r.name);
    OfMembers(c.ctx.finals, r.name);
    var had := Of(c.ctx.finals, r.name);
    if |had| == 1 {
      assert had[0].name == r.name;
      assert HasOutcome(c.ctx, r.name, had[0].outcome.Finished?);
    }
  }

  /** In a stable configuration no waiting region has a verdict. */
  lemma StableWaitingHasNone(net: Net, c: Config, i: nat)
    requires |c.phases| == |net.regions| && i < |net.regions| && Stable(net, c) && c.phases[i] == Waiting
    ensures Of(c.ctx.finals, net.regions[i].name) == []
  {
    var r := net.regions[i];
    assert AlwaysMoves(net, c)[i].Stay?;
    VerdictIsOf(c.ctx, r.name);
    var had := Of(c.ctx.finals, r.name);
    if had != [] { assert HasOutcome(c.ctx, r.name, had[0].outcome.Finished?); }
  }

  lemma EventAgrees(net: Net, c: Config, ev: Event, i: nat)
    requires |c.phases| == |net.regions| && i < |net.regions| && UniqueNames(net) && Stable(net, c)
    requires RegionAgrees(net, c, i)
    ensures RegionAgrees(net, Apply(net, c, EventMoves(net, c, ev)), i)
  {
    ApplyFinals(net, c, EventMoves(net, c, ev), i);
    if c.phases[i] == Waiting { StableWaitingHasNone(net, c, i); }
  }

  lemma {:induction false} SettleAgrees(net: Net, c: Config)
    requires |c.phases| == |net.regions| && UniqueNames(net) && VerdictsAgree(net, c)
    ensures VerdictsAgree(net, Settle(net, c))
    decreases Potential(net, c, |net.regions|)
  {
    if !Stable(net, c) {
      AlwaysSpends(net, c);
      var next := Apply(net, c, AlwaysMoves(net, c));
      forall i | 0 <= i < |net.regions| ensures RegionAgrees(net, next, i) { AlwaysAgrees(net, c, i); }
      SettleAgrees(net, next);
    }
  }

  lemma ReactAgrees(net: Net, c: Config, ev: Event, i: nat)
    requires |c.phases| == |net.regions| && i < |net.regions| && UniqueNames(net) && Stable(net, c)
    requires RegionAgrees(net, c, i)
    ensures RegionAgrees(net, React(net, c, ev), i)
  {
    if AnyMoves(EventMoves(net, c, ev)) {
      EventAgrees(net, c, ev, i);
    } else {
      assert React(net, c, ev).phases == c.phases && React(net, c, ev).ctx.finals == c.ctx.finals;
    }
  }

  lemma StepAgrees(net: Net, c: Config, ev: Event)
    requires |c.phases| == |net.regions| && UniqueNames(net) && Stable(net, c) && VerdictsAgree(net, c)
    ensures VerdictsAgree(net, Step(net, c, ev))
  {
    if !Completed(c) {
      var next := React(net, c, ev);
      forall i | 0 <= i < |net.regions| ensures RegionAgrees(net, next, i) { ReactAgrees(net, c, ev, i); }
      SettleAgrees(net, next);
    }
  }

  lemma {:induction false} RunAgrees(net: Net, ctx: Context, evs: seq<Event>)
    requires UniqueNames(net) && OneVerdictEach(net, ctx)
    ensures VerdictsAgree(net, Run(net, ctx, evs))
  {
    if evs == [] {
      SettleAgrees(net, Config(seq(|net.regions|, _ => Waiting), ctx));
    } else {
      RunAgrees(net, ctx, evs[..|evs| - 1]);
      StepAgrees(net, Run(net, ctx, evs[..|evs| - 1]), evs[|evs| - 1]);
    }
  }

  // ----- verdicts of names that are no stage -----

  lemma {:induction false} SettleForeign(net: Net, c: Config, x: string)
    requires |c.phases| == |net.regions| && UniqueNames(net)
    requires forall i :: 0 <= i < |net.regions| ==> net.regions[i].name != x
    ensures Of(Settle(net, c).ctx.finals, x) == Of(c.ctx.finals, x)
    decreases Potential(net, c, |net.regions|)
  {
    if !Stable(net, c) {
      AlwaysSpends(net, c);
      ApplyForeign(net, c, AlwaysMoves(net, c), x);
      SettleForeign(net, Apply(net, c, AlwaysMoves(net, c)), x);
    }
  }

  lemma {:induction false} RunForeign(net: Net, ctx: Context, evs: seq<Event>, x: string)
    requires UniqueNames(net)
    requires forall i :: 0 <= i < |net.regions| ==> net.regions[i].name != x
    ensures Of(Run(net, ctx, evs).ctx.finals, x) == Of(ctx.finals, x)
  {
    if evs == [] {
      SettleForeign(net, Config(seq(|net.regions|, _ => Waiting), ctx), x);
    } else {
      var before, ev := Run(net, ctx, evs[..|evs| - 1]), evs[|evs| - 1];
      RunForeign(net, ctx, evs[..|evs| - 1], x);
      if !Completed(before) {
        ApplyForeign(net, before, EventMoves(net, before, ev), x);
        SettleForeign(net, React(net, before, ev), x);
      }
    }
  }

  // ----- main results -----

  /** After any event sequence from a context that records at most one verdict
      a stage: a region is final exactly when it has a verdict, that verdict
      is its only one and states the outcome of the phase, no name that is
      not a stage gained one, and the machine has completed exactly when
      every stage has one. */
  lemma OneVerdictPerStage(net: Net, ctx: Context, evs: seq<Event>)
    requires UniqueNames(net) && OneVerdictEach(net, ctx)
    ensures var c := Run(net, ctx, evs);
      && (forall i :: 0 <= i < |net.regions| ==>
           var vs := Of(c.ctx.finals, net.regions[i].name);
           && (Final(c.phases[i]) <==> |vs| == 1)
           && (!Final(c.phases[i]) <==> vs == [])
           && (c.phases[i] == Done ==> vs[0].outcome == Finished)
           && (c.phases[i] == Failed ==> vs[0].outcome.Broken?))
      && (forall x :: (forall i :: 0 <= i < |net.regions| ==> net.regions[i].name != x)
           ==> Of(c.ctx.finals, x) == Of(ctx.finals, x))
      && (Completed(c) <==> net.regions != [] && forall i :: 0 <= i < |net.regions| ==> HasVerdict(c.ctx, net.regions[i].name))
  {
    var c := Run(net, ctx, evs);
    RunAgrees(net, ctx, evs);
    forall i | 0 <= i < |net.regions|
      ensures Final(c.phases[i]) <==> |Of(c.ctx.finals, net.regions[i].name)| == 1
      ensures !Final(c.phases[i]) <==> Of(c.ctx.finals, net.regions[i].name) == []
      ensures HasVerdict(c.ctx, net.regions[i].name) <==> Of(c.ctx.finals, net.regions[i].name) != []
    {
      assert RegionAgrees(net, c, i);
      VerdictIsOf(c.ctx, net.regions[i].name);
      if c.phases[i] == Waiting { StableWaitingHasNone(net, c, i); }
    }
    forall x | forall i :: 0 <= i < |net.regions| ==> net.regions[i].name != x
      ensures Of(c.ctx.finals, x) == Of(ctx.finals, x)
    {
      RunForeign(net, ctx, evs, x);
    }
    forall i | 0 <= i < |net.regions|
      ensures c.phases[i] == Done ==> Of(c.ctx.finals, net.regions[i].name)[0].outcome == Finished
      ensures c.phases[i] == Failed ==> Of(c.ctx.finals, net.regions[i].name)[0].outcome.Broken?
    {
      assert RegionAgrees(net, c, i);
    }
  }

  predicate Matches(p: Phase, v: Verdict) {
    if v.outcome.Finished? then p == Done else p == Failed
  }

  lemma {:induction false} SettleKeepsVerdict(net: Net, c: Config, i: nat, v: Verdict)
    requires |c.phases| == |net.regions| && UniqueNames(net) && i < |net.regions|
    requires Of(c.ctx.finals, net.regions[i].name) == [v]
    requires c.phases[i] == Waiting || Matches(c.phases[i], v)
    ensures var d := Settle(net, c); Matches(d.phases[i], v) && Of(d.ctx.finals, net.regions[i].name) == [v]
    decreases Potential(net, c, |net.regions|)
  {
    VerdictIsOf(c.ctx, net.regions[i].name);
    assert HasOutcome(c.ctx, net.regions[i].name, v.outcome.Finished?) by {
      assert Of(c.ctx.finals, net.regions[i].name)[0] == v;
    }
    if Stable(net, c) {
      assert AlwaysMoves(net, c)[i].Stay?;
    } else {
      AlwaysSpends(net, c);
      ApplyFinals(net, c, AlwaysMoves(net, c), i);
      SettleKeepsVerdict(net, Apply(net, c, AlwaysMoves(net, c)), i, v);
    }
  }

  lemma {:induction false} SettleKeepsWaiting(net: Net, c: Config, i: nat)
    requires |c.phases| == |net.regions| && UniqueNames(net) && i < |net.regions|
    requires c.phases[i] == Waiting && AlwaysMove(net, net.regions[i], Waiting, c.ctx).Stay?
    ensures Settle(net, c).phases[i] == Waiting
    decreases Potential(net, c, |net.regions|)
  {
    if !Stable(net, c) {
      AlwaysSpends(net, c);
      var d := Apply(net, c, AlwaysMoves(net, c));
      AlwaysKeepsSets(net, c);
      ApplyPorts(net, c, AlwaysMoves(net, c));
      ApplyFinals(net, c, AlwaysMoves(net, c), i);
      VerdictIsOf(c.ctx, net.regions[i].name);
      VerdictIsOf(d.ctx, net.regions[i].name);
      SettleKeepsWaiting(net, d, i);
    }
  }

  /** Recompiling with the context of any reachable configuration puts every
      finished stage back into the same final phase without a second verdict,
      and starts no stage that was waiting. */
  lemma RecompileResumes(net: Net, ctx: Context, evs: seq<Event>)
    requires UniqueNames(net) && OneVerdictEach(net, ctx)
    ensures var c := Run(net, ctx, evs);
            var d := Start(net, c.ctx);
            forall i :: 0 <= i < |net.regions| ==>
              && (Final(c.phases[i]) ==>
                   d.phases[i] == c.phases[i]
                   && Of(d.ctx.finals, net.regions[i].name) == Of(c.ctx.finals, net.regions[i].name))
              && (c.phases[i] == Waiting ==> d.phases[i] == Waiting)
  {
    var c := Run(net, ctx, evs);
    var begin := Config(seq(|net.regions|, _ => Waiting), c.ctx);
    var d := Start(net, c.ctx);
    RunAgrees(net, ctx, evs);
    forall i | 0 <= i < |net.regions|
      ensures Final(c.phases[i]) ==>
                d.phases[i] == c.phases[i]
                && Of(d.ctx.finals, net.regions[i].name) == Of(c.ctx.finals, net.regions[i].name)
      ensures c.phases[i] == Waiting ==> d.phases[i] == Waiting
    {
      assert RegionAgrees(net, c, i);
      if Final(c.phases[i]) {
        SettleKeepsVerdict(net, begin, i, Of(c.ctx.finals, net.regions[i].name)[0]);
      } else if c.phases[i] == Waiting {
        assert AlwaysMoves(net, c)[i].Stay?;
        SettleKeepsWaiting(net, begin, i);
      }
    }
  }

  /** A stage that has reached a final phase keeps it, and its verdict,
      whatever happens afterwards. */
  lemma FinalIsForever(net: Net, c: Config, ev: Event, i: nat)
    requires |c.phases| == |net.regions| && UniqueNames(net) && i < |net.regions| && Stable(net, c)
    requires VerdictsAgree(net, c) && Final(c.phases[i])
    ensures var d := Step(net, c, ev);
            d.phases[i] == c.phases[i] && Of(d.ctx.finals, net.regions[i].name) == Of(c.ctx.finals, net.regions[i].name)
  {
    assert RegionAgrees(net, c, i);
    if !Completed(c) {
      ApplyFinals(net, c, EventMoves(net, c, ev), i);
      SettleKeepsVerdict(net, React(net, c, ev), i, Of(c.ctx.finals, net.regions[i].name)[0]);
    }
  }
}
