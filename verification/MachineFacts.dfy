/** What one microstep does to verdicts, authorizations and the log, region by
    region: the assignments of different regions do not interfere. */
module MachineFacts {
  import opened Machine
  import opened MachineRun

  // ----- verdicts -----

  /** The entries on record for one stage. */
  function Of(finals: seq<Verdict>, name: string): seq<Verdict> {
    if finals == [] then []
    else
      var n := |finals| - 1;
      Of(finals[..n], name) + if finals[n].name == name then [finals[n]] else []
  }

  lemma OfPush(finals: seq<Verdict>, v: Verdict, name: string)
    ensures Of(finals + [v], name) == Of(finals, name) + if v.name == name then [v] else []
  {
    assert (finals + [v])[..|finals|] == finals;
  }

  lemma {:induction false} OfMembers(finals: seq<Verdict>, name: string)
    ensures forall k :: 0 <= k < |Of(finals, name)| ==> Of(finals, name)[k].name == name && Of(finals, name)[k] in finals
    ensures forall v :: v in finals && v.name == name ==> v in Of(finals, name)
  {
    if finals != [] { OfMembers(finals[..|finals| - 1], name); }
  }

  lemma VerdictIsOf(ctx: Context, name: string)
    ensures HasVerdict(ctx, name) <==> Of(ctx.finals, name) != []
    ensures forall done :: HasOutcome(ctx, name, done)
              <==> exists k :: 0 <= k < |Of(ctx.finals, name)| && Of(ctx.finals, name)[k].outcome.Finished? == done
  {
    OfMembers(ctx.finals, name);
    if HasVerdict(ctx, name) {
      var i :| 0 <= i < |ctx.finals| && ctx.finals[i].name == name;
      assert ctx.finals[i] in Of(ctx.finals, name);
    }
    if Of(ctx.finals, name) != [] {
      assert Of(ctx.finals, name)[0].name == name && Of(ctx.finals, name)[0] in ctx.finals;
    }
    forall done | HasOutcome(ctx, name, done)
      ensures exists k :: 0 <= k < |Of(ctx.finals, name)| && Of(ctx.finals, name)[k].outcome.Finished? == done
    {
      var i :| 0 <= i < |ctx.finals| && ctx.finals[i].name == name && ctx.finals[i].outcome.Finished? == done;
      assert ctx.finals[i] in Of(ctx.finals, name);
    }
  }

  /** The verdict a transition's own action records. */
  function OwnFailure(m: Move, name: string): seq<Verdict> {
    match m
    case Stay => []
    case Go(_, Fail(reason)) => [Verdict(name, Broken(reason))]
    case Go(_, FailAuthorized(reason)) => [Verdict(name, Broken(reason))]
    case Go(_, _) => []
  }

  lemma PerformFinals(net: Net, ctx: Context, name: string, p: Phase, a: Action, x: string)
    ensures Of(Perform(net, ctx, name, a).finals, x)
            == Of(ctx.finals, x) + if name == x then OwnFailure(Go(p, a), name) else []
  {
    if a.Fail? {
      OfPush(ctx.finals, Verdict(name, Broken(a.reason)), x);
    } else if a.FailAuthorized? {
      OfPush(ctx.finals, Verdict(name, Broken(a.why)), x);
    }
  }

  lemma EnterOneFinals(ctx: Context, name: string, p: Phase, x: string)
    ensures Of(Enter(ctx, name, p).finals, x)
            == if name == x && p == Done && Of(ctx.finals, x) == [] then [Verdict(x, Finished)] else Of(ctx.finals, x)
  {
    VerdictIsOf(ctx, name);
    OfPush(ctx.finals, Verdict(name, Finished), x);
  }

  lemma {:induction false} ActFinals(net: Net, ctx: Context, ms: seq<Move>, k: nat, i: nat)
    requires |ms| == |net.regions| && k <= |ms| && i < |ms| && UniqueNames(net)
    ensures Of(ActFirst(net, ctx, ms, k).finals, net.regions[i].name)
            == Of(ctx.finals, net.regions[i].name) + if i < k then OwnFailure(ms[i], net.regions[i].name) else []
  {
    if k > 0 {
      var x, j := net.regions[i].name, k - 1;
      ActFinals(net, ctx, ms, j, i);
      var before := ActFirst(net, ctx, ms, j);
      assert x == net.regions[j].name <==> i == j;
      assert Of(ctx.finals, x) + [] == Of(ctx.finals, x);
      if ms[j].Go? {
        PerformFinals(net, before, net.regions[j].name, ms[j].target, ms[j].action, x);
        assert ms[j] == Go(ms[j].target, ms[j].action);
        assert ActFirst(net, ctx, ms, k) == Perform(net, before, net.regions[j].name, ms[j].action);
      }
    }
  }

  lemma {:induction false} EnterFinals(net: Net, ctx: Context, ms: seq<Move>, k: nat, i: nat)
    requires |ms| == |net.regions| && k <= |ms| && i < |ms| && UniqueNames(net)
    ensures Of(EnterFirst(net, ctx, ms, k).finals, net.regions[i].name)
            == if i < k && ms[i].Go? && ms[i].target == Done && Of(ctx.finals, net.regions[i].name) == []
               then [Verdict(net.regions[i].name, Finished)]
               else Of(ctx.finals, net.regions[i].name)
  {
    if k > 0 {
      var x, j := net.regions[i].name, k - 1;
      EnterFinals(net, ctx, ms, j, i);
      var before := EnterFirst(net, ctx, ms, j);
      assert x == net.regions[j].name <==> i == j;
      if ms[j].Go? {
        EnterOneFinals(before, net.regions[j].name, ms[j].target, x);
        assert ms[j] == Go(ms[j].target, ms[j].action);
        assert EnterFirst(net, ctx, ms, k) == Enter(before, net.regions[j].name, ms[j].target);
      }
    }
  }

  /** A region's verdicts after a microstep depend on its own transition only. */
  function OwnVerdicts(had: seq<Verdict>, m: Move, name: string): seq<Verdict> {
    var acted := had + OwnFailure(m, name);
    if m.Go? && m.target == Done && acted == [] then [Verdict(name, Finished)] else acted
  }

  lemma ApplyFinals(net: Net, c: Config, ms: seq<Move>, i: nat)
    requires |ms| == |net.regions| == |c.phases| && i < |ms| && UniqueNames(net)
    ensures Of(Apply(net, c, ms).ctx.finals, net.regions[i].name)
            == OwnVerdicts(Of(c.ctx.finals, net.regions[i].name), ms[i], net.regions[i].name)
  {
    ActFinals(net, c.ctx, ms, |ms|, i);
    EnterFinals(net, ActFirst(net, c.ctx, ms, |ms|), ms, |ms|, i);
  }

  lemma {:induction false} ActForeign(net: Net, ctx: Context, ms: seq<Move>, k: nat, x: string)
    requires |ms| == |net.regions| && k <= |ms|
    requires forall i :: 0 <= i < |net.regions| ==> net.regions[i].name != x
    ensures Of(ActFirst(net, ctx, ms, k).finals, x) == Of(ctx.finals, x)
  {
    if k > 0 {
      ActForeign(net, ctx, ms, k - 1, x);
      if ms[k - 1].Go? {
        PerformFinals(net, ActFirst(net, ctx, ms, k - 1), net.regions[k - 1].name, ms[k - 1].target, ms[k - 1].action, x);
      }
    }
  }

  lemma {:induction false} EnterForeign(net: Net, ctx: Context, ms: seq<Move>, k: nat, x: string)
    requires |ms| == |net.regions| && k <= |ms|
    requires forall i :: 0 <= i < |net.regions| ==> net.regions[i].name != x
    ensures Of(EnterFirst(net, ctx, ms, k).finals, x) == Of(ctx.finals, x)
  {
    if k > 0 {
      EnterForeign(net, ctx, ms, k - 1, x);
      if ms[k - 1].Go? {
        EnterOneFinals(EnterFirst(net, ctx, ms, k - 1), net.regions[k - 1].name, ms[k - 1].target, x);
      }
    }
  }

  lemma ApplyForeign(net: Net, c: Config, ms: seq<Move>, x: string)
    requires |ms| == |net.regions| == |c.phases|
    requires forall i :: 0 <= i < |net.regions| ==> net.regions[i].name != x
    ensures Of(Apply(net, c, ms).ctx.finals, x) == Of(c.ctx.finals, x)
  {
    ActForeign(net, c.ctx, ms, |ms|, x);
    EnterForeign(net, ActFirst(net, c.ctx, ms, |ms|), ms, |ms|, x);
  }

  // ----- authorizations and skips -----

  function Authorizes(m: Move, name: string): set<string> {
    match m
    case Stay => {}
    case Go(_, MarkAuthorized) => {name}
    case Go(_, FailAuthorized(_)) => {name}
    case Go(_, ApplyAnswer(_, targets)) => set t | t in targets
    case Go(_, _) => {}
  }

  function Skips(net: Net, m: Move, name: string): set<string> {
    match m
    case Stay => {}
    case Go(_, MarkSkipped) => {name}
    case Go(_, ApplyAnswer(g, targets)) =>
      if KnownTargets(net, g, targets) then set t | t in Siblings(net, g) && t !in targets else {}
    case Go(_, _) => {}
  }

  lemma {:induction false} ActAuthorized(net: Net, ctx: Context, ms: seq<Move>, k: nat, x: string)
    requires |ms| == |net.regions| && k <= |ms|
    ensures x in ActFirst(net, ctx, ms, k).authorized
            <==> x in ctx.authorized || exists i :: 0 <= i < k && x in Authorizes(ms[i], net.regions[i].name)
  {
    if k > 0 { ActAuthorized(net, ctx, ms, k - 1, x); }
  }

  lemma {:induction false} ActSkipped(net: Net, ctx: Context, ms: seq<Move>, k: nat, x: string)
    requires |ms| == |net.regions| && k <= |ms|
    ensures x in ActFirst(net, ctx, ms, k).skipped
            <==> x in ctx.skipped || exists i :: 0 <= i < k && x in Skips(net, ms[i], net.regions[i].name)
  {
    if k > 0 { ActSkipped(net, ctx, ms, k - 1, x); }
  }

  lemma ApplySets(net: Net, c: Config, ms: seq<Move>, x: string)
    requires |ms| == |net.regions| == |c.phases|
    ensures x in Apply(net, c, ms).ctx.authorized
            <==> x in c.ctx.authorized || exists i :: 0 <= i < |ms| && x in Authorizes(ms[i], net.regions[i].name)
    ensures x in Apply(net, c, ms).ctx.skipped
            <==> x in c.ctx.skipped || exists i :: 0 <= i < |ms| && x in Skips(net, ms[i], net.regions[i].name)
  {
    ActAuthorized(net, c.ctx, ms, |ms|, x);
    ActSkipped(net, c.ctx, ms, |ms|, x);
    EnterFrame(net, ActFirst(net, c.ctx, ms, |ms|), ms, |ms|);
  }

  // ----- the log -----

  /** How often the stage has entered `executing`. */
  function Starts(ctx: Context, name: string): nat {
    multiset(ctx.log)[LogEntry(name, MarkExecuting)]
  }

  lemma {:induction false} ActStarts(net: Net, ctx: Context, ms: seq<Move>, k: nat, x: string)
    requires |ms| == |net.regions| && k <= |ms|
    ensures Starts(ActFirst(net, ctx, ms, k), x) == Starts(ctx, x)
  {
    if k > 0 { ActStarts(net, ctx, ms, k - 1, x); }
  }

  lemma {:induction false} EnterStarts(net: Net, ctx: Context, ms: seq<Move>, k: nat, i: nat)
    requires |ms| == |net.regions| && k <= |ms| && i < |ms| && UniqueNames(net)
    ensures Starts(EnterFirst(net, ctx, ms, k), net.regions[i].name)
            == Starts(ctx, net.regions[i].name) + if i < k && ms[i].Go? && ms[i].target == Executing then 1 else 0
  {
    if k > 0 {
      EnterStarts(net, ctx, ms, k - 1, i);
      assert net.regions[k - 1].name == net.regions[i].name <==> i == k - 1;
    }
  }

  lemma ApplyStarts(net: Net, c: Config, ms: seq<Move>, i: nat)
    requires |ms| == |net.regions| == |c.phases| && i < |ms| && UniqueNames(net)
    ensures Starts(Apply(net, c, ms).ctx, net.regions[i].name)
            == Starts(c.ctx, net.regions[i].name) + if ms[i].Go? && ms[i].target == Executing then 1 else 0
  {
    ActStarts(net, c.ctx, ms, |ms|, net.regions[i].name);
    EnterStarts(net, ActFirst(net, c.ctx, ms, |ms|), ms, |ms|, i);
  }

  /** Eventless transitions authorize and skip nothing. */
  lemma AlwaysKeepsSets(net: Net, c: Config)
    requires |c.phases| == |net.regions|
    ensures Apply(net, c, AlwaysMoves(net, c)).ctx.authorized == c.ctx.authorized
    ensures Apply(net, c, AlwaysMoves(net, c)).ctx.skipped == c.ctx.skipped
  {
    var d := Apply(net, c, AlwaysMoves(net, c)).ctx;
    forall x ensures x in d.authorized <==> x in c.ctx.authorized { ApplySets(net, c, AlwaysMoves(net, c), x); }
    forall x ensures x in d.skipped <==> x in c.ctx.skipped { ApplySets(net, c, AlwaysMoves(net, c), x); }
  }
}
