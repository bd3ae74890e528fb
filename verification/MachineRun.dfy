/** Macrosteps and runs of the pipeline machine, with the lemmas that make the
    eventless loop terminate. */
module MachineRun {
  import opened Machine

  // ----- what one microstep does to the parts of the context -----

  predicate Retries(m: Move) {
    m.Go? && m.action.RaiseRetry?
  }

  lemma {:induction false} ActRetries(net: Net, ctx: Context, ms: seq<Move>, k: nat, i: nat)
    requires |ms| == |net.regions| && k <= |ms| && i < |ms| && UniqueNames(net)
    ensures Count(ActFirst(net, ctx, ms, k), net.regions[i].name)
            == Count(ctx, net.regions[i].name) + if i < k && Retries(ms[i]) then 1 else 0
  {
    if k > 0 { ActRetries(net, ctx, ms, k - 1, i); }
  }

  lemma {:induction false} ActPorts(net: Net, ctx: Context, ms: seq<Move>, k: nat)
    requires |ms| == |net.regions| && k <= |ms|
    ensures ActFirst(net, ctx, ms, k).ports == ctx.ports
  {
    if k > 0 { ActPorts(net, ctx, ms, k - 1); }
  }

  lemma {:induction false} EnterFrame(net: Net, ctx: Context, ms: seq<Move>, k: nat)
    requires |ms| == |net.regions| && k <= |ms|
    ensures var e := EnterFirst(net, ctx, ms, k);
            e.ports == ctx.ports && e.authorized == ctx.authorized && e.skipped == ctx.skipped && e.retries == ctx.retries
  {
    if k > 0 { EnterFrame(net, ctx, ms, k - 1); }
  }

  lemma ApplyRetries(net: Net, c: Config, ms: seq<Move>, i: nat)
    requires |ms| == |net.regions| == |c.phases| && i < |ms| && UniqueNames(net)
    ensures Count(Apply(net, c, ms).ctx, net.regions[i].name)
            == Count(c.ctx, net.regions[i].name) + if Retries(ms[i]) then 1 else 0
  {
    ActRetries(net, c.ctx, ms, |ms|, i);
    EnterFrame(net, ActFirst(net, c.ctx, ms, |ms|), ms, |ms|);
  }

  lemma ApplyPorts(net: Net, c: Config, ms: seq<Move>)
    requires |ms| == |net.regions| == |c.phases|
    ensures Apply(net, c, ms).ctx.ports == c.ctx.ports
  {
    ActPorts(net, c.ctx, ms, |ms|);
    EnterFrame(net, ActFirst(net, c.ctx, ms, |ms|), ms, |ms|);
  }

  // ----- every transition spends potential -----

  /** A transition goes to a lower-ranked phase, or is a retry within budget. */
  predicate Spends(r: Region, p: Phase, ctx: Context, m: Move) {
    m.Stay?
    || (!Retries(m) && Rank(m.target) < Rank(p))
    || (Retries(m) && m.target == Waiting && p == Executing && RetryLeft(r, ctx))
  }

  lemma {:induction false} PotentialDrops(net: Net, c: Config, ms: seq<Move>, k: nat)
    requires |ms| == |net.regions| == |c.phases| && k <= |ms| && UniqueNames(net)
    requires forall i :: 0 <= i < |ms| ==> Spends(net.regions[i], c.phases[i], c.ctx, ms[i])
    ensures Potential(net, Apply(net, c, ms), k) + Moving(ms, k) <= Potential(net, c, k)
  {
    if k > 0 {
      PotentialDrops(net, c, ms, k - 1);
      ApplyRetries(net, c, ms, k - 1);
      assert Spends(net.regions[k - 1], c.phases[k - 1], c.ctx, ms[k - 1]);
    }
  }

  lemma {:induction false} SomeMoving(ms: seq<Move>, k: nat)
    requires k <= |ms|
    ensures (exists i :: 0 <= i < k && ms[i].Go?) <==> Moving(ms, k) > 0
  {
    if k > 0 { SomeMoving(ms, k - 1); }
  }

  lemma AlwaysSpends(net: Net, c: Config)
    requires |c.phases| == |net.regions| && UniqueNames(net)
    ensures var c' := Apply(net, c, AlwaysMoves(net, c));
            Potential(net, c', |net.regions|) + Moving(AlwaysMoves(net, c), |net.regions|) <= Potential(net, c, |net.regions|)
    ensures !Stable(net, c) ==> Moving(AlwaysMoves(net, c), |net.regions|) > 0
  {
    var ms := AlwaysMoves(net, c);
    PotentialDrops(net, c, ms, |ms|);
    SomeMoving(ms, |ms|);
  }

  lemma EventSpends(net: Net, c: Config, ev: Event)
    requires |c.phases| == |net.regions| && UniqueNames(net)
    ensures var c' := Apply(net, c, EventMoves(net, c, ev));
            Potential(net, c', |net.regions|) + Moving(EventMoves(net, c, ev), |net.regions|) <= Potential(net, c, |net.regions|)
  {
    PotentialDrops(net, c, EventMoves(net, c, ev), |net.regions|);
  }

  // ----- run to completion -----

  /** Eventless microsteps until none is enabled. */
  function Settle(net: Net, c: Config): (c': Config)
    requires |c.phases| == |net.regions| && UniqueNames(net)
    ensures |c'.phases| == |c.phases| && Stable(net, c')
    ensures c'.ctx.ports == c.ctx.ports
    decreases Potential(net, c, |net.regions|)
  {
    if Stable(net, c) then c
    else
      AlwaysSpends(net, c);
      ApplyPorts(net, c, AlwaysMoves(net, c));
      Settle(net, Apply(net, c, AlwaysMoves(net, c)))
  }

  predicate Completed(c: Config) {
    c.phases != [] && forall i :: 0 <= i < |c.phases| ==> Final(c.phases[i])
  }

  /** The root handler: only a port write has one. */
  function RootHandle(c: Config, ev: Event): Config {
    match ev
    case PortWritten(k, v) => c.(ctx := c.ctx.(ports := c.ctx.ports[k := v]))
    case _ => c
  }

  /** The reaction to the event itself: the regions' transitions, or the root
      handler if no region takes the event. */
  function React(net: Net, c: Config, ev: Event): (c': Config)
    requires |c.phases| == |net.regions|
    ensures |c'.phases| == |c.phases|
  {
    var ms := EventMoves(net, c, ev);
    if AnyMoves(ms) then Apply(net, c, ms) else RootHandle(c, ev)
  }

  /** One macrostep. A completed machine ignores every event. */
  function Step(net: Net, c: Config, ev: Event): (c': Config)
    requires |c.phases| == |net.regions| && UniqueNames(net)
    ensures |c'.phases| == |c.phases|
    ensures Stable(net, c) || !Completed(c) ==> Stable(net, c')
  {
    if Completed(c) then c else Settle(net, React(net, c, ev))
  }

  /** START: every region enters `waiting`, then eventless transitions run. */
  function Start(net: Net, ctx: Context): (c: Config)
    requires UniqueNames(net)
    ensures |c.phases| == |net.regions| && Stable(net, c)
    ensures c.ctx.ports == ctx.ports
  {
    Settle(net, Config(seq(|net.regions|, _ => Waiting), ctx))
  }

  /** The configuration after a sequence of events. */
  function Run(net: Net, ctx: Context, evs: seq<Event>): (c: Config)
    requires UniqueNames(net)
    ensures |c.phases| == |net.regions| && Stable(net, c)
  {
    if evs == [] then Start(net, ctx)
    else Step(net, Run(net, ctx, evs[..|evs| - 1]), evs[|evs| - 1])
  }

  // ----- no port write is lost -----

  /** In a stable configuration no region takes a port write. */
  lemma NobodyTakesAWrite(net: Net, c: Config, k: Key, v: Value)
    requires |c.phases| == |net.regions| && Stable(net, c)
    ensures !AnyMoves(EventMoves(net, c, PortWritten(k, v)))
  {
    var always, ms := AlwaysMoves(net, c), EventMoves(net, c, PortWritten(k, v));
    forall i | 0 <= i < |ms| ensures ms[i].Stay? {
      assert always[i].Stay?;
    }
  }

  predicate IsWrite(ev: Event) {
    ev.PortWritten?
  }

  /** Port values change by exactly the writes sent while the machine runs. */
  lemma StepPorts(net: Net, c: Config, ev: Event)
    requires |c.phases| == |net.regions| && UniqueNames(net) && Stable(net, c)
    ensures Step(net, c, ev).ctx.ports
            == if IsWrite(ev) && !Completed(c) then c.ctx.ports[ev.key := ev.value] else c.ctx.ports
  {
    if !Completed(c) {
      if IsWrite(ev) {
        NobodyTakesAWrite(net, c, ev.key, ev.value);
      } else {
        ApplyPorts(net, c, EventMoves(net, c, ev));
      }
    }
  }

  /** The writes among `evs`, laid over `ports` in order. */
  function Overlay(ports: map<Key, Value>, evs: seq<Event>): map<Key, Value> {
    if evs == [] then ports
    else
      var before, last := Overlay(ports, evs[..|evs| - 1]), evs[|evs| - 1];
      if IsWrite(last) then before[last.key := last.value] else before
  }

  /** As long as the machine runs, its port values are its initial values
      overlaid with every write sent, in order: no write is lost to a region
      that takes the event. */
  lemma {:induction false} NoWriteIsLost(net: Net, ctx: Context, evs: seq<Event>)
    requires UniqueNames(net)
    requires evs != [] ==> !Completed(Run(net, ctx, evs[..|evs| - 1]))
    ensures Run(net, ctx, evs).ctx.ports == Overlay(ctx.ports, evs)
  {
    if evs != [] {
      NoWriteIsLost(net, ctx, evs[..|evs| - 1]);
      StepPorts(net, Run(net, ctx, evs[..|evs| - 1]), evs[|evs| - 1]);
    }
  }
}
