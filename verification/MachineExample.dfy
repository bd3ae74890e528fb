/** A machine and a run that meet every assumption of the theorems about runs:
    a gate with an approved answer, a branch it leaves out and a rollback
    target that has finished before. */
module MachineExample {
  import opened Ir
  import opened Graph
  import opened Machine
  import opened MachineRun
  import opened MachineFacts
  import opened MachineSafety
  import opened MachineCausality
  import opened MachineProgress

  const DRAFT := Region("draft", false, [], [Key("draft", "out")], false, None)
  const ASK := Region("ask", true, [Inbound(Key("draft", "out"), None)], [], false, None)
  const ACT := Region("act", false, [], [Key("act", "out")], true, None)
  const ALT := Region("alt", false, [], [Key("alt", "out")], true, None)
  const ROUTED := Net([DRAFT, ASK, ACT, ALT], map["ask" := ["act", "alt", "draft"]],
                      (expression: string, value: Value) => true)
  const BLANK := Context(map[], {}, {}, [], [], map[])
  const DRAFTED := PortWritten(Key("draft", "out"), Null)
  const ANSWER := GateAnswered("ask", ["act"])
  const ACTED := PortWritten(Key("act", "out"), Null)
  const EVENTS := [DRAFTED, ANSWER, ACTED]

  lemma SettlesInOne(net: Net, c: Config, d: Config)
    requires |c.phases| == |d.phases| == |net.regions| && UniqueNames(net)
    requires !Stable(net, c) && Apply(net, c, AlwaysMoves(net, c)) == d && Stable(net, d)
    ensures Settle(net, c) == d
  {
  }

  lemma FourActions(c: Context, ms: seq<Move>, a: seq<Context>)
    requires |ms| == 4 && |a| == 5 && a[0] == c
    requires forall k :: 0 <= k < 4 ==>
               a[k + 1] == if ms[k].Stay? then a[k] else Perform(ROUTED, a[k], ROUTED.regions[k].name, ms[k].action)
    ensures ActFirst(ROUTED, c, ms, 4) == a[4]
  {
    assert ActFirst(ROUTED, c, ms, 0) == a[0];
    assert ActFirst(ROUTED, c, ms, 1) == a[0 + 1];
    assert ActFirst(ROUTED, c, ms, 2) == a[1 + 1];
    assert ActFirst(ROUTED, c, ms, 3) == a[2 + 1];
    assert ActFirst(ROUTED, c, ms, 4) == a[3 + 1];
  }

  lemma FourEntries(c: Context, ms: seq<Move>, e: seq<Context>)
    requires |ms| == 4 && |e| == 5 && e[0] == c
    requires forall k :: 0 <= k < 4 ==>
               e[k + 1] == if ms[k].Stay? then e[k] else Enter(e[k], ROUTED.regions[k].name, ms[k].target)
    ensures EnterFirst(ROUTED, c, ms, 4) == e[4]
  {
    assert EnterFirst(ROUTED, c, ms, 0) == e[0];
    assert EnterFirst(ROUTED, c, ms, 1) == e[0 + 1];
    assert EnterFirst(ROUTED, c, ms, 2) == e[1 + 1];
    assert EnterFirst(ROUTED, c, ms, 3) == e[2 + 1];
    assert EnterFirst(ROUTED, c, ms, 4) == e[3 + 1];
  }

  /** One microstep of four regions, transition by transition. */
  lemma FourMoves(c: Config, ms: seq<Move>, a: seq<Context>, e: seq<Context>)
    requires |ms| == |c.phases| == 4 && |a| == |e| == 5 && a[0] == c.ctx && e[0] == a[4]
    requires forall k :: 0 <= k < 4 ==>
               a[k + 1] == if ms[k].Stay? then a[k] else Perform(ROUTED, a[k], ROUTED.regions[k].name, ms[k].action)
    requires forall k :: 0 <= k < 4 ==>
               e[k + 1] == if ms[k].Stay? then e[k] else Enter(e[k], ROUTED.regions[k].name, ms[k].target)
    ensures Apply(ROUTED, c, ms).ctx == e[4]
  {
    FourActions(c.ctx, ms, a);
    FourEntries(a[4], ms, e);
  }

  function AfterStart(): Config {
    Config([Executing, Waiting, Waiting, Waiting], BLANK.(log := [LogEntry("draft", MarkExecuting)]))
  }

  function AfterDraft(): Config {
    Config([Done, Executing, Waiting, Waiting],
           Context(map[Key("draft", "out") := Null], {}, {}, [Verdict("draft", Finished)],
                   [LogEntry("draft", MarkExecuting), LogEntry("draft", MarkDone), LogEntry("ask", MarkExecuting)], map[]))
  }

  function AfterAnswer(): Config {
    var c := AfterDraft().ctx;
    Config([Done, Done, Executing, Done], c.(
      authorized := {"act"}, skipped := {"alt", "draft"},
      finals := c.finals + [Verdict("ask", Finished), Verdict("alt", Finished)],
      log := c.log + [LogEntry("ask", MarkDone), LogEntry("act", MarkExecuting), LogEntry("alt", MarkDone)]))
  }

  lemma Started()
    ensures UniqueNames(ROUTED) && Run(ROUTED, BLANK, []) == AfterStart()
  {
    var c, d := Config([Waiting, Waiting, Waiting, Waiting], BLANK), AfterStart();
    var ms := [Go(Executing, NoAction), Stay, Stay, Stay];
    assert ASK.inbound[0].source !in BLANK.ports;
    assert AlwaysMoves(ROUTED, c) == ms && ms[0].Go?;
    FourMoves(c, ms, [BLANK, BLANK, BLANK, BLANK, BLANK], [BLANK, d.ctx, d.ctx, d.ctx, d.ctx]);
    assert Apply(ROUTED, c, ms).phases == d.phases;
    assert DRAFT.outbound[0] !in BLANK.ports;
    assert AlwaysMoves(ROUTED, d) == [Stay, Stay, Stay, Stay];
    SettlesInOne(ROUTED, c, d);
    assert seq(|ROUTED.regions|, _ => Waiting) == c.phases;
  }

  function DraftWritten(): Config {
    var c := AfterStart();
    c.(ctx := c.ctx.(ports := map[Key("draft", "out") := Null]))
  }

  lemma DraftMoves()
    ensures AlwaysMoves(ROUTED, DraftWritten()) == [Go(Done, NoAction), Go(Executing, NoAction), Stay, Stay]
  {
  }

  lemma DraftApplied()
    ensures Apply(ROUTED, DraftWritten(), AlwaysMoves(ROUTED, DraftWritten())) == AfterDraft()
  {
    DraftMoves();
    var c, d := DraftWritten(), AfterDraft();
    var ms := [Go(Done, NoAction), Go(Executing, NoAction), Stay, Stay];
    var e := c.ctx.(finals := d.ctx.finals, log := [LogEntry("draft", MarkExecuting), LogEntry("draft", MarkDone)]);
    FourMoves(c, ms, [c.ctx, c.ctx, c.ctx, c.ctx, c.ctx], [c.ctx, e, d.ctx, d.ctx, d.ctx]);
    assert Apply(ROUTED, c, ms).phases == d.phases;
  }

  lemma DraftSettles()
    ensures UniqueNames(ROUTED) && Settle(ROUTED, DraftWritten()) == AfterDraft()
  {
    DraftMoves();
    DraftApplied();
    assert AlwaysMoves(ROUTED, DraftWritten())[0].Go?;
    assert AlwaysMoves(ROUTED, AfterDraft()) == [Stay, Stay, Stay, Stay];
    SettlesInOne(ROUTED, DraftWritten(), AfterDraft());
  }

  lemma Drafted()
    ensures UniqueNames(ROUTED) && Run(ROUTED, BLANK, [DRAFTED]) == AfterDraft()
  {
    Started();
    NobodyTakesAWrite(ROUTED, AfterStart(), Key("draft", "out"), Null);
    assert React(ROUTED, AfterStart(), DRAFTED) == DraftWritten();
    DraftSettles();
    assert [DRAFTED][..0] == [];
  }

  lemma AnswerMoves()
    ensures EventMoves(ROUTED, AfterDraft(), ANSWER)
            == [Stay, Go(Done, ApplyAnswer("ask", ["act"])), Go(Executing, MarkAuthorized), Go(Done, MarkSkipped)]
  {
    assert Siblings(ROUTED, "ask")[0] == "act" && Siblings(ROUTED, "ask")[1] == "alt";
  }

  lemma AnswerRecorded(ctx: Context)
    requires ctx.authorized == {} && ctx.skipped == {}
    ensures AnswerContext(ROUTED, ctx, "ask", ["act"]) == ctx.(authorized := {"act"}, skipped := {"alt", "draft"})
  {
    var targets := Siblings(ROUTED, "ask");
    assert targets[0] == "act" && targets[1] == "alt" && targets[2] == "draft";
  }

  lemma AnswerApplied()
    ensures Apply(ROUTED, AfterDraft(), EventMoves(ROUTED, AfterDraft(), ANSWER)) == AfterAnswer()
  {
    var c, d := AfterDraft(), AfterAnswer();
    var ms := [Stay, Go(Done, ApplyAnswer("ask", ["act"])), Go(Executing, MarkAuthorized), Go(Done, MarkSkipped)];
    AnswerMoves();
    AnswerRecorded(c.ctx);
    var a := c.ctx.(authorized := {"act"}, skipped := {"alt", "draft"});
    var done := a.(finals := a.finals + [Verdict("ask", Finished)], log := a.log + [LogEntry("ask", MarkDone)]);
    var started := done.(log := done.log + [LogEntry("act", MarkExecuting)]);
    FourMoves(c, ms, [c.ctx, c.ctx, a, a, a], [a, a, done, started, d.ctx]);
    assert Apply(ROUTED, c, ms).phases == d.phases;
  }

  lemma AnswerSettled()
    ensures AlwaysMoves(ROUTED, AfterAnswer()) == [Stay, Stay, Stay, Stay]
  {
    assert ACT.outbound[0] !in AfterAnswer().ctx.ports;
  }

  lemma Answered()
    ensures UniqueNames(ROUTED) && Run(ROUTED, BLANK, [DRAFTED, ANSWER]) == AfterAnswer()
  {
    Drafted();
    AnswerMoves();
    AnswerApplied();
    AnswerSettled();
    assert EventMoves(ROUTED, AfterDraft(), ANSWER)[1].Go?;
    assert AlwaysMoves(ROUTED, AfterAnswer()) == [Stay, Stay, Stay, Stay];
    assert [DRAFTED, ANSWER][..1] == [DRAFTED];
  }

  function ActWritten(): Config {
    var c := AfterAnswer();
    c.(ctx := c.ctx.(ports := c.ctx.ports[Key("act", "out") := Null]))
  }

  function AfterAct(): Config {
    var c := ActWritten().ctx;
    Config([Done, Done, Done, Done],
           c.(finals := c.finals + [Verdict("act", Finished)], log := c.log + [LogEntry("act", MarkDone)]))
  }

  lemma ActMoves()
    ensures AlwaysMoves(ROUTED, ActWritten()) == [Stay, Stay, Go(Done, NoAction), Stay]
  {
  }

  lemma ActApplied()
    ensures Apply(ROUTED, ActWritten(), AlwaysMoves(ROUTED, ActWritten())) == AfterAct()
  {
    ActMoves();
    var c, d := ActWritten(), AfterAct();
    var ms := [Stay, Stay, Go(Done, NoAction), Stay];
    FourMoves(c, ms, [c.ctx, c.ctx, c.ctx, c.ctx, c.ctx], [c.ctx, c.ctx, c.ctx, d.ctx, d.ctx]);
    assert Apply(ROUTED, c, ms).phases == d.phases;
  }

  lemma ActSettles()
    ensures UniqueNames(ROUTED) && Settle(ROUTED, ActWritten()) == AfterAct()
  {
    ActMoves();
    ActApplied();
    assert AlwaysMoves(ROUTED, ActWritten())[2].Go?;
    assert AlwaysMoves(ROUTED, AfterAct()) == [Stay, Stay, Stay, Stay];
    SettlesInOne(ROUTED, ActWritten(), AfterAct());
  }

  lemma Acted()
    ensures UniqueNames(ROUTED) && Run(ROUTED, BLANK, EVENTS) == AfterAct()
  {
    Answered();
    NobodyTakesAWrite(ROUTED, AfterAnswer(), Key("act", "out"), Null);
    assert React(ROUTED, AfterAnswer(), ACTED) == ActWritten();
    ActSettles();
    assert EVENTS[..2] == [DRAFTED, ANSWER];
  }

  // ----- the wiring -----

  function RankOf(name: string): nat {
    if name == "draft" then 0 else if name == "ask" then 1 else 2
  }

  lemma {:induction false} RankGrows(edges: set<Edge>, p: seq<string>)
    requires (forall e :: e in edges ==> RankOf(e.0) < RankOf(e.1)) && IsPath(edges, p) && |p| >= 2
    ensures RankOf(p[0]) < RankOf(p[|p| - 1])
  {
    assert (p[|p| - 2], p[|p| - 2 + 1]) in edges;
    if |p| > 2 { RankGrows(edges, p[..|p| - 1]); }
  }

  lemma RankedIsAcyclic(edges: set<Edge>)
    requires forall e :: e in edges ==> RankOf(e.0) < RankOf(e.1)
    ensures forall a, b :: ReachesPlus(edges, a, b) ==> RankOf(a) < RankOf(b)
    ensures Acyclic(edges)
  {
    forall a, b | ReachesPlus(edges, a, b) ensures RankOf(a) < RankOf(b) {
      var p :| PathFromTo(edges, p, a, b) && |p| >= 2;
      RankGrows(edges, p);
    }
  }

  lemma OnlyForwardEdge()
    ensures forall e :: e in ForwardEdges(ROUTED) <==> e == ("draft", "ask")
  {
    var rs := ROUTED.regions;
    assert rs[0] == DRAFT && rs[1] == ASK && rs[2] == ACT && rs[3] == ALT;
    assert rs[1].inbound[0].source == Key("draft", "out") && rs[0].name == "draft";
  }

  lemma RoutedForward()
    ensures RoutesForward(ROUTED, "ask", "act") && RoutesForward(ROUTED, "ask", "alt")
    ensures forall g, t :: RoutesForward(ROUTED, g, t) ==> g == "ask" && t in {"act", "alt"}
  {
    OnlyForwardEdge();
    RankedIsAcyclic(ForwardEdges(ROUTED));
    assert ROUTED.regions[1] == ASK;
    var targets := Siblings(ROUTED, "ask");
    assert targets[0] == "act" && targets[1] == "alt" && targets[2] == "draft";
    EdgeReaches(ForwardEdges(ROUTED), "draft", "ask");
  }

  lemma NoCycle()
    ensures Acyclic(AllEdges(ROUTED))
  {
    OnlyForwardEdge();
    RoutedForward();
    RankedIsAcyclic(AllEdges(ROUTED));
  }

  lemma SourcesDeclared()
    ensures forall i, j :: 0 <= i < 4 && 0 <= j < |ROUTED.regions[i].inbound| ==>
              DeclaredSource(ROUTED, ROUTED.regions[i].inbound[j].source)
    ensures Seeded(ROUTED, BLANK) && Fresh(ROUTED, BLANK)
  {
    var rs := ROUTED.regions;
    assert rs[0] == DRAFT && rs[1] == ASK && rs[2] == ACT && rs[3] == ALT;
    assert DRAFT.outbound[0] == Key("draft", "out") && DRAFT.inbound == ACT.inbound == ALT.inbound == [];
  }

  lemma NothingShared()
    ensures NoSharedTargets(ROUTED)
  {
  }

  lemma TargetsRouted()
    ensures forall i :: 0 <= i < |ROUTED.regions| && ROUTED.regions[i].gateRouted ==>
              exists g :: RoutesForward(ROUTED, g, ROUTED.regions[i].name)
  {
    RoutedForward();
    var rs := ROUTED.regions;
    assert !rs[0].gateRouted && !rs[1].gateRouted && rs[2].name == "act" && rs[3].name == "alt";
  }

  lemma WiringHolds()
    ensures WellWired(ROUTED)
  {
    NoCycle();
    SourcesDeclared();
    TargetsRouted();
  }

  lemma EventsAllowed()
    ensures Allowed(ROUTED, AfterStart(), DRAFTED)
    ensures Allowed(ROUTED, AfterDraft(), ANSWER)
    ensures Allowed(ROUTED, AfterAnswer(), ACTED)
  {
    assert Starts(AfterStart().ctx, "draft") > 0 && Starts(AfterAnswer().ctx, "act") > 0;
    assert ROUTED.regions[1] == ASK && AfterDraft().phases[1] == Executing;
    assert Siblings(ROUTED, "ask")[0] == "act";
  }

  lemma LegalRun()
    ensures UniqueNames(ROUTED) && Legal(ROUTED, BLANK, EVENTS)
  {
    Started();
    Drafted();
    Answered();
    assert EVENTS[..2] == [DRAFTED, ANSWER] && [DRAFTED, ANSWER][..1] == [DRAFTED] && [DRAFTED][..0] == [];
    assert Legal(ROUTED, BLANK, []);
    EventsAllowed();
    assert Legal(ROUTED, BLANK, [DRAFTED]);
    assert Legal(ROUTED, BLANK, [DRAFTED, ANSWER]);
  }

  /** The assumptions of the theorems about legal first runs hold together on a
      run that answers a gate. The branch left out was skipped before it could
      run, the rollback target after it had finished; the run completes. */
  lemma AssumptionsHoldTogether()
    ensures UniqueNames(ROUTED) && Fresh(ROUTED, BLANK) && Legal(ROUTED, BLANK, EVENTS)
    ensures WellWired(ROUTED) && Seeded(ROUTED, BLANK) && NoSharedTargets(ROUTED)
    ensures var c := Run(ROUTED, BLANK, EVENTS);
      && Quiet(ROUTED, c) && Completed(c) && c.ctx.skipped == {"alt", "draft"}
      && !Culprit(ROUTED, c, 0) && Culprit(ROUTED, c, 3)
  {
    LegalRun();
    WiringHolds();
    NothingShared();
    SourcesDeclared();
    Acted();
    EndState();
  }

  lemma EndState()
    ensures Quiet(ROUTED, AfterAct()) && Completed(AfterAct()) && AfterAct().ctx.skipped == {"alt", "draft"}
    ensures !Culprit(ROUTED, AfterAct(), 0) && Culprit(ROUTED, AfterAct(), 3)
  {
    assert AlwaysMoves(ROUTED, AfterAct()) == [Stay, Stay, Stay, Stay];
    assert ROUTED.regions[0] == DRAFT && ROUTED.regions[3] == ALT;
    assert ALT.outbound[0] == Key("alt", "out");
  }
}
