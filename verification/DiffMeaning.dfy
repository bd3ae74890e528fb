/** What a diff and a verdict say, told of the two pipelines directly: which
    side each entry comes from and what it records of before and after. */
module DiffMeaning {
  import opened Ir
  import opened Tables
  import opened Diff
  import opened SafeRange

  // ----- lookups -----

  /** `s` is the stage that counts for the name: the last so named. */
  predicate LastStage(stages: seq<Stage>, n: string, s: Stage) {
    exists i :: 0 <= i < |stages| && stages[i] == s && s.name == n && forall j :: i < j < |stages| ==> stages[j].name != n
  }

  predicate StageNamed(stages: seq<Stage>, n: string) {
    exists i :: 0 <= i < |stages| && stages[i].name == n
  }

  predicate LastPort(ports: seq<Port>, n: string, p: Port) {
    exists i :: 0 <= i < |ports| && ports[i] == p && p.name == n && forall j :: i < j < |ports| ==> ports[j].name != n
  }

  predicate PortNamed(ports: seq<Port>, n: string) {
    exists i :: 0 <= i < |ports| && ports[i].name == n
  }

  lemma StageNamedBefore(stages: seq<Stage>, n: string)
    requires stages != [] && stages[|stages| - 1].name != n
    ensures StageNamed(stages, n) <==> StageNamed(stages[..|stages| - 1], n)
  {
    var init := stages[..|stages| - 1];
    if StageNamed(init, n) {
      var i :| 0 <= i < |init| && init[i].name == n;
      assert stages[i].name == n;
    }
    if StageNamed(stages, n) {
      var i :| 0 <= i < |stages| && stages[i].name == n;
      assert init[i].name == n;
    }
  }

  lemma LastStageBefore(stages: seq<Stage>, n: string, s: Stage)
    requires stages != [] && stages[|stages| - 1].name != n
    ensures LastStage(stages, n, s) <==> LastStage(stages[..|stages| - 1], n, s)
  {
    var k := |stages| - 1;
    var init := stages[..k];
    if LastStage(init, n, s) {
      var i :| 0 <= i < k && init[i] == s && s.name == n && forall j :: i < j < k ==> init[j].name != n;
      forall j | i < j < |stages| ensures stages[j].name != n { if j < k { assert init[j].name != n; } }
      assert stages[i] == s;
    }
    if LastStage(stages, n, s) {
      var i :| 0 <= i < |stages| && stages[i] == s && s.name == n && forall j :: i < j < |stages| ==> stages[j].name != n;
      forall j | i < j < k ensures init[j].name != n { assert stages[j].name != n; }
      assert init[i] == s;
    }
  }

  lemma {:induction false} StageLookup(stages: seq<Stage>, n: string, s: Stage)
    ensures n in StageTable(stages) <==> StageNamed(stages, n)
    ensures n in StageTable(stages) && StageTable(stages)[n] == s <==> LastStage(stages, n, s)
  {
    if stages != [] {
      var last := stages[|stages| - 1];
      if last.name == n {
        assert stages[|stages| - 1].name == n;
      } else {
        StageLookup(stages[..|stages| - 1], n, s);
        StageNamedBefore(stages, n);
        LastStageBefore(stages, n, s);
      }
    }
  }

  lemma PortNamedBefore(ports: seq<Port>, n: string)
    requires ports != [] && ports[|ports| - 1].name != n
    ensures PortNamed(ports, n) <==> PortNamed(ports[..|ports| - 1], n)
  {
    var init := ports[..|ports| - 1];
    if PortNamed(init, n) {
      var i :| 0 <= i < |init| && init[i].name == n;
      assert ports[i].name == n;
    }
    if PortNamed(ports, n) {
      var i :| 0 <= i < |ports| && ports[i].name == n;
      assert init[i].name == n;
    }
  }

  lemma LastPortBefore(ports: seq<Port>, n: string, p: Port)
    requires ports != [] && ports[|ports| - 1].name != n
    ensures LastPort(ports, n, p) <==> LastPort(ports[..|ports| - 1], n, p)
  {
    var k := |ports| - 1;
    var init := ports[..k];
    if LastPort(init, n, p) {
      var i :| 0 <= i < k && init[i] == p && p.name == n && forall j :: i < j < k ==> init[j].name != n;
      forall j | i < j < |ports| ensures ports[j].name != n { if j < k { assert init[j].name != n; } }
      assert ports[i] == p;
    }
    if LastPort(ports, n, p) {
      var i :| 0 <= i < |ports| && ports[i] == p && p.name == n && forall j :: i < j < |ports| ==> ports[j].name != n;
      forall j | i < j < k ensures init[j].name != n { assert ports[j].name != n; }
      assert init[i] == p;
    }
  }

  lemma {:induction false} PortLookup(ports: seq<Port>, n: string, p: Port)
    ensures n in PortTable(ports) <==> PortNamed(ports, n)
    ensures n in PortTable(ports) && PortTable(ports)[n] == p <==> LastPort(ports, n, p)
  {
    if ports != [] {
      var last := ports[|ports| - 1];
      if last.name == n {
        assert ports[|ports| - 1].name == n;
      } else {
        PortLookup(ports[..|ports| - 1], n, p);
        PortNamedBefore(ports, n);
        LastPortBefore(ports, n, p);
      }
    }
  }

  // ----- stages -----

  lemma {:induction false} MissingMembers(keys: seq<string>, own: map<string, Stage>, other: map<string, Stage>, s: Stage)
    requires forall n :: n in own ==> own[n].name == n
    ensures s in StagesMissing(keys, own, other)
            <==> s.name in keys && s.name in own && own[s.name] == s && s.name !in other
  {
    if keys != [] {
      MissingMembers(keys[..|keys| - 1], own, other, s);
      assert keys == keys[..|keys| - 1] + [keys[|keys| - 1]];
    }
  }

  /** Added are the proposed stages of names base lacks, removed the base stages
      of names proposed lacks. */
  lemma PresenceMeaning(base: Pipeline, proposed: Pipeline, s: Stage)
    ensures s in DiffOf(base, proposed).added <==> LastStage(proposed.stages, s.name, s) && !StageNamed(base.stages, s.name)
    ensures s in DiffOf(base, proposed).removed <==> LastStage(base.stages, s.name, s) && !StageNamed(proposed.stages, s.name)
  {
    StageTableKeys(base.stages);
    StageTableKeys(proposed.stages);
    StageLookup(base.stages, s.name, s);
    StageLookup(proposed.stages, s.name, s);
    MissingMembers(StageKeys(proposed.stages), StageTable(proposed.stages), StageTable(base.stages), s);
    MissingMembers(StageKeys(base.stages), StageTable(base.stages), StageTable(proposed.stages), s);
  }

  // ----- wires -----

  /** The same source, target and guard, an empty guard being none. */
  predicate SameGuarded(v: Wire, w: Wire) {
    v.from == w.from && v.to == w.to && (v.guard == w.guard || (IsNoGuard(v.guard) && IsNoGuard(w.guard)))
  }

  predicate IsNoGuard(g: Option<string>) {
    g == None || g == Some("")
  }

  lemma {:induction false} MissingWires(wires: seq<Wire>, keys: set<WireKey>, w: Wire)
    ensures w in WiresMissing(wires, keys) <==> w in wires && KeyOfWire(w) !in keys
  {
    if wires != [] {
      MissingWires(wires[..|wires| - 1], keys, w);
      assert wires == wires[..|wires| - 1] + [wires[|wires| - 1]];
    }
  }

  /** Added are the proposed wires base has none like, removed the base wires
      proposed has none like. */
  lemma WiresMeaning(base: Pipeline, proposed: Pipeline, w: Wire)
    ensures w in DiffOf(base, proposed).wiresAdded <==>
              w in proposed.wires && forall v :: v in base.wires ==> !SameGuarded(v, w)
    ensures w in DiffOf(base, proposed).wiresRemoved <==>
              w in base.wires && forall v :: v in proposed.wires ==> !SameGuarded(v, w)
  {
    MissingWires(proposed.wires, WireKeys(base.wires), w);
    MissingWires(base.wires, WireKeys(proposed.wires), w);
    assert forall v :: SameGuarded(v, w) <==> KeyOfWire(v) == KeyOfWire(w);
  }

  // ----- ports -----

  lemma {:induction false} MissingPorts(keys: seq<string>, own: map<string, Port>, other: map<string, Port>, p: Port)
    requires forall n :: n in own ==> own[n].name == n
    ensures p in PortsMissing(keys, own, other) <==> p.name in keys && p.name in own && own[p.name] == p && p.name !in other
  {
    if keys != [] {
      MissingPorts(keys[..|keys| - 1], own, other, p);
      assert keys == keys[..|keys| - 1] + [keys[|keys| - 1]];
    }
  }

  lemma {:induction false} RetypedPorts(keys: seq<string>, own: map<string, Port>, other: map<string, Port>, c: PortTypeChange)
    ensures c in Retyped(keys, own, other) <==>
              c.port in keys && c.port in own && c.port in other
              && c.before == other[c.port].typ && c.after == own[c.port].typ && c.before != c.after
  {
    if keys != [] {
      RetypedPorts(keys[..|keys| - 1], own, other, c);
      assert keys == keys[..|keys| - 1] + [keys[|keys| - 1]];
    }
  }

  predicate PortAdded(base: seq<Port>, proposed: seq<Port>, p: Port) {
    LastPort(proposed, p.name, p) && !PortNamed(base, p.name)
  }

  predicate PortRetyped(base: seq<Port>, proposed: seq<Port>, c: PortTypeChange) {
    c.before != c.after
    && (exists p :: p in base && LastPort(base, c.port, p) && p.typ == c.before)
    && (exists p :: p in proposed && LastPort(proposed, c.port, p) && p.typ == c.after)
  }

  /** The ports' diff: what proposed adds, what it drops, and the types before
      and after; nothing at all if there is none of these. */
  ghost predicate TellsPorts(base: seq<Port>, proposed: seq<Port>, d: Option<PortsDiff>) {
    var added, removed, changed := if d.Some? then d.value.added else [], if d.Some? then d.value.removed else [],
                                   if d.Some? then d.value.typeChanged else [];
    && (forall p :: p in added <==> PortAdded(base, proposed, p))
    && (forall p :: p in removed <==> PortAdded(proposed, base, p))
    && (forall c :: c in changed <==> PortRetyped(base, proposed, c))
    && (d.Some? ==> added != [] || removed != [] || changed != [])
  }

  lemma PortsAddedMeaning(base: seq<Port>, proposed: seq<Port>, p: Port)
    ensures p in PortsMissing(PortKeys(proposed), PortTable(proposed), PortTable(base)) <==> PortAdded(base, proposed, p)
  {
    PortTableKeys(proposed);
    PortLookup(base, p.name, p);
    PortLookup(proposed, p.name, p);
    MissingPorts(PortKeys(proposed), PortTable(proposed), PortTable(base), p);
  }

  lemma LastIsMember(ports: seq<Port>, n: string)
    requires n in PortTable(ports)
    ensures PortTable(ports)[n] in ports && LastPort(ports, n, PortTable(ports)[n])
    ensures forall p :: LastPort(ports, n, p) ==> p == PortTable(ports)[n]
  {
    PortLookup(ports, n, PortTable(ports)[n]);
    forall p | LastPort(ports, n, p) ensures p == PortTable(ports)[n] { PortLookup(ports, n, p); }
  }

  lemma PortsRetypedMeaning(base: seq<Port>, proposed: seq<Port>, c: PortTypeChange)
    ensures c in Retyped(PortKeys(proposed), PortTable(proposed), PortTable(base)) <==> PortRetyped(base, proposed, c)
  {
    var b, p := PortTable(base), PortTable(proposed);
    PortTableKeys(proposed);
    RetypedPorts(PortKeys(proposed), p, b, c);
    if c.port in b { LastIsMember(base, c.port); }
    if c.port in p { LastIsMember(proposed, c.port); }
    forall x | LastPort(base, c.port, x) ensures c.port in b { PortLookup(base, c.port, x); }
    forall x | LastPort(proposed, c.port, x) ensures c.port in p { PortLookup(proposed, c.port, x); }
  }

  lemma PortsMeaning(base: seq<Port>, proposed: seq<Port>)
    ensures TellsPorts(base, proposed, PortsDiffOf(base, proposed))
  {
    forall p { PortsAddedMeaning(base, proposed, p); }
    forall p { PortsAddedMeaning(proposed, base, p); }
    forall c { PortsRetypedMeaning(base, proposed, c); }
  }

  // ----- modified stages -----

  predicate SameKindOfStage(b: Stage, p: Stage) {
    (b.kind.Agent? && p.kind.Agent?) || (b.kind.Script? && p.kind.Script?) || (b.kind.Gate? && p.kind.Gate?)
  }

  predicate RoutesDiffer(b: Stage, p: Stage) {
    b.kind.Gate? && p.kind.Gate? && b.kind.routes != p.kind.routes
  }

  /** A recorded change has the base value before and the proposed value after,
      and is recorded only if they differ. */
  predicate TellsChange<T(==)>(before: T, after: T, c: Option<Change<T>>) {
    if before == after then c == None else c.Some? && c.value.before == before && c.value.after == after
  }

  /** What changed between two stages of one type, field by field. */
  ghost predicate TellsChanges(b: Stage, p: Stage, c: Changes) {
    && TellsPorts(b.inputs, p.inputs, c.inputs) && TellsPorts(b.outputs, p.outputs, c.outputs)
    && (if b.kind.Agent? && p.kind.Agent? then TellsChange(b.kind.promptRef, p.kind.promptRef, c.promptRef) else c.promptRef == None)
    && (if b.kind.Script? && p.kind.Script? then TellsChange(b.kind.code, p.kind.code, c.code) else c.code == None)
    && (if b.kind.Gate? && p.kind.Gate? then TellsChange(b.kind.question, p.kind.question, c.question) else c.question == None)
  }

  /** Only the prompt reference has changed. */
  predicate OnlyPrompt(c: Changes) {
    c.promptRef.Some? && c.code.None? && c.question.None? && c.inputs.None? && c.outputs.None?
  }

  predicate NothingChanged(c: Changes) {
    c.promptRef.None? && c.code.None? && c.question.None? && c.inputs.None? && c.outputs.None?
  }

  /** The entry of a stage on both sides: nothing told but structural if its
      type has changed; otherwise its changes, prompt-only exactly if nothing
      but the prompt reference differs. */
  ghost predicate TellsEntry(b: Stage, p: Stage, m: StageDiff) {
    if !SameKindOfStage(b, p) then NothingChanged(m.changes) && m.category == Structural
    else
      && TellsChanges(b, p, m.changes) && (!NothingChanged(m.changes) || RoutesDiffer(b, p))
      && m.category == if OnlyPrompt(m.changes) && !RoutesDiffer(b, p) then PromptOnly else Structural
  }

  lemma EntryTells(b: Stage, p: Stage)
    requires StageEntry(b, p).Some?
    ensures StageEntry(b, p).value.stageName == b.name && TellsEntry(b, p, StageEntry(b, p).value)
  {
    PortsMeaning(b.inputs, p.inputs);
    PortsMeaning(b.outputs, p.outputs);
  }

  lemma {:induction false} ModifiedMembers(keys: seq<string>, b: map<string, Stage>, p: map<string, Stage>, m: StageDiff)
    requires forall n :: n in b ==> b[n].name == n
    ensures m in Modified(keys, b, p) <==>
              m.stageName in keys && m.stageName in b && m.stageName in p
              && StageEntry(b[m.stageName], p[m.stageName]) == Some(m)
  {
    if keys != [] {
      ModifiedMembers(keys[..|keys| - 1], b, p, m);
      assert keys == keys[..|keys| - 1] + [keys[|keys| - 1]];
    }
  }

  lemma TableIsLast(stages: seq<Stage>, n: string)
    requires n in StageTable(stages)
    ensures LastStage(stages, n, StageTable(stages)[n])
  {
    StageLookup(stages, n, StageTable(stages)[n]);
  }

  /** Each modified entry is about a stage of both pipelines and tells what was
      before, in base, and after, in proposed. */
  lemma EntriesMeaning(base: Pipeline, proposed: Pipeline, m: StageDiff) returns (b: Stage, p: Stage)
    requires m in DiffOf(base, proposed).modified
    ensures LastStage(base.stages, m.stageName, b) && LastStage(proposed.stages, m.stageName, p) && TellsEntry(b, p, m)
  {
    ModifiedMembers(StageKeys(base.stages), StageTable(base.stages), StageTable(proposed.stages), m);
    b, p := StageTable(base.stages)[m.stageName], StageTable(proposed.stages)[m.stageName];
    TableIsLast(base.stages, m.stageName);
    TableIsLast(proposed.stages, m.stageName);
    EntryTells(b, p);
  }

  lemma {:induction false} RoutingMembers(keys: seq<string>, b: map<string, Stage>, p: map<string, Stage>, c: RoutingChange)
    ensures c in RoutingChanges(keys, b, p) <==>
              c.stageName in keys && c.stageName in b && c.stageName in p
              && RoutesDiffer(b[c.stageName], p[c.stageName])
              && c.before == b[c.stageName].kind.routes && c.after == p[c.stageName].kind.routes
  {
    if keys != [] {
      RoutingMembers(keys[..|keys| - 1], b, p, c);
      assert keys == keys[..|keys| - 1] + [keys[|keys| - 1]];
    }
  }

  /** Routing changes are those of gates of both pipelines whose tables differ,
      the base table before and the proposed one after. */
  lemma RoutingChangesMeaning(base: Pipeline, proposed: Pipeline, c: RoutingChange)
    ensures c in DiffOf(base, proposed).routing <==>
              exists b, p :: LastStage(base.stages, c.stageName, b) && LastStage(proposed.stages, c.stageName, p)
                             && RoutesDiffer(b, p) && c.before == b.kind.routes && c.after == p.kind.routes
  {
    var n, tb, tp := c.stageName, StageTable(base.stages), StageTable(proposed.stages);
    StageTableKeys(base.stages);
    RoutingMembers(StageKeys(base.stages), tb, tp, c);
    if n in tb { TableIsLast(base.stages, n); }
    if n in tp { TableIsLast(proposed.stages, n); }
    forall b | LastStage(base.stages, n, b) ensures n in tb && tb[n] == b { StageLookup(base.stages, n, b); }
    forall p | LastStage(proposed.stages, n, p) ensures n in tp && tp[n] == p { StageLookup(proposed.stages, n, p); }
  }

  // ----- verdicts -----

  lemma {:induction false} StructuralStagesMembers(stages: seq<StageDiff>, r: Reason)
    ensures r in StructuralStages(stages) <==>
              r.ChangesStage? && exists m :: m in stages && m.category == Structural && m.stageName == r.stage
  {
    if stages != [] {
      StructuralStagesMembers(stages[..|stages| - 1], r);
      assert stages == stages[..|stages| - 1] + [stages[|stages| - 1]];
    }
  }

  lemma {:induction false} DriftMembers(drift: seq<string>, r: Reason)
    ensures r in DriftReasons(drift) <==> r.Drifts? && r.stage in drift
  {
    if drift != [] {
      DriftMembers(drift[..|drift| - 1], r);
      assert drift == drift[..|drift| - 1] + [drift[|drift| - 1]];
    }
  }

  lemma {:induction false} TaskMembers(tasks: seq<TaskImpact>, r: Reason)
    ensures r in TaskReasons(tasks) <==>
              r.NotResumable? && exists t :: t in tasks && !t.resumable && t.taskId == r.task
  {
    if tasks != [] {
      TaskMembers(tasks[..|tasks| - 1], r);
      assert tasks == tasks[..|tasks| - 1] + [tasks[|tasks| - 1]];
    }
  }

  /** What a reason says of a structural diff is so. */
  predicate HoldsOfDiff(d: PipelineDiff, r: Reason) {
    match r
    case AddsStages(n) => n == |d.added| > 0
    case RemovesStages(n) => n == |d.removed| > 0
    case ChangesWires(a, x) => a == |d.wiresAdded| && x == |d.wiresRemoved| && a + x > 0
    case ChangesRouting(n) => n == |d.routing| > 0
    case ChangesStage(s) => exists m :: m in d.modified && m.category == Structural && m.stageName == s
    case _ => false
  }

  /** What a reason says of the impact is so. */
  predicate HoldsOfImpact(impact: Impact, r: Reason) {
    match r
    case Drifts(s) => s in impact.drift
    case NotResumable(t) => exists x :: x in impact.activeTasks && !x.resumable && x.taskId == t
    case _ => false
  }

  lemma StructuralReasonsMembers(d: PipelineDiff, r: Reason)
    ensures r in StructuralReasons(d) <==> HoldsOfDiff(d, r)
  {
    StructuralStagesMembers(d.modified, r);
    var adds, removes := If(d.added != [], AddsStages(|d.added|)), If(d.removed != [], RemovesStages(|d.removed|));
    var wires := If(d.wiresAdded != [] || d.wiresRemoved != [], ChangesWires(|d.wiresAdded|, |d.wiresRemoved|));
    var routing := If(d.routing != [], ChangesRouting(|d.routing|));
    assert r in adds <==> r == AddsStages(|d.added|) && d.added != [];
    assert r in removes <==> r == RemovesStages(|d.removed|) && d.removed != [];
    assert r in wires <==> r == ChangesWires(|d.wiresAdded|, |d.wiresRemoved|) && (d.wiresAdded != [] || d.wiresRemoved != []);
    assert r in routing <==> r == ChangesRouting(|d.routing|) && d.routing != [];
    assert r in StructuralReasons(d)
      <==> r in adds || r in removes || r in wires || r in routing || r in StructuralStages(d.modified);
  }

  /** The reasons of a verdict are exactly those that hold, of the diff if it is
      structural and of the impact if it has any category, and it is safe
      exactly if there is none. */
  lemma ReasonsMeaning(d: PipelineDiff, impact: Impact, r: Reason)
    ensures VerdictOf(d, impact).safe <==> VerdictOf(d, impact).reasons == []
    ensures r in VerdictOf(d, impact).reasons <==>
              (Structural in d.categories && HoldsOfDiff(d, r)) || (d.categories != [] && HoldsOfImpact(impact, r))
  {
    StructuralReasonsMembers(d, r);
    DriftMembers(impact.drift, r);
    TaskMembers(impact.activeTasks, r);
    var mine := if Structural in d.categories then StructuralReasons(d) else [];
    assert d.categories != [] ==>
        (r in VerdictOf(d, impact).reasons <==> r in mine || r in DriftReasons(impact.drift) || r in TaskReasons(impact.activeTasks));
  }

  /** The verdict's category: none for an empty diff, structural if the diff is,
      and otherwise the diff's first. */
  lemma CategoryMeaning(d: PipelineDiff, impact: Impact)
    ensures d.categories == [] ==> VerdictOf(d, impact).category == Empty
    ensures Structural in d.categories ==> VerdictOf(d, impact).category == Of(Structural)
    ensures d.categories != [] && Structural !in d.categories ==> VerdictOf(d, impact).category == Of(d.categories[0])
  {
  }
}
