/** The safe-range verdict, and what a diff and a verdict say about the two
    pipelines. */
module SafeRange {
  import opened Ir
  import opened Diff
  import opened Tables

  datatype TaskImpact = TaskImpact(taskId: string, resumable: bool)

  /** Drift issues are given by the stage each concerns. */
  datatype Impact = Impact(activeTasks: seq<TaskImpact>, drift: seq<string>)

  datatype Reason =
    | AddsStages(count: nat)
    | RemovesStages(count: nat)
    | ChangesWires(added: nat, removed: nat)
    | ChangesRouting(count: nat)
    | ChangesStage(stage: string)
    | Drifts(stage: string)
    | NotResumable(task: string)

  datatype VerdictCategory = Empty | Of(category: Category)

  datatype Verdict = Verdict(safe: bool, category: VerdictCategory, reasons: seq<Reason>)

  function StructuralStages(stages: seq<StageDiff>): seq<Reason> {
    if stages == [] then []
    else
      var rest, m := StructuralStages(stages[..|stages| - 1]), stages[|stages| - 1];
      if m.category == Structural then rest + [ChangesStage(m.stageName)] else rest
  }

  function DriftReasons(drift: seq<string>): seq<Reason> {
    if drift == [] then [] else DriftReasons(drift[..|drift| - 1]) + [Drifts(drift[|drift| - 1])]
  }

  function TaskReasons(tasks: seq<TaskImpact>): seq<Reason> {
    if tasks == [] then []
    else
      var rest, t := TaskReasons(tasks[..|tasks| - 1]), tasks[|tasks| - 1];
      if t.resumable then rest else rest + [NotResumable(t.taskId)]
  }

  function If(condition: bool, r: Reason): seq<Reason> {
    if condition then [r] else []
  }

  function StructuralReasons(d: PipelineDiff): seq<Reason> {
    If(d.added != [], AddsStages(|d.added|))
    + If(d.removed != [], RemovesStages(|d.removed|))
    + If(d.wiresAdded != [] || d.wiresRemoved != [], ChangesWires(|d.wiresAdded|, |d.wiresRemoved|))
    + If(d.routing != [], ChangesRouting(|d.routing|))
    + StructuralStages(d.modified)
  }

  function VerdictOf(d: PipelineDiff, impact: Impact): Verdict {
    if d.categories == [] then Verdict(true, Empty, [])
    else
      var reasons := (if Structural in d.categories then StructuralReasons(d) else [])
                     + (DriftReasons(impact.drift) + TaskReasons(impact.activeTasks));
      var category := if d.categories == [PromptOnly] then PromptOnly
                      else if Structural in d.categories then Structural
                      else d.categories[0];
      Verdict(reasons == [], Of(category), reasons)
  }

  method PushStructural(stages: seq<StageDiff>) returns (reasons: seq<Reason>)
    ensures reasons == StructuralStages(stages)
  {
    reasons := [];
    for k := 0 to |stages|
      invariant reasons == StructuralStages(stages[..k])
    {
      assert stages[..k + 1][..k] == stages[..k];
      if stages[k].category == Structural { reasons := reasons + [ChangesStage(stages[k].stageName)]; }
    }
    assert stages[..|stages|] == stages;
  }

  method PushImpact(impact: Impact) returns (reasons: seq<Reason>)
    ensures reasons == DriftReasons(impact.drift) + TaskReasons(impact.activeTasks)
  {
    reasons := [];
    for k := 0 to |impact.drift|
      invariant reasons == DriftReasons(impact.drift[..k])
    {
      assert impact.drift[..k + 1][..k] == impact.drift[..k];
      reasons := reasons + [Drifts(impact.drift[k])];
    }
    assert impact.drift[..|impact.drift|] == impact.drift;
    for k := 0 to |impact.activeTasks|
      invariant reasons == DriftReasons(impact.drift) + TaskReasons(impact.activeTasks[..k])
    {
      assert impact.activeTasks[..k + 1][..k] == impact.activeTasks[..k];
      if !impact.activeTasks[k].resumable { reasons := reasons + [NotResumable(impact.activeTasks[k].taskId)]; }
    }
    assert impact.activeTasks[..|impact.activeTasks|] == impact.activeTasks;
  }

  method PushWhen(reasons: seq<Reason>, condition: bool, r: Reason) returns (more: seq<Reason>)
    ensures more == reasons + If(condition, r)
  {
    more := if condition then reasons + [r] else reasons;
  }

  method ClassifySafeRange(d: PipelineDiff, impact: Impact) returns (v: Verdict)
    ensures v == VerdictOf(d, impact)
  {
    if d.categories == [] { return Verdict(true, Empty, []); }
    var reasons: seq<Reason> := [];
    var hasStructural := Structural in d.categories;
    if hasStructural {
      reasons := PushWhen(reasons, d.added != [], AddsStages(|d.added|));
      reasons := PushWhen(reasons, d.removed != [], RemovesStages(|d.removed|));
      reasons := PushWhen(reasons, d.wiresAdded != [] || d.wiresRemoved != [], ChangesWires(|d.wiresAdded|, |d.wiresRemoved|));
      reasons := PushWhen(reasons, d.routing != [], ChangesRouting(|d.routing|));
      var more := PushStructural(d.modified);
      reasons := reasons + more;
      assert reasons == StructuralReasons(d);
    }
    var more := PushImpact(impact);
    reasons := reasons + more;
    var category :=
      if d.categories == [PromptOnly] then PromptOnly
      else if hasStructural then Structural
      else d.categories[0];
    v := Verdict(reasons == [], Of(category), reasons);
  }

  // ----- when the parts of a diff are empty -----

  /** Port names with their types. */
  function PortTypes(ports: seq<Port>): map<string, string> {
    map n | n in PortTable(ports) :: PortTable(ports)[n].typ
  }

  lemma {:induction false} NoPortMissing(keys: seq<string>, own: map<string, Port>, other: map<string, Port>)
    requires forall n :: n in keys ==> n in own
    ensures PortsMissing(keys, own, other) == [] <==> forall n :: n in keys ==> n in other
  {
    if keys != [] {
      var init := keys[..|keys| - 1];
      assert keys == init + [keys[|keys| - 1]];
      NoPortMissing(init, own, other);
    }
  }

  lemma {:induction false} NoneRetyped(keys: seq<string>, own: map<string, Port>, other: map<string, Port>)
    requires forall n :: n in keys ==> n in own
    ensures Retyped(keys, own, other) == [] <==> forall n :: n in keys && n in other ==> other[n].typ == own[n].typ
  {
    if keys != [] {
      var init := keys[..|keys| - 1];
      assert keys == init + [keys[|keys| - 1]];
      NoneRetyped(init, own, other);
    }
  }

  /** Two tables give the same types iff neither lacks a name of the other and
      no shared name changed its type. */
  lemma SameTypes(b: map<string, Port>, p: map<string, Port>)
    ensures (map n | n in b :: b[n].typ) == (map n | n in p :: p[n].typ) <==>
              (forall n :: n in b <==> n in p) && (forall n :: n in b && n in p ==> b[n].typ == p[n].typ)
  {
    var x, y := map n | n in b :: b[n].typ, map n | n in p :: p[n].typ;
    assert x.Keys == b.Keys && y.Keys == p.Keys;
    if x == y {
      forall n ensures n in b <==> n in p { assert n in x.Keys <==> n in y.Keys; }
      forall n | n in b && n in p ensures b[n].typ == p[n].typ { assert x[n] == y[n]; }
    }
  }

  lemma NoPortsDiff(base: seq<Port>, proposed: seq<Port>)
    ensures PortsDiffOf(base, proposed) == None <==> PortTypes(base) == PortTypes(proposed)
  {
    var b, p := PortTable(base), PortTable(proposed);
    PortTableKeys(base);
    PortTableKeys(proposed);
    NoPortMissing(PortKeys(proposed), p, b);
    NoPortMissing(PortKeys(base), b, p);
    NoneRetyped(PortKeys(proposed), p, b);
    SameTypes(b, p);
  }

  lemma {:induction false} NoStageMissing(keys: seq<string>, own: map<string, Stage>, other: map<string, Stage>)
    requires forall n :: n in keys ==> n in own
    ensures StagesMissing(keys, own, other) == [] <==> forall n :: n in keys ==> n in other
  {
    if keys != [] {
      var init := keys[..|keys| - 1];
      assert keys == init + [keys[|keys| - 1]];
      NoStageMissing(init, own, other);
    }
  }

  lemma {:induction false} ModifiedEntries(keys: seq<string>, b: map<string, Stage>, p: map<string, Stage>, m: StageDiff)
    requires forall n :: n in keys ==> n in b
    ensures m in Modified(keys, b, p) <==> exists n :: n in keys && n in p && StageEntry(b[n], p[n]) == Some(m)
  {
    if keys != [] {
      var init := keys[..|keys| - 1];
      assert keys == init + [keys[|keys| - 1]];
      ModifiedEntries(init, b, p, m);
    }
  }

  lemma {:induction false} WhichCategories(cs: seq<Category>, stages: seq<StageDiff>, c: Category)
    ensures c in Categories(cs, stages) <==> c in cs || exists m :: m in stages && m.category == c
  {
    if stages != [] {
      var init := stages[..|stages| - 1];
      assert stages == init + [stages[|stages| - 1]];
      WhichCategories(cs, init, c);
    }
  }

  lemma {:induction false} NoWireMissing(wires: seq<Wire>, keys: set<WireKey>)
    ensures WiresMissing(wires, keys) == [] <==> WireKeys(wires) <= keys
  {
    if wires != [] {
      var init, last := wires[..|wires| - 1], wires[|wires| - 1];
      assert wires == init + [last];
      NoWireMissing(init, keys);
      assert WireKeys(wires) == WireKeys(init) + {KeyOfWire(last)};
    }
  }

  // ----- what the diff compares -----

  /** Same type, port types, gate question and routing, and script module. */
  predicate SameStage(x: Stage, y: Stage) {
    && SameType(x, y)
    && PortTypes(x.inputs) == PortTypes(y.inputs) && PortTypes(x.outputs) == PortTypes(y.outputs)
    && (x.kind.Script? ==> x.kind.code == y.kind.code)
    && (x.kind.Gate? ==> x.kind.question == y.kind.question && x.kind.routes == y.kind.routes)
  }

  predicate SamePrompt(x: Stage, y: Stage) {
    x.kind.Agent? && y.kind.Agent? ==> x.kind.promptRef == y.kind.promptRef
  }

  /** The pipelines agree on everything the diff compares except prompts. */
  ghost predicate SameShape(base: Pipeline, proposed: Pipeline) {
    var b, p := StageTable(base.stages), StageTable(proposed.stages);
    && SameStageNames(base, proposed)
    && (forall n :: n in b && n in p ==> SameStage(b[n], p[n]))
    && WireKeys(base.wires) == WireKeys(proposed.wires)
  }

  ghost predicate SamePrompts(base: Pipeline, proposed: Pipeline) {
    var b, p := StageTable(base.stages), StageTable(proposed.stages);
    forall n :: n in b && n in p ==> SamePrompt(b[n], p[n])
  }

  /** A stage has no entry iff nothing compared differs, and an entry that is
      not structural iff only its prompt differs. */
  lemma EntryMeaning(x: Stage, y: Stage)
    ensures StageEntry(x, y) == None <==> SameStage(x, y) && SamePrompt(x, y)
    ensures StageEntry(x, y).Some? && StageEntry(x, y).value.category != Structural <==> SameStage(x, y) && !SamePrompt(x, y)
    ensures StageEntry(x, y).Some? && StageEntry(x, y).value.category != Structural ==> StageEntry(x, y).value.category == PromptOnly
  {
    NoPortsDiff(x.inputs, y.inputs);
    NoPortsDiff(x.outputs, y.outputs);
    if SameType(x, y) {
      var c := ChangesOf(x, y);
      assert c == NO_CHANGES <==> c.promptRef == None && c.(promptRef := None) == NO_CHANGES;
      assert c.(promptRef := None) == NO_CHANGES <==> c.code == None && c.question == None && c.inputs == None && c.outputs == None;
    }
  }

  /** Comparing these two stages gives an entry of category `c`. */
  predicate EntryHas(x: Stage, y: Stage, c: Category) {
    StageEntry(x, y).Some? && StageEntry(x, y).value.category == c
  }

  lemma {:induction false} ModifiedCategory(keys: seq<string>, b: map<string, Stage>, p: map<string, Stage>, c: Category)
    requires forall n :: n in keys ==> n in b
    ensures (exists m :: m in Modified(keys, b, p) && m.category == c)
            <==> exists n :: n in keys && n in p && EntryHas(b[n], p[n], c)
  {
    if keys != [] {
      var init, last := keys[..|keys| - 1], keys[|keys| - 1];
      assert keys == init + [last];
      ModifiedCategory(init, b, p, c);
      if last in p && StageEntry(b[last], p[last]).Some? {
        var m := StageEntry(b[last], p[last]).value;
        assert Modified(keys, b, p) == Modified(init, b, p) + [m];
        assert m in Modified(keys, b, p);
      }
    }
  }

  /** The categories found stage by stage, before the wires are looked at. */
  function Presence(d: PipelineDiff): seq<Category> {
    if d.added != [] || d.removed != [] then [Structural] else []
  }

  lemma CategoriesOf(base: Pipeline, proposed: Pipeline, c: Category)
    ensures var d := DiffOf(base, proposed);
      c in d.categories <==>
        || (c == Structural && (d.added != [] || d.removed != [] || d.wiresAdded != [] || d.wiresRemoved != []))
        || exists m :: m in d.modified && m.category == c
  {
    var d := DiffOf(base, proposed);
    WhichCategories(Presence(d), d.modified, c);
  }

  ghost predicate SameStageNames(base: Pipeline, proposed: Pipeline) {
    StageTable(base.stages).Keys == StageTable(proposed.stages).Keys
  }

  lemma SameNames(base: Pipeline, proposed: Pipeline)
    ensures DiffOf(base, proposed).added == [] && DiffOf(base, proposed).removed == [] <==> SameStageNames(base, proposed)
  {
    var b, p := StageTable(base.stages), StageTable(proposed.stages);
    var bKeys, pKeys := StageKeys(base.stages), StageKeys(proposed.stages);
    StageTableKeys(base.stages);
    StageTableKeys(proposed.stages);
    NoStageMissing(pKeys, p, b);
    NoStageMissing(bKeys, b, p);
    assert forall n :: n in p.Keys ==> n in pKeys;
    assert forall n :: n in b.Keys ==> n in bKeys;
  }

  lemma SameWires(base: Pipeline, proposed: Pipeline)
    ensures var d := DiffOf(base, proposed);
      d.wiresAdded == [] && d.wiresRemoved == [] <==> WireKeys(base.wires) == WireKeys(proposed.wires)
  {
    NoWireMissing(proposed.wires, WireKeys(base.wires));
    NoWireMissing(base.wires, WireKeys(proposed.wires));
  }

  lemma StructuralMeaning(base: Pipeline, proposed: Pipeline)
    ensures Structural in DiffOf(base, proposed).categories <==> !SameShape(base, proposed)
  {
    var b, p, keys := StageTable(base.stages), StageTable(proposed.stages), StageKeys(base.stages);
    CategoriesOf(base, proposed, Structural);
    SameNames(base, proposed);
    SameWires(base, proposed);
    StageTableKeys(base.stages);
    ModifiedCategory(keys, b, p, Structural);
    forall n | n in keys && n in p ensures EntryHas(b[n], p[n], Structural) <==> !SameStage(b[n], p[n]) {
      EntryMeaning(b[n], p[n]);
    }
  }

  lemma PromptOnlyMeaning(base: Pipeline, proposed: Pipeline)
    requires SameShape(base, proposed)
    ensures PromptOnly in DiffOf(base, proposed).categories <==> !SamePrompts(base, proposed)
  {
    var b, p, keys := StageTable(base.stages), StageTable(proposed.stages), StageKeys(base.stages);
    CategoriesOf(base, proposed, PromptOnly);
    StageTableKeys(base.stages);
    ModifiedCategory(keys, b, p, PromptOnly);
    forall n | n in keys && n in p ensures EntryHas(b[n], p[n], PromptOnly) <==> !SamePrompt(b[n], p[n]) {
      assert SameStage(b[n], p[n]);
      EntryMeaning(b[n], p[n]);
    }
  }

  /** No other category is ever produced. */
  lemma OnlyTwoCategories(base: Pipeline, proposed: Pipeline, c: Category)
    requires c in DiffOf(base, proposed).categories
    ensures c == Structural || c == PromptOnly
  {
    var b, p := StageTable(base.stages), StageTable(proposed.stages);
    if c != Structural {
      CategoriesOf(base, proposed, c);
      StageTableKeys(base.stages);
      ModifiedCategory(StageKeys(base.stages), b, p, c);
      var n :| n in StageKeys(base.stages) && n in p && EntryHas(b[n], p[n], c);
      EntryMeaning(b[n], p[n]);
    }
  }

  /** The diff is empty iff the pipelines agree on all that is compared. */
  lemma EmptyDiffMeans(base: Pipeline, proposed: Pipeline)
    ensures DiffOf(base, proposed).categories == [] <==> SameShape(base, proposed) && SamePrompts(base, proposed)
  {
    var cs := DiffOf(base, proposed).categories;
    StructuralMeaning(base, proposed);
    if SameShape(base, proposed) { PromptOnlyMeaning(base, proposed); }
    if cs != [] {
      assert cs[0] in cs;
      OnlyTwoCategories(base, proposed, cs[0]);
    }
  }

  // ----- the verdict -----

  predicate AllResumable(tasks: seq<TaskImpact>) {
    forall i :: 0 <= i < |tasks| ==> tasks[i].resumable
  }

  lemma {:induction false} NoTaskReasons(tasks: seq<TaskImpact>)
    ensures TaskReasons(tasks) == [] <==> AllResumable(tasks)
  {
    if tasks != [] { NoTaskReasons(tasks[..|tasks| - 1]); }
  }

  lemma {:induction false} StructuralStageListed(stages: seq<StageDiff>)
    ensures StructuralStages(stages) == [] <==> forall m :: m in stages ==> m.category != Structural
  {
    if stages != [] {
      var init := stages[..|stages| - 1];
      assert stages == init + [stages[|stages| - 1]];
      StructuralStageListed(init);
    }
  }

  /** A structural category never goes without a reason. */
  lemma StructuralHasReason(base: Pipeline, proposed: Pipeline)
    requires Structural in DiffOf(base, proposed).categories
    ensures StructuralReasons(DiffOf(base, proposed)) != []
  {
    CategoriesOf(base, proposed, Structural);
    StructuralStageListed(DiffOf(base, proposed).modified);
  }

  /** A change is safe exactly when nothing but prompts differs and, if some
      prompt does differ, there is no drift and every active task can resume. */
  lemma SafeMeansOnlyPromptsMoved(base: Pipeline, proposed: Pipeline, impact: Impact)
    ensures VerdictOf(DiffOf(base, proposed), impact).safe <==>
              SameShape(base, proposed)
              && (SamePrompts(base, proposed) || (impact.drift == [] && AllResumable(impact.activeTasks)))
  {
    var d := DiffOf(base, proposed);
    EmptyDiffMeans(base, proposed);
    StructuralMeaning(base, proposed);
    NoTaskReasons(impact.activeTasks);
    if Structural in d.categories { StructuralHasReason(base, proposed); }
  }

  // ----- exchanging the two pipelines -----

  predicate IsModified(d: PipelineDiff, name: string) {
    exists m :: m in d.modified && m.stageName == name
  }

  lemma ModifiedMeaning(base: Pipeline, proposed: Pipeline, n: string)
    ensures IsModified(DiffOf(base, proposed), n) <==>
              n in StageTable(base.stages) && n in StageTable(proposed.stages)
              && !(SameStage(StageTable(base.stages)[n], StageTable(proposed.stages)[n])
                   && SamePrompt(StageTable(base.stages)[n], StageTable(proposed.stages)[n]))
  {
    var b, p, keys := StageTable(base.stages), StageTable(proposed.stages), StageKeys(base.stages);
    StageTableKeys(base.stages);
    if m :| m in DiffOf(base, proposed).modified && m.stageName == n {
      ModifiedEntries(keys, b, p, m);
      var k :| k in keys && k in p && StageEntry(b[k], p[k]) == Some(m);
      assert k == n;
      EntryMeaning(b[n], p[n]);
    }
    if n in b && n in p && !(SameStage(b[n], p[n]) && SamePrompt(b[n], p[n])) {
      EntryMeaning(b[n], p[n]);
      var m := StageEntry(b[n], p[n]).value;
      assert n in keys;
      ModifiedEntries(keys, b, p, m);
      assert m.stageName == n;
    }
  }

  /** Exchanging base and proposed exchanges added and removed, stages and
      wires, and keeps which stages are modified. */
  lemma DiffSwaps(base: Pipeline, proposed: Pipeline, n: string)
    ensures var d, e := DiffOf(base, proposed), DiffOf(proposed, base);
      && e.added == d.removed && e.removed == d.added
      && e.wiresAdded == d.wiresRemoved && e.wiresRemoved == d.wiresAdded
      && (IsModified(e, n) <==> IsModified(d, n))
  {
    ModifiedMeaning(base, proposed, n);
    ModifiedMeaning(proposed, base, n);
  }
}
