/** A pipeline that repair changes twice: the first time two outputs of a fanout
    stage are bundled into a new one, the second time a wire that had found no
    output to read is given the new one. */
module RepairExample {
  import opened Text
  import opened Ir
  import opened Tables
  import opened Repair
  import opened RepairTheory
  import opened RepairFixpoint

  const LIST := "{}[]"
  const A := Port("a", "s", false)
  const B := Port("b", "s", false)
  const ITEMS := Port("items", "{ a: s; b: s }", false)
  const SPLIT := Stage("split", [], [A, B], Agent("p"), true)
  const BUNDLED := Stage("split", [], [A, B, ITEMS], Agent("p"), true)
  const TAKE := Stage("take", [Port("items", LIST, false)], [], Agent("p"), false)
  const KEEP := Stage("keep", [Port("list", LIST, false)], [], Agent("p"), false)
  const TAKEN := Endpoint("take", "items")
  const KEPT := Endpoint("keep", "list")

  function Of(port: string, to: Endpoint): Wire {
    Wire(FromStage("split", port), to, None)
  }

  const ASKED := Pipeline([SPLIT, TAKE, KEEP], [Of("a", TAKEN), Of("b", TAKEN), Of("z", KEPT)], [])
  const ONCE := Pipeline([BUNDLED, TAKE, KEEP], [Of("z", KEPT), Of("items", TAKEN)], [])
  const TWICE := Pipeline([BUNDLED, TAKE, KEEP], [Of("items", KEPT), Of("items", TAKEN)], [])

  // ----- types -----

  lemma CompactPush(t: string, c: char)
    requires !IsSpace(c)
    ensures Compact(t + [c]) == Compact(t) + [c]
  {
    assert (t + [c])[..|t|] == t;
  }

  lemma ListIsObjectArray()
    ensures IsObjectArray(LIST)
  {
    CompactPush("", '{');
    CompactPush("{", '}');
    CompactPush("{}", '[');
    CompactPush("{}[", ']');
    assert LIST == "{}[" + [']'] && "{}[" == "{}" + ['['] && "{}" == "{" + ['}'] && "{" == "" + ['{'];
    assert Compact(LIST) == LIST;
    assert LIST[1..] == "}[]";
  }

  lemma {:induction false} CompactStarts(t: string)
    requires t != "" && !IsSpace(t[0])
    ensures Compact(t) != "" && Compact(t)[0] == t[0]
  {
    if |t| > 1 { CompactStarts(t[..|t| - 1]); }
  }

  lemma OutputTypes()
    ensures !IsObjectType(A.typ) && !IsObjectType(B.typ) && IsObjectType(ITEMS.typ)
  {
    CompactStarts("s");
    CompactStarts(ITEMS.typ);
  }

  // ----- passes with nothing to do -----

  function Over(s: Stage, wires: seq<Wire>): Pipeline {
    Pipeline([s, TAKE, KEEP], wires, [])
  }

  predicate Shaped(s: Stage, wires: seq<Wire>) {
    s.name == "split" && s.fanout
    && forall w :: w in wires ==> w.from.FromStage? && w.from.stage == "split" && (w.to == TAKEN || w.to == KEPT)
  }

  lemma TableIs(s: Stage)
    requires s.name == "split"
    ensures StageTable([s, TAKE, KEEP]) == map["split" := s, "take" := TAKE, "keep" := KEEP]
  {
    Prefixes(s, TAKE, KEEP);
    assert StageTable([s]) == map["split" := s];
    assert StageTable([s, TAKE]) == map["split" := s, "take" := TAKE];
  }

  lemma Targets(s: Stage, w: Wire)
    requires s.name == "split" && (w.to == TAKEN || w.to == KEPT)
    ensures var table := StageTable([s, TAKE, KEEP]); Lands(table, w) && TargetType(table, w) == LIST
  {
    TableIs(s);
    assert PortNames(TAKE.inputs) == ["items"] && PortNames(KEEP.inputs) == ["list"];
    assert PortNames(TAKE.inputs)[0] == "items" && PortNames(KEEP.inputs)[0] == "list";
    assert FindPort(TAKE.inputs, "items") == Some(TAKE.inputs[0]);
    assert FindPort(KEEP.inputs, "list") == Some(KEEP.inputs[0]);
  }

  lemma OnlyShape(s: Stage, wires: seq<Wire>)
    requires Shaped(s, wires)
    ensures NamesRepaired(Over(s, wires)) == Ok(Repaired(Over(s, wires), []))
    ensures InputsBackfilled(Over(s, wires)) == Repaired(Over(s, wires), [])
    ensures ExternalsBackfilled(Over(s, wires)) == Repaired(Over(s, wires), [])
  {
    var table := StageTable([s, TAKE, KEEP]);
    TableIs(s);
    var empty: seq<Fix> := [];
    forall w | w in wires ensures Lands(table, w) && Unfixed(FixNames(table, w), w) {
      Targets(s, w);
      assert empty + empty == empty;
    }
    RewriteNothing(wires, w => FixNames(table, w));
    NothingToAdd(table, wires);
    NothingAdded([s, TAKE, KEEP]);
    NoExternalToAdd(table, [], wires);
  }

  /** For these pipelines only the shape pass counts. */
  lemma RepairIsShape(s: Stage, wires: seq<Wire>, t: Stage, after: seq<Wire>, fixes: seq<Fix>)
    requires Shaped(s, wires) && Shaped(t, after) && Distinct(wires)
    requires ShapeRepaired(Over(s, wires)) == Ok(Repaired(Over(t, after), fixes))
    ensures RepairOf(Over(s, wires)) == Ok(Repaired(Over(t, after), fixes))
  {
    var none: seq<Fix> := [];
    OnlyShape(s, wires);
    OnlyShape(t, after);
    DedupeMeaning(wires);
    assert Deduped(Over(s, wires)) == Repaired(Over(s, wires), none);
    assert none + none + none + fixes + none == fixes;
  }

  // ----- the first repair -----

  lemma FirstRewrite()
    ensures RewriteAll(ASKED.wires, w => FixShape(StageTable(ASKED.stages), w)) == Ok((ASKED.wires, []))
  {
    var table := StageTable(ASKED.stages);
    TableIs(SPLIT);
    ListIsObjectArray();
    OutputTypes();
    assert PortNames(SPLIT.outputs) == ["a", "b"];
    NoObjects(SPLIT.outputs);
    assert ["a", "b"][0] == "a" && ["a", "b"][1] == "b";
    forall w | w in ASKED.wires ensures Unfixed(FixShape(table, w), w) { Targets(SPLIT, w); }
    RewriteNothing(ASKED.wires, w => FixShape(table, w));
  }

  const BOTH := GroupKey("split", TAKEN)
  const SINGLE := GroupKey("split", KEPT)

  lemma GroupPush(table: Table, init: seq<Wire>, last: Wire, key: GroupKey)
    ensures Group(table, init + [last], key)
            == if InGroup(table, last, key) then Group(table, init, key) + [last] else Group(table, init, key)
  {
    assert (init + [last])[..|init|] == init;
  }

  lemma KeysPush(table: Table, init: seq<Wire>, last: Wire)
    requires Grouped(table, last)
    ensures var keys := GroupKeys(table, init);
      GroupKeys(table, init + [last]) == if KeyOf(last) in keys then keys else keys + [KeyOf(last)]
  {
    assert (init + [last])[..|init|] == init;
  }

  lemma FirstKeys()
    ensures GroupKeys(StageTable(ASKED.stages), ASKED.wires) == [BOTH, SINGLE]
  {
    var table := StageTable(ASKED.stages);
    var a, b, z := Of("a", TAKEN), Of("b", TAKEN), Of("z", KEPT);
    TableIs(SPLIT);
    KeysPush(table, [], a);
    KeysPush(table, [a], b);
    KeysPush(table, [a, b], z);
    assert [] + [a] == [a] && [a] + [b] == [a, b] && [a, b] + [z] == ASKED.wires;
  }

  lemma FirstGroups()
    ensures var table := StageTable(ASKED.stages);
      && Group(table, ASKED.wires, BOTH) == [Of("a", TAKEN), Of("b", TAKEN)]
      && Group(table, ASKED.wires, SINGLE) == [Of("z", KEPT)]
  {
    var table := StageTable(ASKED.stages);
    var a, b, z := Of("a", TAKEN), Of("b", TAKEN), Of("z", KEPT);
    TableIs(SPLIT);
    assert [] + [a] == [a] && [a] + [b] == [a, b] && [a, b] + [z] == ASKED.wires;
    forall key ensures Group(table, ASKED.wires, key)
      == if key == BOTH then [a, b] else if key == SINGLE then [z] else []
    {
      GroupPush(table, [], a, key);
      GroupPush(table, [a], b, key);
      GroupPush(table, [a, b], z, key);
      assert [] + [z] == [z];
    }
  }

  lemma Prefixes<T>(a: T, b: T, c: T)
    ensures var s := [a, b, c]; s[..|s| - 1] == [a, b]
    ensures var s := [a, b]; s[..|s| - 1] == [a]
    ensures var s := [a]; s[..|s| - 1] == []
  {
  }

  lemma TwoFieldsBundled()
    ensures Fields(SPLIT.outputs, [Of("a", TAKEN), Of("b", TAKEN)]) == [A, B]
    ensures "{ " + FieldList([A, B]) + " }" == ITEMS.typ
  {
    var a, b := Of("a", TAKEN), Of("b", TAKEN);
    Prefixes(a, b, a);
    OutputsFound();
    assert PortNames([]) == [] && PortNames([A]) == ["a"];
    assert Fields(SPLIT.outputs, []) == [];
    assert Fields(SPLIT.outputs, [a]) == [A];
    FieldText();
  }

  lemma FieldText()
    ensures "{ " + FieldList([A, B]) + " }" == ITEMS.typ
  {
    Prefixes(A, B, A);
    assert FieldList([A]) == "a: s";
    assert FieldList([A, B]) == "a: s; b: s";
  }

  lemma OutputsFound()
    ensures FindPort(SPLIT.outputs, "a") == Some(A) && FindPort(SPLIT.outputs, "b") == Some(B)
  {
    assert SPLIT.outputs[0] == A && SPLIT.outputs[1..] == [B];
    assert FindPort([B], "b") == Some(B);
  }

  lemma FirstBundle()
    ensures BundlePort(StageTable(ASKED.stages), [Of("a", TAKEN), Of("b", TAKEN)], BOTH) == Ok(Some(ITEMS))
  {
    TableIs(SPLIT);
    Targets(SPLIT, Of("a", TAKEN));
    ListIsObjectArray();
    TwoFieldsBundled();
    assert PortNames(SPLIT.outputs) == ["a", "b"];
  }

  const BUNDLING := Bundling([BUNDLED, TAKE, KEEP], {Of("a", TAKEN), Of("b", TAKEN)}, [Of("items", TAKEN)],
                             [BundledOutputs("split", "items", 2)])

  lemma BundledOnce()
    ensures Bundle(Bundling(ASKED.stages, {}, [], []), [Of("a", TAKEN), Of("b", TAKEN)], BOTH, ITEMS) == BUNDLING
  {
    var a, b := Of("a", TAKEN), Of("b", TAKEN);
    OutputAdded();
    assert (set w | w in [a, b]) == {a, b};
  }

  lemma FirstBundling()
    ensures BundleAll(StageTable(ASKED.stages), ASKED.stages, ASKED.wires, [BOTH, SINGLE]) == Ok(BUNDLING)
  {
    var table, stages, wires := StageTable(ASKED.stages), ASKED.stages, ASKED.wires;
    FirstGroups();
    FirstBundle();
    BundledOnce();
    Prefixes(BOTH, SINGLE, SINGLE);
    assert BundleAll(table, stages, wires, []) == Ok(Bundling(stages, {}, [], []));
    assert BundleAll(table, stages, wires, [BOTH]) == Ok(BUNDLING);
  }

  lemma FirstShape()
    ensures ShapeRepaired(ASKED) == Ok(Repaired(ONCE, [BundledOutputs("split", "items", 2)]))
  {
    FirstRewrite();
    FirstKeys();
    FirstBundling();
    FirstLeft();
    var none: seq<Fix> := [];
    assert none + BUNDLING.fixes == BUNDLING.fixes;
    assert [Of("z", KEPT)] + BUNDLING.added == ONCE.wires;
  }

  lemma OutputAdded()
    ensures WithOutput(ASKED.stages, "split", ITEMS) == ONCE.stages
  {
    var after := WithOutput(ASKED.stages, "split", ITEMS);
    assert [A, B] + [ITEMS] == [A, B, ITEMS];
    assert after[0] == BUNDLED && after[1] == TAKE && after[2] == KEEP;
  }

  lemma FirstLeft()
    ensures Without(ASKED.wires, {Of("a", TAKEN), Of("b", TAKEN)}) == [Of("z", KEPT)]
  {
    var a, b, z := Of("a", TAKEN), Of("b", TAKEN), Of("z", KEPT);
    var gone := {a, b};
    Prefixes(a, b, z);
    assert Without([], gone) == [] && Without([a], gone) == [] && Without([a, b], gone) == [];
  }

  // ----- the second repair -----

  lemma SecondRewrite()
    ensures RewriteAll(ONCE.wires, w => FixShape(StageTable(ONCE.stages), w))
            == Ok((TWICE.wires, [RewiredSource("split", "z", "items")]))
  {
    var table := StageTable(ONCE.stages);
    var fix := w => FixShape(table, w);
    var z, i := Of("z", KEPT), Of("items", TAKEN);
    TableIs(BUNDLED);
    Targets(BUNDLED, z);
    ListIsObjectArray();
    OutputTypes();
    assert PortNames(BUNDLED.outputs) == ["a", "b", "items"];
    assert ["a", "b", "items"][2] == "items";
    Prefixes(A, B, ITEMS);
    assert ObjectOutputs([]) == [] && ObjectOutputs([A]) == [] && ObjectOutputs([A, B]) == [];
    assert ObjectOutputs(BUNDLED.outputs) == [ITEMS];
    assert fix(z) == Ok(Rewrite(Of("items", KEPT), [RewiredSource("split", "z", "items")]));
    assert Unfixed(fix(i), i);
    var rewired := Rewrite(Of("items", KEPT), [RewiredSource("split", "z", "items")]);
    var empty: seq<Fix> := [];
    assert RewriteAll([], fix) == Ok(([], empty));
    RewriteOne([], z, fix, [], empty, rewired);
    assert empty + rewired.fixes == rewired.fixes && [] + [rewired.wire] == [rewired.wire] && [] + [z] == [z];
    RewriteOne([z], i, fix, [rewired.wire], rewired.fixes, Rewrite(i, empty));
    assert rewired.fixes + empty == rewired.fixes && [rewired.wire] + [i] == TWICE.wires && [z] + [i] == ONCE.wires;
  }

  lemma RewriteOne(init: seq<Wire>, last: Wire, fix: Wire -> Result<Rewrite>, wires: seq<Wire>, fixes: seq<Fix>, r: Rewrite)
    requires RewriteAll(init, fix) == Ok((wires, fixes)) && fix(last) == Ok(r)
    ensures RewriteAll(init + [last], fix) == Ok((wires + [r.wire], fixes + r.fixes))
  {
    assert (init + [last])[..|init|] == init;
  }

  lemma SecondShape()
    ensures ShapeRepaired(ONCE) == Ok(Repaired(TWICE, [RewiredSource("split", "z", "items")]))
  {
    var table := StageTable(ONCE.stages);
    SecondRewrite();
    forall key ensures |Group(table, TWICE.wires, key)| <= 1 { LonelyGroup(table, TWICE.wires, key); }
    NothingToBundle(table, ONCE.stages, TWICE.wires, GroupKeys(table, TWICE.wires));
    WithoutNothing(TWICE.wires);
    assert TWICE.wires + [] == TWICE.wires;
    var empty, fixes: seq<Fix> := [], [RewiredSource("split", "z", "items")];
    assert fixes + empty == fixes;
  }

  lemma FirstRepair()
    ensures RepairOf(ASKED) == Ok(Repaired(ONCE, [BundledOutputs("split", "items", 2)]))
  {
    FirstShape();
    assert ASKED == Over(SPLIT, ASKED.wires) && ONCE == Over(BUNDLED, ONCE.wires);
    RepairIsShape(SPLIT, ASKED.wires, BUNDLED, ONCE.wires, [BundledOutputs("split", "items", 2)]);
  }

  lemma SecondRepair()
    ensures RepairOf(ONCE) == Ok(Repaired(TWICE, [RewiredSource("split", "z", "items")]))
  {
    SecondShape();
    assert ONCE == Over(BUNDLED, ONCE.wires) && TWICE == Over(BUNDLED, TWICE.wires);
    RepairIsShape(BUNDLED, ONCE.wires, BUNDLED, TWICE.wires, [RewiredSource("split", "z", "items")]);
  }

  /** The first repair bundles, the second rewires what the first left dangling. */
  lemma SecondRepairMayRewire()
    ensures RepairOf(ASKED) == Ok(Repaired(ONCE, [BundledOutputs("split", "items", 2)]))
    ensures RepairOf(ONCE) == Ok(Repaired(TWICE, [RewiredSource("split", "z", "items")]))
    ensures TWICE != ONCE && !Settled(ONCE)
  {
    FirstRepair();
    SecondRepair();
    LeftAloneIff(ONCE);
    assert TWICE.wires[0] != ONCE.wires[0];
  }
}
