/** What repair guarantees about its result, and what it leaves alone. */
module RepairTheory {
  import opened Sets
  import opened Ir
  import opened Tables
  import opened Repair

  // ----- stages before and after -----

  /** The same stages in the same order; ports are only appended. */
  ghost predicate Grows(a: seq<Stage>, b: seq<Stage>) {
    |a| == |b| && forall i :: 0 <= i < |a| ==> StageGrows(a[i], b[i])
  }

  predicate StageGrows(a: Stage, b: Stage) {
    a.name == b.name && a.kind == b.kind && a.fanout == b.fanout && a.inputs <= b.inputs && a.outputs <= b.outputs
  }

  lemma GrowsTransitive(a: seq<Stage>, b: seq<Stage>, c: seq<Stage>)
    requires Grows(a, b) && Grows(b, c)
    ensures Grows(a, c)
  {
    forall i | 0 <= i < |a| ensures StageGrows(a[i], c[i]) {
      assert StageGrows(a[i], b[i]) && StageGrows(b[i], c[i]);
    }
  }

  /** Looking a name up after the stages have grown finds the grown stage. */
  lemma {:induction false} TableGrows(a: seq<Stage>, b: seq<Stage>, name: string)
    requires Grows(a, b)
    ensures name in StageTable(a) <==> name in StageTable(b)
    ensures name in StageTable(a) ==> StageGrows(StageTable(a)[name], StageTable(b)[name])
  {
    if a != [] {
      var n := |a| - 1;
      assert StageGrows(a[n], b[n]);
      assert Grows(a[..n], b[..n]) by {
        forall i | 0 <= i < n ensures StageGrows(a[..n][i], b[..n][i]) { assert StageGrows(a[i], b[i]); }
      }
      TableGrows(a[..n], b[..n], name);
    }
  }

  lemma PrefixPortNames(a: seq<Port>, b: seq<Port>, name: string)
    requires a <= b && name in PortNames(a)
    ensures name in PortNames(b)
  {
    var i :| 0 <= i < |a| && PortNames(a)[i] == name;
    assert PortNames(b)[i] == b[i].name == a[i].name;
  }

  // ----- wires and their targets -----

  /** The wire lands on a declared input, if its stage exists. */
  predicate Lands(table: Table, w: Wire) {
    w.to.stage in table ==> w.to.port in PortNames(table[w.to.stage].inputs)
  }

  ghost predicate AllLand(stages: seq<Stage>, wires: seq<Wire>) {
    forall w :: w in wires ==> Lands(StageTable(stages), w)
  }

  lemma LandsAfterGrowth(a: seq<Stage>, b: seq<Stage>, w: Wire)
    requires Grows(a, b) && Lands(StageTable(a), w)
    ensures Lands(StageTable(b), w)
  {
    TableGrows(a, b, w.to.stage);
    if w.to.stage in StageTable(a) {
      PrefixPortNames(StageTable(a)[w.to.stage].inputs, StageTable(b)[w.to.stage].inputs, w.to.port);
    }
  }

  ghost predicate ExternalDeclared(ports: seq<Port>, w: Wire) {
    w.from.External? ==> w.from.port in PortNames(ports)
  }

  ghost predicate AllExternalDeclared(ports: seq<Port>, wires: seq<Wire>) {
    forall w :: w in wires ==> ExternalDeclared(ports, w)
  }

  // ----- pass 1 -----

  lemma {:induction false} DedupeMeaning(wires: seq<Wire>)
    ensures forall w :: w in Dedupe(wires) <==> w in wires
    ensures |Dedupe(wires)| <= |wires| && Distinct(Dedupe(wires))
    ensures Distinct(wires) ==> Dedupe(wires) == wires
  {
    if wires != [] {
      var init, last := wires[..|wires| - 1], wires[|wires| - 1];
      assert wires == init + [last];
      DedupeMeaning(init);
      if Distinct(wires) {
        forall i | 0 <= i < |init| ensures init[i] != last { assert wires[i] != wires[|wires| - 1]; }
      }
    }
  }

  // ----- rewriting passes -----

  /** What every rewriting pass keeps of a wire: its target stage, whether it
      is external, and a target that is declared already. */
  ghost predicate Keeps(table: Table, w: Wire, v: Wire) {
    && v.to.stage == w.to.stage && v.guard == w.guard
    && (v.from.External? <==> w.from.External?) && (w.from.External? ==> v.from == w.from)
    && (w.from.FromStage? ==> v.from.stage == w.from.stage)
    && (Lands(table, w) ==> v.to == w.to)
    && (Lands(table, w) ==> Lands(table, v))
  }

  lemma FixNamesKeeps(table: Table, w: Wire)
    requires FixNames(table, w).Ok?
    ensures Keeps(table, w, FixNames(table, w).value.wire)
  {
  }

  lemma FixShapeKeeps(table: Table, w: Wire)
    requires FixShape(table, w).Ok?
    ensures Keeps(table, w, FixShape(table, w).value.wire) && FixShape(table, w).value.wire.to == w.to
  {
  }

  /** The results of a rewriting pass, wire by wire. */
  lemma {:induction false} RewriteEach(wires: seq<Wire>, fix: Wire -> Result<Rewrite>, k: nat)
    requires RewriteAll(wires, fix).Ok? && k < |wires|
    ensures |RewriteAll(wires, fix).value.0| == |wires|
    ensures fix(wires[k]).Ok? && RewriteAll(wires, fix).value.0[k] == fix(wires[k]).value.wire
  {
    if k < |wires| - 1 {
      RewriteEach(wires[..|wires| - 1], fix, k);
    } else if |wires| > 1 {
      RewriteEach(wires[..|wires| - 1], fix, 0);
    }
  }

  lemma {:induction false} RewriteLength(wires: seq<Wire>, fix: Wire -> Result<Rewrite>)
    requires RewriteAll(wires, fix).Ok?
    ensures |RewriteAll(wires, fix).value.0| == |wires|
  {
    if wires != [] { RewriteEach(wires, fix, 0); }
  }

  /** Where a rewritten wire comes from. */
  lemma RewrittenFrom(wires: seq<Wire>, fix: Wire -> Result<Rewrite>, v: Wire) returns (w: Wire)
    requires RewriteAll(wires, fix).Ok? && v in RewriteAll(wires, fix).value.0
    ensures w in wires && fix(w).Ok? && fix(w).value.wire == v
  {
    RewriteLength(wires, fix);
    var k :| 0 <= k < |wires| && RewriteAll(wires, fix).value.0[k] == v;
    RewriteEach(wires, fix, k);
    w := wires[k];
  }

  /** Wires a pass has nothing to say about go through unchanged. */
  lemma {:induction false} RewriteNothing(wires: seq<Wire>, fix: Wire -> Result<Rewrite>)
    requires forall w :: w in wires ==> fix(w) == Ok(Rewrite(w, []))
    ensures RewriteAll(wires, fix) == Ok((wires, []))
  {
    if wires != [] {
      var init, last := wires[..|wires| - 1], wires[|wires| - 1];
      assert wires == init + [last];
      assert last in wires && forall w :: w in init ==> w in wires;
      RewriteNothing(init, fix);
      assert fix(last) == Ok(Rewrite(last, []));
      var none: seq<Fix> := [];
      assert RewriteAll(init, fix) == Ok((init, none));
      assert none + none == none;
    }
  }

  // ----- pass 3 -----

  lemma WithInputsGrows(stages: seq<Stage>, adds: map<string, seq<Port>>)
    ensures Grows(stages, WithInputs(stages, adds))
  {
  }

  lemma {:induction false} WithInputsTable(stages: seq<Stage>, adds: map<string, seq<Port>>, name: string)
    requires name in StageTable(stages)
    ensures name in StageTable(WithInputs(stages, adds))
    ensures StageTable(WithInputs(stages, adds))[name].inputs == StageTable(stages)[name].inputs + Additions(adds, name)
  {
    var n := |stages| - 1;
    assert WithInputs(stages, adds)[..n] == WithInputs(stages[..n], adds);
    if stages[n].name != name { WithInputsTable(stages[..n], adds, name); }
  }

  lemma PortNamesConcat(a: seq<Port>, b: seq<Port>)
    ensures PortNames(a + b) == PortNames(a) + PortNames(b)
  {
  }

  /** After the pass over `wires`, none of them lacks its input. */
  lemma {:induction false} NothingLacks(table: Table, wires: seq<Wire>, w: Wire)
    requires w in wires && w.to.stage in table
    ensures var adds := MissingInputs(table, wires).0;
            w.to.port in PortNames(table[w.to.stage].inputs) || w.to.port in PortNames(Additions(adds, w.to.stage))
  {
    var init, last := wires[..|wires| - 1], wires[|wires| - 1];
    assert wires == init + [last];
    var before := MissingInputs(table, init).0;
    if w in init { NothingLacks(table, init, w); }
    if LacksInput(table, before, last) {
      var p := Port(last.to.port, InferType(table, last.from), false);
      PortNamesConcat(Additions(before, last.to.stage), [p]);
      assert PortNames([p]) == [last.to.port];
    }
  }

  lemma {:induction false} NothingToAdd(table: Table, wires: seq<Wire>)
    requires forall w :: w in wires ==> Lands(table, w)
    ensures MissingInputs(table, wires) == (map[], [])
  {
    if wires != [] {
      var init, last := wires[..|wires| - 1], wires[|wires| - 1];
      assert wires == init + [last];
      assert last in wires && forall w :: w in init ==> w in wires;
      NothingToAdd(table, init);
    }
  }

  lemma NothingAdded(stages: seq<Stage>)
    ensures WithInputs(stages, map[]) == stages
  {
  }

  lemma BackfillLands(ir: Pipeline)
    ensures var r := InputsBackfilled(ir).ir;
      && AllLand(r.stages, r.wires) && Grows(ir.stages, r.stages)
      && r.wires == ir.wires && r.externalInputs == ir.externalInputs
  {
    var table := StageTable(ir.stages);
    var adds := MissingInputs(table, ir.wires).0;
    var r := InputsBackfilled(ir).ir;
    WithInputsGrows(ir.stages, adds);
    forall w | w in r.wires ensures Lands(StageTable(r.stages), w) {
      TableGrows(ir.stages, r.stages, w.to.stage);
      if w.to.stage in table {
        NothingLacks(table, ir.wires, w);
        WithInputsTable(ir.stages, adds, w.to.stage);
        PortNamesConcat(table[w.to.stage].inputs, Additions(adds, w.to.stage));
      }
    }
  }

  // ----- pass 4 -----

  lemma WithOutputGrows(stages: seq<Stage>, name: string, p: Port)
    ensures Grows(stages, WithOutput(stages, name, p))
    ensures forall i :: 0 <= i < |stages| ==> WithOutput(stages, name, p)[i].inputs == stages[i].inputs
  {
  }

  ghost predicate InputsKept(a: seq<Stage>, b: seq<Stage>) {
    |a| == |b| && forall i :: 0 <= i < |a| ==> a[i].inputs == b[i].inputs
  }

  lemma {:induction false} GroupKeysDistinct(table: Table, wires: seq<Wire>)
    ensures Distinct(GroupKeys(table, wires))
  {
    if wires != [] { GroupKeysDistinct(table, wires[..|wires| - 1]); }
  }

  lemma {:induction false} GroupMembers(table: Table, wires: seq<Wire>, key: GroupKey)
    ensures forall w :: w in Group(table, wires, key) ==> w in wires && InGroup(table, w, key)
  {
    if wires != [] {
      var init, last := wires[..|wires| - 1], wires[|wires| - 1];
      assert wires == init + [last];
      GroupMembers(table, init, key);
    }
  }

  /** An added wire stands for a removed wire with the same source stage and
      the same target. */
  ghost predicate StandsFor(wires: seq<Wire>, removed: set<Wire>, a: Wire) {
    a.from.FromStage? && exists w :: w in wires && w in removed && w.from.FromStage? && KeyOf(w) == KeyOf(a)
  }

  ghost predicate BundlingSound(stages: seq<Stage>, wires: seq<Wire>, keys: seq<GroupKey>, b: Bundling) {
    && Grows(stages, b.stages) && InputsKept(stages, b.stages)
    && (forall i :: 0 <= i < |b.added| ==> StandsFor(wires, b.removed, b.added[i]) && KeyOf(b.added[i]) in keys)
    && (forall i, j :: 0 <= i < j < |b.added| ==> KeyOf(b.added[i]) != KeyOf(b.added[j]))
  }

  lemma BundleSound(table: Table, stages: seq<Stage>, wires: seq<Wire>, keys: seq<GroupKey>, b: Bundling, key: GroupKey, p: Port)
    requires BundlingSound(stages, wires, keys, b) && key !in keys
    requires BundlePort(table, Group(table, wires, key), key) == Ok(Some(p))
    ensures BundlingSound(stages, wires, keys + [key], Bundle(b, Group(table, wires, key), key, p))
  {
    var group := Group(table, wires, key);
    var c := Bundle(b, group, key, p);
    GroupMembers(table, wires, key);
    WithOutputGrows(b.stages, key.from, p);
    GrowsTransitive(stages, b.stages, c.stages);
    assert group[0] in group;
    forall i | 0 <= i < |c.added| ensures StandsFor(wires, c.removed, c.added[i]) && KeyOf(c.added[i]) in keys + [key] {
      if i < |b.added| {
        assert c.added[i] == b.added[i] && StandsFor(wires, b.removed, b.added[i]);
        var w :| w in wires && w in b.removed && w.from.FromStage? && KeyOf(w) == KeyOf(b.added[i]);
        assert w in c.removed;
      } else {
        assert KeyOf(c.added[i]) == key && group[0] in c.removed;
      }
    }
  }

  lemma {:induction false} BundleAllSound(table: Table, stages: seq<Stage>, wires: seq<Wire>, keys: seq<GroupKey>)
    requires Distinct(keys) && BundleAll(table, stages, wires, keys).Ok?
    ensures BundlingSound(stages, wires, keys, BundleAll(table, stages, wires, keys).value)
  {
    if keys != [] {
      var init, key := keys[..|keys| - 1], keys[|keys| - 1];
      assert keys == init + [key];
      assert Distinct(init) && key !in init;
      BundleAllSound(table, stages, wires, init);
      var b := BundleAll(table, stages, wires, init).value;
      match BundlePort(table, Group(table, wires, key), key)
      case Ok(Some(p)) => BundleSound(table, stages, wires, init, b, key, p);
      case Ok(None) => assert BundlingSound(stages, wires, keys, b);
    }
  }

  function RemovedKeys(wires: seq<Wire>, removed: set<Wire>): set<GroupKey> {
    set w | w in wires && w in removed && w.from.FromStage? :: KeyOf(w)
  }

  lemma {:induction false} RemovedCount(wires: seq<Wire>, removed: set<Wire>)
    ensures |RemovedKeys(wires, removed)| + |Without(wires, removed)| <= |wires|
  {
    if wires != [] {
      var init, last := wires[..|wires| - 1], wires[|wires| - 1];
      assert wires == init + [last];
      RemovedCount(init, removed);
      if last in removed && last.from.FromStage? {
        assert RemovedKeys(wires, removed) == RemovedKeys(init, removed) + {KeyOf(last)};
      } else {
        assert RemovedKeys(wires, removed) == RemovedKeys(init, removed);
      }
    }
  }

  function AddedKeys(added: seq<Wire>): set<GroupKey> {
    set w | w in added && w.from.FromStage? :: KeyOf(w)
  }

  lemma AddedKeysPush(init: seq<Wire>, last: Wire)
    requires last.from.FromStage?
    ensures AddedKeys(init + [last]) == AddedKeys(init) + {KeyOf(last)}
  {
    var all := init + [last];
    assert forall w :: w in all <==> w in init || w == last;
  }

  lemma {:induction false} AddedCount(added: seq<Wire>)
    requires forall i :: 0 <= i < |added| ==> added[i].from.FromStage?
    requires forall i, j :: 0 <= i < j < |added| ==> KeyOf(added[i]) != KeyOf(added[j])
    ensures |AddedKeys(added)| == |added|
  {
    if added != [] {
      var init, last := added[..|added| - 1], added[|added| - 1];
      assert added == init + [last];
      AddedCount(init);
      AddedKeysPush(init, last);
      forall w | w in init && w.from.FromStage? ensures KeyOf(w) != KeyOf(last) {
        var i :| 0 <= i < |init| && init[i] == w;
        assert added[i] == w;
      }
    }
  }

  /** Bundling never makes the wire list longer. */
  lemma WiresDoNotGrow(stages: seq<Stage>, wires: seq<Wire>, keys: seq<GroupKey>, b: Bundling)
    requires BundlingSound(stages, wires, keys, b)
    ensures |Without(wires, b.removed) + b.added| <= |wires|
  {
    RemovedCount(wires, b.removed);
    AddedCount(b.added);
    forall k | k in AddedKeys(b.added) ensures k in RemovedKeys(wires, b.removed) {
      var a :| a in b.added && a.from.FromStage? && KeyOf(a) == k;
      var i :| 0 <= i < |b.added| && b.added[i] == a;
      assert StandsFor(wires, b.removed, b.added[i]);
    }
    SubsetSize(AddedKeys(b.added), RemovedKeys(wires, b.removed));
  }

  lemma {:induction false} WithoutMembers(wires: seq<Wire>, removed: set<Wire>)
    ensures forall w :: w in Without(wires, removed) <==> w in wires && w !in removed
  {
    if wires != [] {
      var init, last := wires[..|wires| - 1], wires[|wires| - 1];
      assert wires == init + [last];
      WithoutMembers(init, removed);
    }
  }

  /** What the shape pass keeps: inputs, landing wires, declared externals; it
      appends outputs and does not add wires on balance. */
  lemma ShapeKeeps(ir: Pipeline)
    requires ShapeRepaired(ir).Ok?
    ensures var r := ShapeRepaired(ir).value.ir;
      && Grows(ir.stages, r.stages) && InputsKept(ir.stages, r.stages)
      && |r.wires| <= |ir.wires| && r.externalInputs == ir.externalInputs
      && (AllLand(ir.stages, ir.wires) ==> AllLand(r.stages, r.wires))
      && (AllExternalDeclared(ir.externalInputs, ir.wires) ==> AllExternalDeclared(r.externalInputs, r.wires))
  {
    var table := StageTable(ir.stages);
    var fix := w => FixShape(table, w);
    var wires := RewriteAll(ir.wires, fix).value.0;
    var keys := GroupKeys(table, wires);
    var b := BundleAll(table, ir.stages, wires, keys).value;
    var r := ShapeRepaired(ir).value.ir;
    RewriteLength(ir.wires, fix);
    GroupKeysDistinct(table, wires);
    BundleAllSound(table, ir.stages, wires, keys);
    WiresDoNotGrow(ir.stages, wires, keys, b);
    WithoutMembers(wires, b.removed);
    forall v | v in r.wires
      ensures AllLand(ir.stages, ir.wires) ==> Lands(StageTable(r.stages), v)
      ensures AllExternalDeclared(ir.externalInputs, ir.wires) ==> ExternalDeclared(r.externalInputs, v)
    {
      ShapedWire(ir, wires, keys, b, v);
    }
  }

  lemma ShapedWire(ir: Pipeline, wires: seq<Wire>, keys: seq<GroupKey>, b: Bundling, v: Wire)
    requires RewriteAll(ir.wires, w => FixShape(StageTable(ir.stages), w)).Ok?
    requires wires == RewriteAll(ir.wires, w => FixShape(StageTable(ir.stages), w)).value.0
    requires BundlingSound(ir.stages, wires, keys, b) && v in Without(wires, b.removed) + b.added
    ensures AllLand(ir.stages, ir.wires) ==> Lands(StageTable(b.stages), v)
    ensures AllExternalDeclared(ir.externalInputs, ir.wires) ==> ExternalDeclared(ir.externalInputs, v)
  {
    var table := StageTable(ir.stages);
    WithoutMembers(wires, b.removed);
    var u: Wire;
    if v in Without(wires, b.removed) {
      u := v;
    } else {
      var i :| 0 <= i < |b.added| && b.added[i] == v;
      assert StandsFor(wires, b.removed, b.added[i]);
      u :| u in wires && u in b.removed && u.from.FromStage? && KeyOf(u) == KeyOf(v);
    }
    var w := RewrittenFrom(ir.wires, x => FixShape(table, x), u);
    FixShapeKeeps(table, w);
    assert u.to == v.to && w.to == u.to;
    if AllLand(ir.stages, ir.wires) { LandsAfterGrowth(ir.stages, b.stages, w); }
  }

  // ----- pass 5 -----

  lemma {:induction false} NoExternalMissing(table: Table, declared: seq<string>, wires: seq<Wire>, w: Wire)
    requires w in wires && w.from.External?
    ensures w.from.port in declared || w.from.port in PortNames(MissingExternals(table, declared, wires))
  {
    var init, last := wires[..|wires| - 1], wires[|wires| - 1];
    assert wires == init + [last];
    var before := MissingExternals(table, declared, init);
    if w in init { NoExternalMissing(table, declared, init, w); }
    var p := Port(if last.from.External? then last.from.port else "", ExternalType(table, last), false);
    PortNamesConcat(before, [p]);
    assert PortNames([p]) == [p.name];
  }

  lemma {:induction false} NoExternalToAdd(table: Table, ports: seq<Port>, wires: seq<Wire>)
    requires AllExternalDeclared(ports, wires)
    ensures MissingExternals(table, PortNames(ports), wires) == []
  {
    if wires != [] {
      var init, last := wires[..|wires| - 1], wires[|wires| - 1];
      assert wires == init + [last];
      assert last in wires && forall w :: w in init ==> w in wires;
      NoExternalToAdd(table, ports, init);
    }
  }

  lemma ExternalsComplete(ir: Pipeline)
    ensures var r := ExternalsBackfilled(ir).ir;
      && r.stages == ir.stages && r.wires == ir.wires && ir.externalInputs <= r.externalInputs
      && AllExternalDeclared(r.externalInputs, r.wires)
      && (AllExternalDeclared(ir.externalInputs, ir.wires) ==> r.externalInputs == ir.externalInputs)
  {
    var table := StageTable(ir.stages);
    var more := MissingExternals(table, PortNames(ir.externalInputs), ir.wires);
    PortNamesConcat(ir.externalInputs, more);
    forall w | w in ir.wires ensures ExternalDeclared(ir.externalInputs + more, w) {
      if w.from.External? { NoExternalMissing(table, PortNames(ir.externalInputs), ir.wires, w); }
    }
    if AllExternalDeclared(ir.externalInputs, ir.wires) { NoExternalToAdd(table, ir.externalInputs, ir.wires); }
  }

  // ----- passes 1 and 2 together -----

  lemma NamesKeep(ir: Pipeline)
    requires NamesRepaired(ir).Ok?
    ensures var r := NamesRepaired(ir).value.ir;
      && r.stages == ir.stages && |r.wires| == |ir.wires| && r.externalInputs == ir.externalInputs
      && (AllLand(ir.stages, ir.wires) ==> AllLand(r.stages, r.wires))
      && (AllExternalDeclared(ir.externalInputs, ir.wires) ==> AllExternalDeclared(r.externalInputs, r.wires))
  {
    var table := StageTable(ir.stages);
    var fix := w => FixNames(table, w);
    RewriteLength(ir.wires, fix);
    forall v | v in NamesRepaired(ir).value.ir.wires
      ensures AllLand(ir.stages, ir.wires) ==> Lands(table, v)
      ensures AllExternalDeclared(ir.externalInputs, ir.wires) ==> ExternalDeclared(ir.externalInputs, v)
    {
      var w := RewrittenFrom(ir.wires, fix, v);
      FixNamesKeeps(table, w);
    }
  }

  lemma DedupedKeeps(ir: Pipeline)
    ensures var r := Deduped(ir).ir;
      && r.stages == ir.stages && |r.wires| <= |ir.wires| && r.externalInputs == ir.externalInputs
      && (AllLand(ir.stages, ir.wires) ==> AllLand(r.stages, r.wires))
      && (AllExternalDeclared(ir.externalInputs, ir.wires) ==> AllExternalDeclared(r.externalInputs, r.wires))
  {
    DedupeMeaning(ir.wires);
  }

  // ----- main results -----

  /** Every repaired pipeline is wired to declared ports: each wire into an
      existing stage lands on a declared input, each external wire names a
      declared external input; the stage list is unchanged but for appended
      ports, every original port survives, and wires do not multiply. */
  lemma RepairedIsWired(ir: Pipeline)
    requires RepairOf(ir).Ok?
    ensures var r := RepairOf(ir).value.ir;
      && AllLand(r.stages, r.wires) && AllExternalDeclared(r.externalInputs, r.wires)
      && Grows(ir.stages, r.stages) && ir.externalInputs <= r.externalInputs
      && |r.wires| <= |ir.wires|
  {
    var a := Deduped(ir);
    var b := NamesRepaired(a.ir).value;
    var c := InputsBackfilled(b.ir);
    var d := ShapeRepaired(c.ir).value;
    DedupedKeeps(ir);
    NamesKeep(a.ir);
    BackfillLands(b.ir);
    ShapeKeeps(c.ir);
    ExternalsComplete(d.ir);
    GrowsTransitive(ir.stages, c.ir.stages, d.ir.stages);
  }

  /** On a pipeline all of whose wires already land and whose externals are
      declared, repair adds no input port and no external input. */
  lemma WiredGainsNoInputs(ir: Pipeline)
    requires RepairOf(ir).Ok? && AllLand(ir.stages, ir.wires) && AllExternalDeclared(ir.externalInputs, ir.wires)
    ensures var r := RepairOf(ir).value.ir;
      InputsKept(ir.stages, r.stages) && r.externalInputs == ir.externalInputs
  {
    var a := Deduped(ir);
    var b := NamesRepaired(a.ir).value;
    var c := InputsBackfilled(b.ir);
    var d := ShapeRepaired(c.ir).value;
    DedupedKeeps(ir);
    NamesKeep(a.ir);
    NothingToAdd(StageTable(b.ir.stages), b.ir.wires);
    NothingAdded(b.ir.stages);
    assert c.ir == b.ir;
    ShapeKeeps(c.ir);
    ExternalsComplete(d.ir);
  }

  /** Repairing a repaired pipeline again adds no input port and no external
      input. */
  lemma SecondRepairAddsNoInputs(ir: Pipeline)
    requires RepairOf(ir).Ok? && RepairOf(RepairOf(ir).value.ir).Ok?
    ensures var once := RepairOf(ir).value.ir;
      var twice := RepairOf(once).value.ir;
      InputsKept(once.stages, twice.stages) && twice.externalInputs == once.externalInputs
  {
    RepairedIsWired(ir);
    WiredGainsNoInputs(RepairOf(ir).value.ir);
  }

  // ----- good pipelines -----

  /** The wire's source exists: a declared output, a gate's feedback port (the
      gate declaring no outputs), or a declared external input. */
  predicate SourceDeclared(table: Table, externals: seq<Port>, w: Wire) {
    match w.from
    case External(p) => p in PortNames(externals)
    case FromStage(s, p) =>
      && s in table
      && (p in PortNames(table[s].outputs)
          || (p == GATE_FEEDBACK && IsGate(table[s]) && !table[s].fanout && table[s].outputs == []))
  }

  /** No duplicate wires, every endpoint declared, and no two wires of a fanout
      stage converging on one input. */
  ghost predicate Good(ir: Pipeline) {
    var table := StageTable(ir.stages);
    && Distinct(ir.wires)
    && (forall w :: w in ir.wires ==>
          SourceDeclared(table, ir.externalInputs, w) && w.to.stage in table
          && w.to.port in PortNames(table[w.to.stage].inputs))
    && (forall i, j :: 0 <= i < j < |ir.wires| && Grouped(table, ir.wires[i]) && Grouped(table, ir.wires[j]) ==>
          KeyOf(ir.wires[i]) != KeyOf(ir.wires[j]))
  }

  lemma NoCandidatesInNothing(wanted: string)
    ensures Candidates(PortNames([]), wanted) == []
  {
  }

  lemma GoodWireIsLeft(ir: Pipeline, w: Wire)
    requires Good(ir) && w in ir.wires
    ensures FixNames(StageTable(ir.stages), w) == Ok(Rewrite(w, []))
    ensures FixShape(StageTable(ir.stages), w) == Ok(Rewrite(w, []))
  {
    var table := StageTable(ir.stages);
    assert SourceDeclared(table, ir.externalInputs, w);
    assert FixTarget(table, w) == Ok(Rewrite(w, []));
    if w.from.FromStage? { NoCandidatesInNothing(w.from.port); }
    assert FixSource(table, w) == Ok(Rewrite(w, []));
    var none: seq<Fix> := [];
    assert none + none == none;
  }

  /** A group of wires that do not converge has at most one member. */
  lemma {:induction false} LonelyGroup(table: Table, wires: seq<Wire>, key: GroupKey)
    requires forall i, j :: 0 <= i < j < |wires| && Grouped(table, wires[i]) && Grouped(table, wires[j]) ==>
               KeyOf(wires[i]) != KeyOf(wires[j])
    ensures |Group(table, wires, key)| <= 1
  {
    if wires != [] {
      var init, last := wires[..|wires| - 1], wires[|wires| - 1];
      LonelyGroup(table, init, key);
      GroupMembers(table, init, key);
      forall w | w in init && Grouped(table, w) && Grouped(table, last) ensures KeyOf(w) != KeyOf(last) {
        var i :| 0 <= i < |init| && init[i] == w;
        assert wires[i] == w;
      }
      assert Group(table, init, key) != [] ==> Group(table, init, key)[0] in init;
    }
  }

  lemma {:induction false} NothingToBundle(table: Table, stages: seq<Stage>, wires: seq<Wire>, keys: seq<GroupKey>)
    requires forall key :: |Group(table, wires, key)| <= 1
    ensures BundleAll(table, stages, wires, keys) == Ok(Bundling(stages, {}, [], []))
  {
    if keys != [] { NothingToBundle(table, stages, wires, keys[..|keys| - 1]); }
  }

  lemma {:induction false} WithoutNothing(wires: seq<Wire>)
    ensures Without(wires, {}) == wires
  {
    if wires != [] {
      WithoutNothing(wires[..|wires| - 1]);
      assert wires == wires[..|wires| - 1] + [wires[|wires| - 1]];
    }
  }

  lemma GoodShapeIsLeft(ir: Pipeline)
    requires Good(ir)
    ensures ShapeRepaired(ir) == Ok(Repaired(ir, []))
  {
    var table := StageTable(ir.stages);
    var fix := w => FixShape(table, w);
    forall w | w in ir.wires ensures fix(w) == Ok(Rewrite(w, [])) { GoodWireIsLeft(ir, w); }
    RewriteNothing(ir.wires, fix);
    forall key ensures |Group(table, ir.wires, key)| <= 1 { LonelyGroup(table, ir.wires, key); }
    NothingToBundle(table, ir.stages, ir.wires, GroupKeys(table, ir.wires));
    WithoutNothing(ir.wires);
    assert ir.wires + [] == ir.wires;
  }

  lemma GoodNamesAreLeft(ir: Pipeline)
    requires Good(ir)
    ensures NamesRepaired(ir) == Ok(Repaired(ir, []))
  {
    var table := StageTable(ir.stages);
    var fix := w => FixNames(table, w);
    forall w | w in ir.wires ensures fix(w) == Ok(Rewrite(w, [])) { GoodWireIsLeft(ir, w); }
    RewriteNothing(ir.wires, fix);
  }

  /** Repair leaves a good pipeline exactly as it is and reports nothing. */
  lemma GoodIsLeftAlone(ir: Pipeline)
    requires Good(ir)
    ensures RepairOf(ir) == Ok(Repaired(ir, []))
  {
    var table := StageTable(ir.stages);
    DedupeMeaning(ir.wires);
    assert Deduped(ir) == Repaired(ir, []);
    GoodNamesAreLeft(ir);
    NothingToAdd(table, ir.wires);
    NothingAdded(ir.stages);
    assert InputsBackfilled(ir) == Repaired(ir, []);
    GoodShapeIsLeft(ir);
    forall w | w in ir.wires ensures ExternalDeclared(ir.externalInputs, w) { assert SourceDeclared(table, ir.externalInputs, w); }
    NoExternalToAdd(table, ir.externalInputs, ir.wires);
    assert ir.externalInputs + [] == ir.externalInputs;
    assert ExternalsBackfilled(ir) == Repaired(ir, []);
  }
}
