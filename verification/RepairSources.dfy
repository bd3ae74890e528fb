/** Repair invents no sources: what it rewires reads a declared output, and a
    renamed port is the only similar one. */
module RepairSources {
  import opened Ir
  import opened Tables
  import opened Repair
  import opened RepairTheory

  // ----- similar names -----

  ghost predicate Ambiguous(names: seq<string>, wanted: string) {
    exists i, j :: 0 <= i < j < |names| && Similar(names[i], wanted) && Similar(names[j], wanted)
  }

  lemma {:induction false} CandidatesMeaning(names: seq<string>, wanted: string)
    ensures forall n :: n in Candidates(names, wanted) <==> n in names && Similar(n, wanted)
    ensures |Candidates(names, wanted)| > 1 <==> Ambiguous(names, wanted)
  {
    if names != [] {
      var init, last := names[..|names| - 1], names[|names| - 1];
      assert names == init + [last];
      CandidatesMeaning(init, wanted);
      var found := Candidates(init, wanted);
      if Ambiguous(init, wanted) {
        var i, j :| 0 <= i < j < |init| && Similar(init[i], wanted) && Similar(init[j], wanted);
        assert names[i] == init[i] && names[j] == init[j];
      }
      if Similar(last, wanted) && found != [] {
        assert found[0] in init;
        var i :| 0 <= i < |init| && init[i] == found[0];
        assert Similar(names[i], wanted) && Similar(names[|init|], wanted);
      }
      if Ambiguous(names, wanted) { AmbiguousLast(names, wanted); }
    }
  }

  lemma AmbiguousLast(names: seq<string>, wanted: string)
    requires names != [] && Ambiguous(names, wanted)
    ensures Ambiguous(names[..|names| - 1], wanted)
            || (Similar(names[|names| - 1], wanted) && exists n :: n in names[..|names| - 1] && Similar(n, wanted))
  {
    TwiceOrLast(names, n => Similar(n, wanted));
  }

  lemma TwiceOrLast(names: seq<string>, p: string -> bool)
    requires names != [] && exists i, j :: 0 <= i < j < |names| && p(names[i]) && p(names[j])
    ensures var init := names[..|names| - 1];
      || (exists i, j :: 0 <= i < j < |init| && p(init[i]) && p(init[j]))
      || (p(names[|names| - 1]) && exists n :: n in init && p(n))
  {
    var init := names[..|names| - 1];
    var i, j :| 0 <= i < j < |names| && p(names[i]) && p(names[j]);
    assert init[i] == names[i] && init[i] in init;
    if j < |init| { assert init[j] == names[j]; }
  }

  /** A wire's undeclared target port: repair gives up exactly when two inputs
      are similar to it, renames it exactly when one is, and then to that one;
      a declared target port is never touched. */
  lemma TargetRenameMeaning(table: Table, w: Wire)
    ensures var unknown := w.to.stage in table && w.to.port !in PortNames(table[w.to.stage].inputs);
      var names := if w.to.stage in table then PortNames(table[w.to.stage].inputs) else [];
      && (FixTarget(table, w).Thrown? <==> unknown && Ambiguous(names, w.to.port))
      && (FixTarget(table, w).Ok? ==>
            var v := FixTarget(table, w).value.wire;
            && v.from == w.from && v.guard == w.guard && v.to.stage == w.to.stage
            && (v != w ==> unknown && v.to.port in names && Similar(v.to.port, w.to.port))
            && (unknown && v == w ==> forall n :: n in names ==> !Similar(n, w.to.port)))
  {
    if w.to.stage in table {
      var names := PortNames(table[w.to.stage].inputs);
      CandidatesMeaning(names, w.to.port);
      var found := Candidates(names, w.to.port);
      assert |found| == 1 ==> found[0] in found;
      forall n | n in names && Similar(n, w.to.port) ensures n in found { }
    }
  }

  // ----- sources -----

  predicate Declared(table: Table, from: Source) {
    from.FromStage? && from.stage in table && from.port in PortNames(table[from.stage].outputs)
  }

  predicate KeptOrDeclared(table: Table, before: Source, after: Source) {
    after == before || (Declared(table, after) && before.FromStage? && after.stage == before.stage)
  }

  lemma FixNamesSource(table: Table, w: Wire)
    requires FixNames(table, w).Ok?
    ensures KeptOrDeclared(table, w.from, FixNames(table, w).value.wire.from)
  {
    if w.from.FromStage? && w.from.stage in table {
      var names := PortNames(table[w.from.stage].outputs);
      CandidatesMeaning(names, w.from.port);
      var found := Candidates(names, w.from.port);
      assert |found| == 1 ==> found[0] in found;
    }
  }

  lemma {:induction false} ObjectOutputsAreOutputs(ports: seq<Port>)
    ensures forall p :: p in ObjectOutputs(ports) ==> p in ports && IsObjectType(p.typ)
  {
    if ports != [] {
      ObjectOutputsAreOutputs(ports[..|ports| - 1]);
      assert ports == ports[..|ports| - 1] + [ports[|ports| - 1]];
    }
  }

  lemma {:induction false} FirstIsAnOutput(outputs: seq<Port>, lower: string)
    ensures FirstWithin(outputs, lower).Some? ==> FirstWithin(outputs, lower).value in outputs
    ensures FirstAround(outputs, lower).Some? ==> FirstAround(outputs, lower).value in outputs
  {
    if outputs != [] { FirstIsAnOutput(outputs[1..], lower); }
  }

  lemma PortNamed(ports: seq<Port>, p: Port)
    requires p in ports
    ensures p.name in PortNames(ports)
  {
    var i :| 0 <= i < |ports| && ports[i] == p;
    assert PortNames(ports)[i] == p.name;
  }

  lemma FixShapeSource(table: Table, w: Wire)
    requires FixShape(table, w).Ok?
    ensures KeptOrDeclared(table, w.from, FixShape(table, w).value.wire.from)
    ensures FixShape(table, w).value.fixes != [] ==>
              Declared(table, FixShape(table, w).value.wire.from) && !Declared(table, w.from)
  {
    if w.from.FromStage? && w.from.stage in table {
      var outputs := table[w.from.stage].outputs;
      CandidatesMeaning(PortNames(outputs), w.from.port);
      var found := Candidates(PortNames(outputs), w.from.port);
      assert |found| == 1 ==> found[0] in found;
      ObjectOutputsAreOutputs(outputs);
      FirstIsAnOutput(outputs, Lower(w.to.port));
      forall p | p in outputs ensures p.name in PortNames(outputs) { PortNamed(outputs, p); }
      var objects := ObjectOutputs(outputs);
      assert |objects| == 1 ==> objects[0] in objects;
    }
  }

  lemma DeclaredAfterGrowth(a: seq<Stage>, b: seq<Stage>, from: Source)
    requires Grows(a, b) && Declared(StageTable(a), from)
    ensures Declared(StageTable(b), from)
  {
    TableGrows(a, b, from.stage);
    PrefixPortNames(StageTable(a)[from.stage].outputs, StageTable(b)[from.stage].outputs, from.port);
  }

  lemma {:induction false} WithOutputDeclares(stages: seq<Stage>, name: string, p: Port)
    requires name in StageTable(stages)
    ensures Declared(StageTable(WithOutput(stages, name, p)), FromStage(name, p.name))
  {
    var n := |stages| - 1;
    assert WithOutput(stages, name, p)[..n] == WithOutput(stages[..n], name, p);
    if stages[n].name == name {
      PortNamesConcat(stages[n].outputs, [p]);
      assert PortNames([p]) == [p.name];
    } else {
      WithOutputDeclares(stages[..n], name, p);
    }
  }

  ghost predicate AddedDeclared(stages: seq<Stage>, b: Bundling) {
    && Grows(stages, b.stages)
    && forall i :: 0 <= i < |b.added| ==> Declared(StageTable(b.stages), b.added[i].from)
  }

  lemma {:induction false} BundlesDeclared(table: Table, stages: seq<Stage>, wires: seq<Wire>, keys: seq<GroupKey>)
    requires table == StageTable(stages) && BundleAll(table, stages, wires, keys).Ok?
    ensures AddedDeclared(stages, BundleAll(table, stages, wires, keys).value)
  {
    if keys != [] {
      var init, key := keys[..|keys| - 1], keys[|keys| - 1];
      BundlesDeclared(table, stages, wires, init);
      var b := BundleAll(table, stages, wires, init).value;
      var group := Group(table, wires, key);
      var port := BundlePort(table, group, key);
      if port.value.Some? {
        var p := port.value.value;
        var c := Bundle(b, group, key, p);
        WithOutputGrows(b.stages, key.from, p);
        GrowsTransitive(stages, b.stages, c.stages);
        TableGrows(stages, b.stages, key.from);
        WithOutputDeclares(b.stages, key.from, p);
        forall i | 0 <= i < |c.added| ensures Declared(StageTable(c.stages), c.added[i].from) {
          if i < |b.added| { DeclaredAfterGrowth(b.stages, c.stages, b.added[i].from); }
        }
      }
    }
  }

  ghost predicate Came(wires: seq<Wire>, from: Source) {
    exists w :: w in wires && w.from == from
  }

  /** Every source is one that was there, or a declared output. */
  ghost predicate NoneInvented(before: seq<Wire>, stages: seq<Stage>, after: seq<Wire>) {
    forall v :: v in after ==> Came(before, v.from) || Declared(StageTable(stages), v.from)
  }

  lemma InventedTransitive(a: seq<Wire>, sb: seq<Stage>, b: seq<Wire>, sc: seq<Stage>, c: seq<Wire>)
    requires NoneInvented(a, sb, b) && NoneInvented(b, sc, c) && Grows(sb, sc)
    ensures NoneInvented(a, sc, c)
  {
    forall v | v in c ensures Came(a, v.from) || Declared(StageTable(sc), v.from) {
      if Came(b, v.from) {
        var w :| w in b && w.from == v.from;
        if !Came(a, w.from) { DeclaredAfterGrowth(sb, sc, w.from); }
      }
    }
  }

  lemma NamesInventNothing(ir: Pipeline)
    requires NamesRepaired(ir).Ok?
    ensures NoneInvented(ir.wires, ir.stages, NamesRepaired(ir).value.ir.wires)
  {
    var table := StageTable(ir.stages);
    var fix := w => FixNames(table, w);
    forall v | v in NamesRepaired(ir).value.ir.wires ensures Came(ir.wires, v.from) || Declared(table, v.from) {
      var w := RewrittenFrom(ir.wires, fix, v);
      FixNamesSource(table, w);
    }
  }

  lemma ShapeInventsNothing(ir: Pipeline)
    requires ShapeRepaired(ir).Ok?
    ensures NoneInvented(ir.wires, ShapeRepaired(ir).value.ir.stages, ShapeRepaired(ir).value.ir.wires)
  {
    var table := StageTable(ir.stages);
    var fix := w => FixShape(table, w);
    var wires := RewriteAll(ir.wires, fix).value.0;
    var keys := GroupKeys(table, wires);
    var b := BundleAll(table, ir.stages, wires, keys).value;
    BundlesDeclared(table, ir.stages, wires, keys);
    WithoutMembers(wires, b.removed);
    forall v | v in Without(wires, b.removed) + b.added
      ensures Came(ir.wires, v.from) || Declared(StageTable(b.stages), v.from)
    {
      if v in Without(wires, b.removed) {
        var w := RewrittenFrom(ir.wires, fix, v);
        FixShapeSource(table, w);
        if v.from != w.from { DeclaredAfterGrowth(ir.stages, b.stages, v.from); }
      } else {
        var i :| 0 <= i < |b.added| && b.added[i] == v;
      }
    }
  }

  /** Every wire of a repaired pipeline reads either a source the original
      pipeline read or a declared output: no pass invents a source. */
  lemma RepairInventsNoSource(ir: Pipeline)
    requires RepairOf(ir).Ok?
    ensures NoneInvented(ir.wires, RepairOf(ir).value.ir.stages, RepairOf(ir).value.ir.wires)
  {
    var a := Deduped(ir);
    var b := NamesRepaired(a.ir).value;
    var c := InputsBackfilled(b.ir);
    var d := ShapeRepaired(c.ir).value;
    DedupeMeaning(ir.wires);
    forall v | v in a.ir.wires ensures Came(ir.wires, v.from) { assert v in ir.wires; }
    NamesInventNothing(a.ir);
    BackfillLands(b.ir);
    ShapeInventsNothing(c.ir);
    ShapeKeeps(c.ir);
    forall v | v in b.ir.wires ensures Came(ir.wires, v.from) || Declared(StageTable(b.ir.stages), v.from) {
      if Came(a.ir.wires, v.from) { var w :| w in a.ir.wires && w.from == v.from; }
    }
    GrowsTransitive(ir.stages, c.ir.stages, d.ir.stages);
    InventedTransitive(ir.wires, b.ir.stages, b.ir.wires, d.ir.stages, d.ir.wires);
  }
}
