/** Which pipelines repair leaves alone, exactly; that it reports something
    whenever it changes something; and that a second repair may still change
    what the first has returned. */
module RepairFixpoint {
  import opened Ir
  import opened Tables
  import opened Repair
  import opened RepairTheory
  import opened RepairSources

  // ----- settled pipelines -----

  predicate NoneSimilar(names: seq<string>, wanted: string) {
    forall n :: n in names ==> !Similar(n, wanted)
  }

  /** A fanout stage has no output that repair would take for the wire. */
  predicate NothingToTake(table: Table, w: Wire, outputs: seq<Port>) {
    var t := TargetType(table, w);
    if IsObjectArray(t) then forall p :: p in outputs ==> !IsObjectType(p.typ)
    else
      IsScalarArray(t) ==>
        forall p :: p in outputs ==> !Includes(Lower(w.to.port), Lower(p.name)) && !Includes(Lower(p.name), Lower(w.to.port))
  }

  /** The source is declared, or there is nothing to put in its place. */
  predicate SourceSettled(table: Table, externals: seq<Port>, w: Wire) {
    match w.from
    case External(p) => p in PortNames(externals)
    case FromStage(s, p) =>
      s !in table || p in PortNames(table[s].outputs)
      || (if table[s].fanout then NothingToTake(table, w, table[s].outputs)
          else NoneSimilar(PortNames(table[s].outputs), p))
  }

  predicate WireSettled(table: Table, externals: seq<Port>, w: Wire) {
    Lands(table, w) && SourceSettled(table, externals, w)
  }

  predicate Converge(table: Table, v: Wire, w: Wire) {
    Grouped(table, v) && Grouped(table, w) && KeyOf(v) == KeyOf(w)
  }

  /** Two wires of a fanout stage into one input: the input takes an array of
      objects, and the stage has an output of that name already or the wires
      do not read two different declared outputs. */
  predicate PairSettled(table: Table, v: Wire, w: Wire) {
    Converge(table, v, w) ==>
      var names := PortNames(table[v.from.stage].outputs);
      && IsObjectArray(TargetType(table, v))
      && (v.to.port in names || v.from.port !in names || w.from.port !in names || v.from.port == w.from.port)
  }

  ghost predicate PairsSettled(table: Table, wires: seq<Wire>) {
    forall i, j :: 0 <= i < j < |wires| ==> PairSettled(table, wires[i], wires[j])
  }

  /** No duplicate wires; every wire lands and has a settled source; no wires
      converge in a way to bundle or to give up on. */
  ghost predicate Settled(ir: Pipeline) {
    var table := StageTable(ir.stages);
    && Distinct(ir.wires)
    && (forall w :: w in ir.wires ==> WireSettled(table, ir.externalInputs, w))
    && PairsSettled(table, ir.wires)
  }

  // ----- wires -----

  predicate Unfixed(r: Result<Rewrite>, w: Wire) {
    r == Ok(Rewrite(w, []))
  }

  lemma NoCandidates(names: seq<string>, wanted: string)
    ensures Candidates(names, wanted) == [] <==> NoneSimilar(names, wanted)
  {
    CandidatesMeaning(names, wanted);
    var found := Candidates(names, wanted);
    assert found != [] ==> found[0] in found;
  }

  lemma NoObjects(ports: seq<Port>)
    ensures ObjectOutputs(ports) == [] <==> forall p :: p in ports ==> !IsObjectType(p.typ)
  {
    ObjectOutputsHold(ports);
    ObjectOutputsAreOutputs(ports);
    var found := ObjectOutputs(ports);
    assert found != [] ==> found[0] in found;
  }

  lemma {:induction false} ObjectOutputsHold(ports: seq<Port>)
    ensures forall p :: p in ports && IsObjectType(p.typ) ==> p in ObjectOutputs(ports)
  {
    if ports != [] {
      ObjectOutputsHold(ports[..|ports| - 1]);
      assert ports == ports[..|ports| - 1] + [ports[|ports| - 1]];
    }
  }

  lemma {:induction false} NoneWithin(outputs: seq<Port>, lower: string)
    ensures FirstWithin(outputs, lower).None? <==> forall p :: p in outputs ==> !Includes(lower, Lower(p.name))
    ensures FirstAround(outputs, lower).None? <==> forall p :: p in outputs ==> !Includes(Lower(p.name), lower)
  {
    if outputs != [] {
      assert outputs == [outputs[0]] + outputs[1..];
      NoneWithin(outputs[1..], lower);
    }
  }

  /** The target side alone: unchanged if the wire lands; if it does not, then
      only for want of a similar input. */
  lemma TargetUnfixed(table: Table, w: Wire)
    ensures Lands(table, w) ==> Unfixed(FixTarget(table, w), w)
  {
  }

  /** For a wire that lands, the passes over wires have nothing to say exactly
      if its source, unless external, is settled. */
  lemma WireUnfixed(table: Table, externals: seq<Port>, w: Wire)
    requires Lands(table, w)
    ensures Unfixed(FixNames(table, w), w) && Unfixed(FixShape(table, w), w)
            <==> w.from.External? || SourceSettled(table, externals, w)
  {
    var none: seq<Fix> := [];
    assert none + none == none;
    TargetUnfixed(table, w);
    if w.from.FromStage? && w.from.stage in table && w.from.port !in PortNames(table[w.from.stage].outputs) {
      var outputs := table[w.from.stage].outputs;
      if table[w.from.stage].fanout {
        NoObjects(outputs);
        NoneWithin(outputs, Lower(w.to.port));
      } else {
        NoCandidates(PortNames(outputs), w.from.port);
      }
    }
  }

  // ----- converging wires -----

  /** The group has two wires that read different declared outputs. */
  ghost predicate TwoFields(outputs: seq<Port>, group: seq<Wire>) {
    exists v, w :: v in group && w in group && v.from.port in PortNames(outputs) && w.from.port in PortNames(outputs)
                   && v.from.port != w.from.port
  }

  lemma {:induction false} FieldsNamed(outputs: seq<Port>, group: seq<Wire>)
    ensures Distinct(PortNames(Fields(outputs, group)))
    ensures forall n :: n in PortNames(Fields(outputs, group)) <==>
              n in PortNames(outputs) && exists w :: w in group && w.from.port == n
  {
    if group != [] {
      var init, w := group[..|group| - 1], group[|group| - 1];
      assert group == init + [w];
      FieldsNamed(outputs, init);
      var rest, found := Fields(outputs, init), FindPort(outputs, w.from.port);
      if found.Some? && found.value.name !in PortNames(rest) {
        PortNamesConcat(rest, [found.value]);
        assert PortNames([found.value]) == [w.from.port];
      }
      assert forall x :: x in group <==> x in init || x == w;
    }
  }

  lemma FieldsMeaning(outputs: seq<Port>, group: seq<Wire>)
    ensures |Fields(outputs, group)| >= 2 <==> TwoFields(outputs, group)
  {
    FieldsNamed(outputs, group);
    var names := PortNames(Fields(outputs, group));
    if |names| >= 2 {
      assert names[0] in names && names[1] in names && names[0] != names[1];
      var v :| v in group && v.from.port == names[0];
      var w :| w in group && w.from.port == names[1];
    }
    if TwoFields(outputs, group) {
      var v, w :| v in group && w in group && v.from.port in PortNames(outputs) && w.from.port in PortNames(outputs)
                  && v.from.port != w.from.port;
      var i :| 0 <= i < |names| && names[i] == v.from.port;
      var j :| 0 <= j < |names| && names[j] == w.from.port;
    }
  }

  /** Wires of a group, by their places in the whole list. */
  lemma {:induction false} GroupPlaces(table: Table, wires: seq<Wire>, key: GroupKey, i: nat, j: nat)
    requires i < j < |wires| && InGroup(table, wires[i], key) && InGroup(table, wires[j], key)
    ensures |Group(table, wires, key)| >= 2
  {
    var init := wires[..|wires| - 1];
    if j < |wires| - 1 {
      GroupPlaces(table, init, key, i, j);
    } else {
      GroupHolds(table, init, key, init[i]);
    }
  }

  lemma {:induction false} GroupHolds(table: Table, wires: seq<Wire>, key: GroupKey, w: Wire)
    requires w in wires && InGroup(table, w, key)
    ensures w in Group(table, wires, key)
  {
    var init, last := wires[..|wires| - 1], wires[|wires| - 1];
    assert wires == init + [last];
    if w in init { GroupHolds(table, init, key, w); }
  }

  lemma {:induction false} PairOfGroup(table: Table, wires: seq<Wire>, key: GroupKey) returns (i: nat, j: nat)
    requires |Group(table, wires, key)| >= 2
    ensures i < j < |wires| && InGroup(table, wires[i], key) && InGroup(table, wires[j], key)
  {
    var init, last := wires[..|wires| - 1], wires[|wires| - 1];
    if InGroup(table, last, key) {
      var w := Group(table, init, key)[0];
      GroupMembers(table, init, key);
      assert w in Group(table, init, key);
      i :| 0 <= i < |init| && init[i] == w;
      j := |init|;
    } else {
      i, j := PairOfGroup(table, init, key);
    }
  }

  /** Two wires of the group that are at different places and differ. */
  lemma PlacesOf(wires: seq<Wire>, v: Wire, w: Wire) returns (i: nat, j: nat)
    requires v in wires && w in wires && v != w
    ensures i < j < |wires| && ((wires[i] == v && wires[j] == w) || (wires[i] == w && wires[j] == v))
  {
    var k: nat :| k < |wires| && wires[k] == v;
    var l: nat :| l < |wires| && wires[l] == w;
    i, j := if k < l then k else l, if k < l then l else k;
  }

  lemma SettledPairsStay(table: Table, wires: seq<Wire>, key: GroupKey)
    requires PairsSettled(table, wires)
    ensures BundlePort(table, Group(table, wires, key), key) == Ok(None)
  {
    var group := Group(table, wires, key);
    GroupMembers(table, wires, key);
    if |group| >= 2 {
      var i, j := PairOfGroup(table, wires, key);
      assert PairSettled(table, wires[i], wires[j]);
      assert group[0] in group;
      assert TargetType(table, group[0]) == TargetType(table, wires[i]);
      var outputs := table[key.from].outputs;
      FieldsMeaning(outputs, group);
      forall v, w | v in group && w in group && v.from.port in PortNames(outputs) && w.from.port in PortNames(outputs)
                    && v.from.port != w.from.port
        ensures key.to.port in PortNames(outputs)
      {
        var k, l := PlacesOf(wires, v, w);
        assert PairSettled(table, wires[k], wires[l]);
      }
    }
  }

  lemma StayingPairsAreSettled(table: Table, wires: seq<Wire>, i: nat, j: nat)
    requires i < j < |wires|
    requires Grouped(table, wires[i]) ==>
               BundlePort(table, Group(table, wires, KeyOf(wires[i])), KeyOf(wires[i])) == Ok(None)
    ensures PairSettled(table, wires[i], wires[j])
  {
    var v, w := wires[i], wires[j];
    if Converge(table, v, w) {
      var key := KeyOf(v);
      var group, outputs := Group(table, wires, key), table[key.from].outputs;
      GroupPlaces(table, wires, key, i, j);
      GroupHolds(table, wires, key, v);
      GroupHolds(table, wires, key, w);
      GroupMembers(table, wires, key);
      assert group[0] in group && TargetType(table, group[0]) == TargetType(table, v);
      FieldsMeaning(outputs, group);
    }
  }

  // ----- passes that report nothing -----

  lemma {:induction false} DedupeSilent(wires: seq<Wire>)
    ensures |Dedupe(wires)| == |wires| ==> Distinct(wires)
  {
    if wires != [] {
      var init, last := wires[..|wires| - 1], wires[|wires| - 1];
      DedupeSilent(init);
      DedupeMeaning(init);
      if |Dedupe(wires)| == |wires| {
        forall i | 0 <= i < |init| ensures init[i] != last { assert init[i] in init; }
      }
    }
  }

  /** A rewriting pass without fixes has left every wire as it was, if a rewrite
      without fixes is none. */
  lemma {:induction false} RewriteSilent(wires: seq<Wire>, fix: Wire -> Result<Rewrite>)
    requires forall w :: w in wires && fix(w).Ok? && fix(w).value.fixes == [] ==> fix(w).value.wire == w
    requires RewriteAll(wires, fix).Ok? && RewriteAll(wires, fix).value.1 == []
    ensures forall w :: w in wires ==> Unfixed(fix(w), w)
    ensures RewriteAll(wires, fix).value.0 == wires
  {
    if wires != [] {
      var init, last := wires[..|wires| - 1], wires[|wires| - 1];
      assert wires == init + [last];
      assert last in wires && forall w :: w in init ==> w in wires;
      RewriteSilent(init, fix);
    }
  }

  lemma TargetSilent(table: Table, w: Wire)
    requires FixTarget(table, w).Ok?
    ensures var r := FixTarget(table, w).value;
      r.wire.from == w.from && (r.fixes == [] <==> r.wire == w) && (r.fixes == [] <==> r.wire.to == w.to)
  {
    if w.to.stage in table {
      var names := PortNames(table[w.to.stage].inputs);
      CandidatesMeaning(names, w.to.port);
      var found := Candidates(names, w.to.port);
      assert |found| == 1 ==> found[0] in found;
    }
  }

  lemma SourceSilent(table: Table, w: Wire)
    requires FixSource(table, w).Ok?
    ensures var r := FixSource(table, w).value;
      && r.wire.to == w.to && (r.fixes == [] ==> r.wire == w)
      && (r.fixes != [] ==> Declared(table, r.wire.from) && !Declared(table, w.from))
  {
    if w.from.FromStage? && w.from.stage in table {
      var names := PortNames(table[w.from.stage].outputs);
      CandidatesMeaning(names, w.from.port);
      var found := Candidates(names, w.from.port);
      assert |found| == 1 ==> found[0] in found;
    }
  }

  lemma ShapeSilent(table: Table, w: Wire)
    requires FixShape(table, w).Ok?
    ensures var r := FixShape(table, w).value;
      && r.wire.to == w.to && (r.fixes == [] ==> r.wire == w)
      && (r.fixes != [] ==> Declared(table, r.wire.from) && !Declared(table, w.from))
  {
    FixShapeSource(table, w);
  }

  lemma NamesSilent(table: Table, w: Wire)
    requires FixNames(table, w).Ok?
    ensures FixNames(table, w).value.fixes == [] <==> FixNames(table, w).value.wire == w
  {
    var t := FixTarget(table, w).value;
    TargetSilent(table, w);
    SourceSilent(table, t.wire);
  }

  /** The shape pass does not take back what the pass on names did. */
  lemma NothingUndone(table: Table, w: Wire)
    requires FixNames(table, w).Ok? && FixShape(table, FixNames(table, w).value.wire).Ok?
    requires FixShape(table, FixNames(table, w).value.wire).value.wire == w
    ensures Unfixed(FixNames(table, w), w) && Unfixed(FixShape(table, w), w)
  {
    var t, v := FixTarget(table, w).value, FixNames(table, w).value;
    TargetSilent(table, w);
    SourceSilent(table, t.wire);
    ShapeSilent(table, v.wire);
    var none: seq<Fix> := [];
    assert t.fixes == none && t.wire == w;
    assert FixSource(table, w).value.fixes == none;
    assert none + none == none;
  }

  lemma {:induction false} BundlingSilent(table: Table, stages: seq<Stage>, wires: seq<Wire>, keys: seq<GroupKey>)
    requires table == StageTable(stages) && BundleAll(table, stages, wires, keys).Ok?
    requires var b := BundleAll(table, stages, wires, keys).value; b.stages == stages || b.fixes == []
    ensures BundleAll(table, stages, wires, keys) == Ok(Bundling(stages, {}, [], []))
    ensures forall key :: key in keys ==> BundlePort(table, Group(table, wires, key), key) == Ok(None)
  {
    if keys != [] {
      var init, key := keys[..|keys| - 1], keys[|keys| - 1];
      assert keys == init + [key];
      var b := BundleAll(table, stages, wires, init).value;
      var port := BundlePort(table, Group(table, wires, key), key).value;
      BundlesDeclared(table, stages, wires, init);
      if port.Some? { OutputShows(table, stages, b.stages, key.from, port.value); }
      BundlingSilent(table, stages, wires, init);
    }
  }

  /** Appending an output to a known stage does not give back the stages it
      was grown from. */
  lemma OutputShows(table: Table, stages: seq<Stage>, grown: seq<Stage>, name: string, p: Port)
    requires table == StageTable(stages) && name in table && Grows(stages, grown)
    ensures WithOutput(grown, name, p) != stages
  {
    StageTableKeys(stages);
    KeyOrderKeeps(StageNames(stages), name);
    var i :| 0 <= i < |stages| && StageNames(stages)[i] == name;
    assert StageGrows(stages[i], grown[i]);
    assert WithOutput(grown, name, p)[i].outputs == grown[i].outputs + [p];
  }

  lemma {:induction false} InputsSilent(table: Table, wires: seq<Wire>)
    requires MissingInputs(table, wires).1 == []
    ensures MissingInputs(table, wires).0 == map[]
    ensures forall w :: w in wires ==> Lands(table, w)
  {
    if wires != [] {
      var init, last := wires[..|wires| - 1], wires[|wires| - 1];
      assert wires == init + [last];
      InputsSilent(table, init);
      assert PortNames([]) == [];
    }
  }

  lemma GrowsBothWays(a: seq<Stage>, b: seq<Stage>)
    requires Grows(a, b) && Grows(b, a)
    ensures a == b
  {
    forall i | 0 <= i < |a| ensures a[i] == b[i] {
      assert StageGrows(a[i], b[i]) && StageGrows(b[i], a[i]);
    }
  }

  // ----- all passes -----

  lemma {:induction false} KeysOfWires(table: Table, wires: seq<Wire>, w: Wire)
    requires w in wires && Grouped(table, w)
    ensures KeyOf(w) in GroupKeys(table, wires)
  {
    var init, last := wires[..|wires| - 1], wires[|wires| - 1];
    assert wires == init + [last];
    if w in init { KeysOfWires(table, init, w); }
  }

  /** Nothing for any pass to do. */
  ghost predicate Idle(ir: Pipeline) {
    var table := StageTable(ir.stages);
    && Distinct(ir.wires)
    && (forall w :: w in ir.wires ==> Unfixed(FixNames(table, w), w) && Unfixed(FixShape(table, w), w) && Lands(table, w))
    && (forall key :: key in GroupKeys(table, ir.wires) ==> BundlePort(table, Group(table, ir.wires, key), key) == Ok(None))
    && AllExternalDeclared(ir.externalInputs, ir.wires)
  }

  lemma {:induction false} NothingBundled(table: Table, stages: seq<Stage>, wires: seq<Wire>, keys: seq<GroupKey>)
    requires forall key :: key in keys ==> BundlePort(table, Group(table, wires, key), key) == Ok(None)
    ensures BundleAll(table, stages, wires, keys) == Ok(Bundling(stages, {}, [], []))
  {
    if keys != [] {
      assert keys == keys[..|keys| - 1] + [keys[|keys| - 1]];
      NothingBundled(table, stages, wires, keys[..|keys| - 1]);
    }
  }

  lemma IdleNames(ir: Pipeline)
    requires Idle(ir)
    ensures NamesRepaired(ir) == Ok(Repaired(ir, []))
  {
    RewriteNothing(ir.wires, w => FixNames(StageTable(ir.stages), w));
  }

  lemma IdleShape(ir: Pipeline)
    requires Idle(ir)
    ensures ShapeRepaired(ir) == Ok(Repaired(ir, []))
  {
    var table := StageTable(ir.stages);
    RewriteNothing(ir.wires, w => FixShape(table, w));
    NothingBundled(table, ir.stages, ir.wires, GroupKeys(table, ir.wires));
    WithoutNothing(ir.wires);
    assert ir.wires + [] == ir.wires;
  }

  lemma IdleIsLeftAlone(ir: Pipeline)
    requires Idle(ir)
    ensures RepairOf(ir) == Ok(Repaired(ir, []))
  {
    var table := StageTable(ir.stages);
    DedupeMeaning(ir.wires);
    assert Deduped(ir) == Repaired(ir, []);
    IdleNames(ir);
    NothingToAdd(table, ir.wires);
    NothingAdded(ir.stages);
    assert InputsBackfilled(ir) == Repaired(ir, []);
    IdleShape(ir);
    NoExternalToAdd(table, ir.externalInputs, ir.wires);
    assert ir.externalInputs + [] == ir.externalInputs;
    assert ExternalsBackfilled(ir) == Repaired(ir, []);
  }

  // ----- what an empty report means, pass by pass -----

  lemma SilentDedupe(ir: Pipeline)
    requires Deduped(ir).fixes == []
    ensures Deduped(ir).ir == ir && Distinct(ir.wires)
  {
    DedupeMeaning(ir.wires);
    DedupeSilent(ir.wires);
  }

  lemma SilentNames(ir: Pipeline)
    requires NamesRepaired(ir).Ok? && NamesRepaired(ir).value.fixes == []
    ensures NamesRepaired(ir).value.ir == ir
    ensures forall w :: w in ir.wires ==> Unfixed(FixNames(StageTable(ir.stages), w), w)
  {
    var table := StageTable(ir.stages);
    var fix := w => FixNames(table, w);
    forall w | w in ir.wires && fix(w).Ok? && fix(w).value.fixes == [] ensures fix(w).value.wire == w {
      NamesSilent(table, w);
    }
    RewriteSilent(ir.wires, fix);
    forall w | w in ir.wires ensures Unfixed(FixNames(table, w), w) { assert Unfixed(fix(w), w); }
  }

  lemma SilentInputs(ir: Pipeline)
    requires InputsBackfilled(ir).fixes == []
    ensures InputsBackfilled(ir).ir == ir
    ensures forall w :: w in ir.wires ==> Lands(StageTable(ir.stages), w)
  {
    InputsSilent(StageTable(ir.stages), ir.wires);
    NothingAdded(ir.stages);
  }

  lemma SilentShape(ir: Pipeline)
    requires ShapeRepaired(ir).Ok? && ShapeRepaired(ir).value.fixes == []
    ensures ShapeRepaired(ir).value.ir == ir
    ensures forall w :: w in ir.wires ==> Unfixed(FixShape(StageTable(ir.stages), w), w)
    ensures var table := StageTable(ir.stages);
      forall key :: key in GroupKeys(table, ir.wires) ==> BundlePort(table, Group(table, ir.wires, key), key) == Ok(None)
  {
    var table := StageTable(ir.stages);
    var fix := w => FixShape(table, w);
    forall w | w in ir.wires && fix(w).Ok? && fix(w).value.fixes == [] ensures fix(w).value.wire == w {
      ShapeSilent(table, w);
    }
    RewriteSilent(ir.wires, fix);
    forall w | w in ir.wires ensures Unfixed(FixShape(table, w), w) { assert Unfixed(fix(w), w); }
    BundlingSilent(table, ir.stages, ir.wires, GroupKeys(table, ir.wires));
    WithoutNothing(ir.wires);
    assert ir.wires + [] == ir.wires;
  }

  lemma SilentExternals(ir: Pipeline)
    requires ExternalsBackfilled(ir).fixes == []
    ensures ExternalsBackfilled(ir).ir == ir && AllExternalDeclared(ir.externalInputs, ir.wires)
  {
    ExternalsComplete(ir);
    assert ir.externalInputs + [] == ir.externalInputs;
  }

  /** An empty report means that no pass had anything to do. */
  lemma SilentIsIdle(ir: Pipeline)
    requires RepairOf(ir).Ok? && RepairOf(ir).value.fixes == []
    ensures Idle(ir) && RepairOf(ir).value.ir == ir
  {
    var a := Deduped(ir);
    SilentDedupe(ir);
    SilentNames(ir);
    SilentInputs(ir);
    SilentShape(ir);
    SilentExternals(ir);
  }

  lemma IdleIsSettled(ir: Pipeline)
    ensures Idle(ir) <==> Settled(ir)
  {
    var table := StageTable(ir.stages);
    forall w | w in ir.wires && Lands(table, w)
      ensures WireSettled(table, ir.externalInputs, w)
              <==> Unfixed(FixNames(table, w), w) && Unfixed(FixShape(table, w), w) && ExternalDeclared(ir.externalInputs, w)
    {
      WireUnfixed(table, ir.externalInputs, w);
    }
    if Idle(ir) {
      forall i, j | 0 <= i < j < |ir.wires| ensures PairSettled(table, ir.wires[i], ir.wires[j]) {
        if Grouped(table, ir.wires[i]) { KeysOfWires(table, ir.wires, ir.wires[i]); }
        StayingPairsAreSettled(table, ir.wires, i, j);
      }
    }
    if Settled(ir) {
      forall key ensures BundlePort(table, Group(table, ir.wires, key), key) == Ok(None) {
        SettledPairsStay(table, ir.wires, key);
      }
    }
  }

  /** Main result. Repair returns a pipeline unchanged, reporting nothing,
      exactly if it is settled. */
  lemma LeftAloneIff(ir: Pipeline)
    ensures RepairOf(ir) == Ok(Repaired(ir, [])) <==> Settled(ir)
  {
    IdleIsSettled(ir);
    if RepairOf(ir) == Ok(Repaired(ir, [])) { SilentIsIdle(ir); }
    if Idle(ir) { IdleIsLeftAlone(ir); }
  }

  // ----- no silent change and no idle report -----

  /** Stages that repair gives back as they were have gone through every pass
      as they were. */
  lemma SameStages(ir: Pipeline)
    requires RepairOf(ir).Ok? && RepairOf(ir).value.ir.stages == ir.stages
    ensures var b := NamesRepaired(Deduped(ir).ir).value.ir; var c := InputsBackfilled(b).ir;
      b.stages == ir.stages && c.stages == ir.stages && ShapeRepaired(c).value.ir.stages == ir.stages
  {
    var a := Deduped(ir).ir;
    var b := NamesRepaired(a).value.ir;
    var c := InputsBackfilled(b).ir;
    NamesKeep(a);
    BackfillLands(b);
    ShapeKeeps(c);
    GrowsBothWays(ir.stages, c.stages);
  }

  lemma SameInputsMeanNone(ir: Pipeline)
    requires InputsBackfilled(ir).ir.stages == ir.stages
    ensures InputsBackfilled(ir) == Repaired(ir, []) && AllLand(ir.stages, ir.wires)
  {
    BackfillLands(ir);
    NothingToAdd(StageTable(ir.stages), ir.wires);
    NothingAdded(ir.stages);
  }

  lemma SameExternalsMeanNone(ir: Pipeline)
    requires ExternalsBackfilled(ir).ir.externalInputs == ir.externalInputs
    ensures ExternalsBackfilled(ir) == Repaired(ir, []) && AllExternalDeclared(ir.externalInputs, ir.wires)
  {
    ExternalsComplete(ir);
    NoExternalToAdd(StageTable(ir.stages), ir.externalInputs, ir.wires);
    assert ir.externalInputs + [] == ir.externalInputs;
  }

  lemma SameShapeStagesMeanNoBundle(ir: Pipeline)
    requires ShapeRepaired(ir).Ok? && ShapeRepaired(ir).value.ir.stages == ir.stages
    ensures var table := StageTable(ir.stages);
      var wires := RewriteAll(ir.wires, w => FixShape(table, w)).value.0;
      && ShapeRepaired(ir).value.ir.wires == wires
      && forall key :: key in GroupKeys(table, wires) ==> BundlePort(table, Group(table, wires, key), key) == Ok(None)
  {
    var table := StageTable(ir.stages);
    var wires := RewriteAll(ir.wires, w => FixShape(table, w)).value.0;
    BundlingSilent(table, ir.stages, wires, GroupKeys(table, wires));
    WithoutNothing(wires);
    assert wires + [] == wires;
  }

  lemma SameWire(ir: Pipeline, b: Pipeline, i: nat)
    requires NamesRepaired(ir).Ok? && b == NamesRepaired(ir).value.ir && i < |ir.wires|
    requires var all := RewriteAll(b.wires, w => FixShape(StageTable(ir.stages), w));
      all.Ok? && all.value.0 == ir.wires
    ensures Unfixed(FixNames(StageTable(ir.stages), ir.wires[i]), ir.wires[i])
    ensures Unfixed(FixShape(StageTable(ir.stages), ir.wires[i]), ir.wires[i])
  {
    var table := StageTable(ir.stages);
    var names := w => FixNames(table, w);
    var shape := w => FixShape(table, w);
    RewriteLength(ir.wires, names);
    RewriteEach(ir.wires, names, i);
    RewriteEach(b.wires, shape, i);
    NothingUndone(table, ir.wires[i]);
  }

  /** A pipeline that repair gives back as it was left nothing to do. */
  lemma UnchangedIsIdle(ir: Pipeline)
    requires RepairOf(ir).Ok? && RepairOf(ir).value.ir == ir
    ensures Idle(ir)
  {
    var a := Deduped(ir).ir;
    var b := NamesRepaired(a).value.ir;
    var c := InputsBackfilled(b).ir;
    var d := ShapeRepaired(c).value.ir;
    SameStages(ir);
    SameInputsMeanNone(b);
    SameShapeStagesMeanNoBundle(c);
    ExternalsComplete(d);
    NamesKeep(a);
    RewriteLength(c.wires, w => FixShape(StageTable(c.stages), w));
    DedupeMeaning(ir.wires);
    DedupeSilent(ir.wires);
    assert a == ir;
    SameExternalsMeanNone(d);
    forall w | w in ir.wires
      ensures Unfixed(FixNames(StageTable(ir.stages), w), w) && Unfixed(FixShape(StageTable(ir.stages), w), w)
    {
      var i :| 0 <= i < |ir.wires| && ir.wires[i] == w;
      SameWire(ir, b, i);
    }
    RewriteNothing(ir.wires, w => FixNames(StageTable(ir.stages), w));
    assert b == ir;
  }

  /** Repair reports something exactly if it changes something. */
  lemma ReportsIffChanges(ir: Pipeline)
    requires RepairOf(ir).Ok?
    ensures RepairOf(ir).value.fixes == [] <==> RepairOf(ir).value.ir == ir
  {
    if RepairOf(ir).value.fixes == [] { SilentIsIdle(ir); }
    if RepairOf(ir).value.ir == ir {
      UnchangedIsIdle(ir);
      IdleIsLeftAlone(ir);
    }
  }
}
