/** What the ports are that repair adds: their names, their types and the wires
    they are added for. */
module RepairPorts {
  import opened Ir
  import opened Tables
  import opened Repair
  import opened RepairTheory
  import opened DiffMeaning
  import RepairSources

  /** The first port of that name. */
  predicate FirstPort(ports: seq<Port>, n: string, p: Port) {
    exists i :: 0 <= i < |ports| && ports[i] == p && p.name == n && forall j :: 0 <= j < i ==> ports[j].name != n
  }

  lemma {:induction false} FindsFirst(ports: seq<Port>, n: string, p: Port)
    ensures FindPort(ports, n) == Some(p) <==> FirstPort(ports, n, p)
  {
    if ports != [] {
      FindsFirst(ports[1..], n, p);
      if ports[0].name == n {
        if FirstPort(ports, n, p) {
          var i :| 0 <= i < |ports| && ports[i] == p && p.name == n && forall j :: 0 <= j < i ==> ports[j].name != n;
          assert i == 0;
        }
      } else {
        if FirstPort(ports[1..], n, p) {
          var i :| 0 <= i < |ports| - 1 && ports[1..][i] == p && p.name == n && forall j :: 0 <= j < i ==> ports[1..][j].name != n;
          assert ports[i + 1] == p;
          forall j | 0 <= j < i + 1 ensures ports[j].name != n { if j > 0 { assert ports[1..][j - 1].name != n; } }
        }
        if FirstPort(ports, n, p) {
          var i :| 0 <= i < |ports| && ports[i] == p && p.name == n && forall j :: 0 <= j < i ==> ports[j].name != n;
          assert i > 0 && ports[1..][i - 1] == p;
          forall j | 0 <= j < i - 1 ensures ports[1..][j].name != n { assert ports[j + 1].name != n; }
        }
      }
    }
  }

  // ----- inputs -----

  /** The declared output a wire reads, other than by a gate's feedback port. */
  predicate ReadsOutput(stages: seq<Stage>, from: Source, p: Port) {
    from.FromStage? && from.port != "__gate_feedback__"
    && exists s :: s in stages && LastStage(stages, from.stage, s) && FirstPort(s.outputs, from.port, p)
  }

  /** The type is that of the declared output read, and "string" exactly if the
      wire reads no declared output. */
  ghost predicate TypeRead(stages: seq<Stage>, from: Source, typ: string) {
    (forall p :: ReadsOutput(stages, from, p) ==> typ == p.typ) && ((forall p :: !ReadsOutput(stages, from, p)) ==> typ == "string")
  }

  lemma LastStageIsMember(stages: seq<Stage>, n: string)
    requires n in StageTable(stages)
    ensures StageTable(stages)[n] in stages && LastStage(stages, n, StageTable(stages)[n])
  {
    StageLookup(stages, n, StageTable(stages)[n]);
  }

  lemma InferredTypeIsRead(stages: seq<Stage>, from: Source)
    ensures TypeRead(stages, from, InferType(StageTable(stages), from))
  {
    var table, typ := StageTable(stages), InferType(StageTable(stages), from);
    if from.FromStage? && from.port != "__gate_feedback__" && from.stage in table {
      LastStageIsMember(stages, from.stage);
      var found := FindPort(table[from.stage].outputs, from.port);
      if found.Some? {
        FindsFirst(table[from.stage].outputs, from.port, found.value);
        assert ReadsOutput(stages, from, found.value);
      }
    }
    forall p | ReadsOutput(stages, from, p) ensures typ == p.typ {
      var s :| s in stages && LastStage(stages, from.stage, s) && FirstPort(s.outputs, from.port, p);
      StageLookup(stages, from.stage, s);
      FindsFirst(s.outputs, from.port, p);
    }
  }

  /** The k-th wire is the first into that input. */
  predicate FirstInto(wires: seq<Wire>, to: Endpoint, k: nat) {
    k < |wires| && wires[k].to == to && forall j :: 0 <= j < k ==> wires[j].to != to
  }

  /** The port stands for the first wire into an input the stage lacks, with the
      type that wire reads. */
  ghost predicate StandsForInput(stages: seq<Stage>, wires: seq<Wire>, name: string, p: Port) {
    exists k: nat :: FirstInto(wires, Endpoint(name, p.name), k) && TypeRead(stages, wires[k].from, p.typ) && !p.optional
  }

  lemma StandsLater(stages: seq<Stage>, wires: seq<Wire>, w: Wire, name: string, p: Port)
    requires StandsForInput(stages, wires, name, p)
    ensures StandsForInput(stages, wires + [w], name, p)
  {
    var k: nat :| FirstInto(wires, Endpoint(name, p.name), k) && TypeRead(stages, wires[k].from, p.typ) && !p.optional;
    assert FirstInto(wires + [w], Endpoint(name, p.name), k);
  }

  /** What is to be added to a stage: for every input it lacks one port, for the
      first wire into it. */
  ghost predicate GoodAdditions(stages: seq<Stage>, wires: seq<Wire>, name: string, more: seq<Port>) {
    && Distinct(PortNames(more))
    && (more != [] ==> name in StageTable(stages))
    && forall p :: p in more ==>
         p.name !in PortNames(StageTable(stages)[name].inputs) && StandsForInput(stages, wires, name, p)
  }

  lemma {:induction false} AdditionFirst(stages: seq<Stage>, init: seq<Wire>, w: Wire, adds: map<string, seq<Port>>)
    requires adds == MissingInputs(StageTable(stages), init).0 && LacksInput(StageTable(stages), adds, w)
    ensures FirstInto(init + [w], w.to, |init|)
  {
    forall j | 0 <= j < |init| && init[j].to.stage == w.to.stage ensures init[j].to.port != w.to.port {
      NothingLacks(StageTable(stages), init, init[j]);
    }
  }

  lemma {:induction false} AdditionsAreGood(stages: seq<Stage>, wires: seq<Wire>, name: string)
    ensures GoodAdditions(stages, wires, name, Additions(MissingInputs(StageTable(stages), wires).0, name))
  {
    if wires != [] {
      var table := StageTable(stages);
      var init, w := wires[..|wires| - 1], wires[|wires| - 1];
      assert wires == init + [w];
      AdditionsAreGood(stages, init, name);
      var adds := MissingInputs(table, init).0;
      var old' := Additions(adds, name);
      forall p | p in old' ensures StandsForInput(stages, wires, name, p) { StandsLater(stages, init, w, name, p); }
      if LacksInput(table, adds, w) && w.to.stage == name {
        var p := Port(w.to.port, InferType(table, w.from), false);
        AdditionFirst(stages, init, w, adds);
        InferredTypeIsRead(stages, w.from);
        assert Endpoint(name, p.name) == w.to;
        assert StandsForInput(stages, wires, name, p);
        PortNamesConcat(old', [p]);
        assert PortNames([p]) == [p.name];
      }
    }
  }

  /** The pipeline as it is when missing inputs are added: duplicates removed and
      port names repaired. */
  function BeforeBackfill(ir: Pipeline): Pipeline
    requires NamesRepaired(Deduped(ir).ir).Ok?
  {
    NamesRepaired(Deduped(ir).ir).value.ir
  }

  /** In a repaired pipeline, the inputs a stage has beyond its own are, each
      once, those that wires lead to and it lacked; each has the type of the
      declared output that the first such wire reads, or else "string". */
  lemma AddedInputs(ir: Pipeline, i: nat)
    requires RepairOf(ir).Ok? && i < |ir.stages|
    ensures |RepairOf(ir).value.ir.stages| == |ir.stages|
    ensures ir.stages[i].inputs <= RepairOf(ir).value.ir.stages[i].inputs
    ensures GoodAdditions(ir.stages, BeforeBackfill(ir).wires, ir.stages[i].name,
                          RepairOf(ir).value.ir.stages[i].inputs[|ir.stages[i].inputs|..])
  {
    var b := BeforeBackfill(ir);
    var c := InputsBackfilled(b).ir;
    NamesKeep(Deduped(ir).ir);
    ShapeKeeps(c);
    ExternalsComplete(ShapeRepaired(c).value.ir);
    var more := Additions(MissingInputs(StageTable(b.stages), b.wires).0, ir.stages[i].name);
    AdditionsAreGood(ir.stages, b.wires, ir.stages[i].name);
    assert c.stages[i].inputs == ir.stages[i].inputs + more;
    assert RepairOf(ir).value.ir.stages[i].inputs == c.stages[i].inputs;
  }

  // ----- external inputs -----

  /** The input a wire leads to. */
  predicate LeadsTo(stages: seq<Stage>, to: Endpoint, p: Port) {
    exists s :: s in stages && LastStage(stages, to.stage, s) && FirstPort(s.inputs, to.port, p)
  }

  /** The type is that of the input the wire leads to, and "string" exactly if
      there is none. */
  ghost predicate TypeTaken(stages: seq<Stage>, to: Endpoint, typ: string) {
    (forall p :: LeadsTo(stages, to, p) ==> typ == p.typ) && ((forall p :: !LeadsTo(stages, to, p)) ==> typ == "string")
  }

  lemma ExternalTypeIsTaken(stages: seq<Stage>, w: Wire)
    ensures TypeTaken(stages, w.to, ExternalType(StageTable(stages), w))
  {
    var table, typ := StageTable(stages), ExternalType(StageTable(stages), w);
    if w.to.stage in table {
      LastStageIsMember(stages, w.to.stage);
      var found := FindPort(table[w.to.stage].inputs, w.to.port);
      if found.Some? {
        FindsFirst(table[w.to.stage].inputs, w.to.port, found.value);
        assert LeadsTo(stages, w.to, found.value);
      }
    }
    forall p | LeadsTo(stages, w.to, p) ensures typ == p.typ {
      var s :| s in stages && LastStage(stages, w.to.stage, s) && FirstPort(s.inputs, w.to.port, p);
      StageLookup(stages, w.to.stage, s);
      FindsFirst(s.inputs, w.to.port, p);
    }
  }

  /** The k-th wire is the first to read that external input. */
  predicate FirstFrom(wires: seq<Wire>, name: string, k: nat) {
    k < |wires| && wires[k].from == External(name) && forall j :: 0 <= j < k ==> wires[j].from != External(name)
  }

  /** The port stands for the first wire that reads an undeclared input, with
      the type that wire leads to. */
  ghost predicate StandsForExternal(stages: seq<Stage>, wires: seq<Wire>, p: Port) {
    exists k: nat :: FirstFrom(wires, p.name, k) && TypeTaken(stages, wires[k].to, p.typ) && !p.optional
  }

  ghost predicate GoodExternals(stages: seq<Stage>, declared: seq<string>, wires: seq<Wire>, more: seq<Port>) {
    Distinct(PortNames(more)) && forall p :: p in more ==> p.name !in declared && StandsForExternal(stages, wires, p)
  }

  lemma ExternalLater(stages: seq<Stage>, wires: seq<Wire>, w: Wire, p: Port)
    requires StandsForExternal(stages, wires, p)
    ensures StandsForExternal(stages, wires + [w], p)
  {
    var k: nat :| FirstFrom(wires, p.name, k) && TypeTaken(stages, wires[k].to, p.typ) && !p.optional;
    assert FirstFrom(wires + [w], p.name, k);
  }

  lemma {:induction false} ExternalsAreGood(stages: seq<Stage>, declared: seq<string>, wires: seq<Wire>)
    ensures GoodExternals(stages, declared, wires, MissingExternals(StageTable(stages), declared, wires))
  {
    if wires != [] {
      var table := StageTable(stages);
      var init, w := wires[..|wires| - 1], wires[|wires| - 1];
      assert wires == init + [w];
      ExternalsAreGood(stages, declared, init);
      var rest := MissingExternals(table, declared, init);
      forall p | p in rest ensures StandsForExternal(stages, wires, p) { ExternalLater(stages, init, w, p); }
      if w.from.External? && w.from.port !in declared && w.from.port !in PortNames(rest) {
        var p := Port(w.from.port, ExternalType(table, w), false);
        forall j | 0 <= j < |init| && init[j].from.External? ensures init[j].from.port != w.from.port {
          NoExternalMissing(table, declared, init, init[j]);
        }
        ExternalTypeIsTaken(stages, w);
        assert FirstFrom(wires, p.name, |init|);
        PortNamesConcat(rest, [p]);
        assert PortNames([p]) == [p.name];
      }
    }
  }

  /** In a repaired pipeline, the external inputs beyond the original ones are,
      each once, those that wires read and that were not declared; each has the
      type of the input that the first such wire leads to, or else "string". */
  lemma AddedExternalInputs(ir: Pipeline)
    requires RepairOf(ir).Ok?
    ensures var r := RepairOf(ir).value.ir;
      && ir.externalInputs <= r.externalInputs
      && GoodExternals(r.stages, PortNames(ir.externalInputs), r.wires, r.externalInputs[|ir.externalInputs|..])
  {
    var c := InputsBackfilled(BeforeBackfill(ir)).ir;
    var d := ShapeRepaired(c).value.ir;
    NamesKeep(Deduped(ir).ir);
    ShapeKeeps(c);
    ExternalsComplete(d);
    ExternalsAreGood(d.stages, PortNames(d.externalInputs), d.wires);
    var more := MissingExternals(StageTable(d.stages), PortNames(d.externalInputs), d.wires);
    assert (d.externalInputs + more)[|d.externalInputs|..] == more;
  }

  // ----- bundles -----

  /** An object type with the names and types of some ports as its fields. */
  function ObjectType(fields: seq<Port>): string {
    "{ " + FieldsText(fields) + " }"
  }

  function FieldsText(fields: seq<Port>): string {
    if fields == [] then ""
    else fields[0].name + ": " + fields[0].typ + if |fields| == 1 then "" else "; " + FieldsText(fields[1..])
  }

  lemma {:induction false} FieldsTextPush(fields: seq<Port>, p: Port)
    requires fields != []
    ensures FieldsText(fields + [p]) == FieldsText(fields) + "; " + p.name + ": " + p.typ
  {
    var head := fields[0].name + ": " + fields[0].typ;
    var last := p.name + ": " + p.typ;
    assert (fields + [p])[1..] == fields[1..] + [p];
    assert FieldsText([p]) == last;
    Associative("; ", p.name + ": ", p.typ);
    if |fields| == 1 {
      assert fields[1..] + [p] == [p];
    } else {
      FieldsTextPush(fields[1..], p);
      var tail := FieldsText(fields[1..]);
      Associative("; ", tail, "; " + last);
      Associative(head, "; " + tail, "; " + last);
      Associative(tail, "; ", last);
      Associative(head + ("; " + tail), "; ", last);
    }
    Spread(FieldsText(fields), p);
    if |fields| > 1 { Spread(FieldsText(fields[1..]), p); }
  }

  lemma Associative(a: string, b: string, c: string)
    ensures a + (b + c) == (a + b) + c
  {
  }

  lemma Spread(text: string, p: Port)
    ensures text + "; " + p.name + ": " + p.typ == text + ("; " + (p.name + ": " + p.typ))
  {
  }

  lemma {:induction false} FieldListText(fields: seq<Port>)
    ensures FieldList(fields) == FieldsText(fields)
  {
    if |fields| > 1 {
      var init, last := fields[..|fields| - 1], fields[|fields| - 1];
      assert fields == init + [last];
      FieldListText(init);
      FieldsTextPush(init, last);
    }
  }

  /** The first wire of the group to read that output. */
  predicate FirstReader(group: seq<Wire>, name: string, k: nat) {
    k < |group| && group[k].from.port == name && forall j :: 0 <= j < k ==> group[j].from.port != name
  }

  predicate IsRead(group: seq<Wire>, name: string) {
    exists w :: w in group && w.from.port == name
  }

  /** The first wire to read the one comes before the first to read the other. */
  ghost predicate ReadBefore(group: seq<Wire>, a: string, b: string) {
    forall k: nat, l: nat :: FirstReader(group, a, k) && FirstReader(group, b, l) ==> k < l
  }

  /** The fields are the declared outputs that the wires read, in the order in
      which they are first read. */
  ghost predicate AreFields(outputs: seq<Port>, group: seq<Wire>, fields: seq<Port>) {
    && (forall p :: p in fields <==> FirstPort(outputs, p.name, p) && IsRead(group, p.name))
    && (forall i, j :: 0 <= i < j < |fields| ==> ReadBefore(group, fields[i].name, fields[j].name))
  }

  lemma ReaderLater(group: seq<Wire>, w: Wire, name: string, k: nat)
    ensures FirstReader(group, name, k) ==> FirstReader(group + [w], name, k)
    ensures FirstReader(group + [w], name, k) ==>
              FirstReader(group, name, k) || (k == |group| && w.from.port == name && forall l: nat :: !FirstReader(group, name, l))
  {
    if FirstReader(group, name, k) {
      forall j | 0 <= j < k ensures (group + [w])[j].from.port != name { assert group[j].from.port != name; }
    }
    if FirstReader(group + [w], name, k) {
      forall j | 0 <= j < k && j < |group| ensures group[j].from.port != name { assert (group + [w])[j].from.port != name; }
    }
  }

  lemma ReadBeforeLater(group: seq<Wire>, w: Wire, a: string, b: string)
    requires ReadBefore(group, a, b) && IsRead(group, a) && IsRead(group, b)
    ensures ReadBefore(group + [w], a, b)
  {
    forall k: nat, l: nat | FirstReader(group + [w], a, k) && FirstReader(group + [w], b, l) ensures k < l {
      ReaderLater(group, w, a, k);
      ReaderLater(group, w, b, l);
      ReaderExists(group, a);
      ReaderExists(group, b);
    }
  }

  lemma ReaderExists(group: seq<Wire>, name: string)
    requires IsRead(group, name)
    ensures exists k: nat :: FirstReader(group, name, k)
  {
    var w :| w in group && w.from.port == name;
    var k: nat :| k < |group| && group[k] == w;
    SomeReader(group, k);
  }

  lemma ReadLast(group: seq<Wire>, w: Wire, a: string)
    requires IsRead(group, a) && !IsRead(group, w.from.port)
    ensures ReadBefore(group + [w], a, w.from.port)
  {
    forall k: nat, l: nat | FirstReader(group + [w], a, k) && FirstReader(group + [w], w.from.port, l) ensures k < l {
      ReaderLater(group, w, a, k);
      ReaderExists(group, a);
      assert forall t :: 0 <= t < |group| ==> (group + [w])[t] == group[t] && group[t] in group;
    }
  }

  lemma {:induction false} SomeReader(group: seq<Wire>, k: nat)
    requires k < |group|
    ensures exists l: nat :: FirstReader(group, group[k].from.port, l)
  {
    if j: nat :| j < k && group[j].from.port == group[k].from.port {
      SomeReader(group, j);
    } else {
      assert FirstReader(group, group[k].from.port, k);
    }
  }

  lemma FieldsMembers(outputs: seq<Port>, group: seq<Wire>, w: Wire, p: Port)
    requires AreFields(outputs, group, Fields(outputs, group))
    ensures p in Fields(outputs, group + [w]) <==> FirstPort(outputs, p.name, p) && IsRead(group + [w], p.name)
  {
    assert (group + [w])[..|group|] == group;
    var rest, found := Fields(outputs, group), FindPort(outputs, w.from.port);
    assert IsRead(group + [w], p.name) <==> IsRead(group, p.name) || w.from.port == p.name by {
      if IsRead(group, p.name) {
        var v :| v in group && v.from.port == p.name;
        assert v in group + [w];
      }
      assert w in group + [w];
    }
    if found.Some? {
      FindsFirst(outputs, w.from.port, found.value);
      if found.value.name in PortNames(rest) {
        var i :| 0 <= i < |rest| && PortNames(rest)[i] == found.value.name;
        assert rest[i] in rest;
      }
    }
    if FirstPort(outputs, p.name, p) { FindsFirst(outputs, p.name, p); }
    forall q | q in rest ensures FirstPort(outputs, q.name, q) && FindPort(outputs, q.name) == Some(q) {
      FindsFirst(outputs, q.name, q);
    }
  }

  lemma {:induction false} FieldsAre(outputs: seq<Port>, group: seq<Wire>)
    ensures AreFields(outputs, group, Fields(outputs, group))
  {
    if group != [] {
      var init, w := group[..|group| - 1], group[|group| - 1];
      assert group == init + [w];
      FieldsAre(outputs, init);
      var rest, fields := Fields(outputs, init), Fields(outputs, group);
      forall p ensures p in fields <==> FirstPort(outputs, p.name, p) && IsRead(group, p.name) {
        FieldsMembers(outputs, init, w, p);
      }
      forall i, j | 0 <= i < j < |fields| ensures ReadBefore(group, fields[i].name, fields[j].name) {
        FieldsInOrder(outputs, init, w, i, j);
      }
    }
  }

  lemma FieldsInOrder(outputs: seq<Port>, init: seq<Wire>, w: Wire, i: nat, j: nat)
    requires AreFields(outputs, init, Fields(outputs, init)) && i < j < |Fields(outputs, init + [w])|
    ensures var fields := Fields(outputs, init + [w]); ReadBefore(init + [w], fields[i].name, fields[j].name)
  {
    assert (init + [w])[..|init|] == init;
    var rest, fields := Fields(outputs, init), Fields(outputs, init + [w]);
    assert fields[i] == rest[i] && rest[i] in rest;
    if j < |rest| {
      assert fields[j] == rest[j] && rest[j] in rest;
      ReadBeforeLater(init, w, fields[i].name, fields[j].name);
    } else {
      var p := FindPort(outputs, w.from.port).value;
      FindsFirst(outputs, w.from.port, p);
      assert fields[j] == p && p.name !in PortNames(rest);
      if IsRead(init, p.name) {
        assert p in rest;
        RepairSources.PortNamed(rest, p);
      }
      ReadLast(init, w, fields[i].name);
    }
  }

  /** All wires from the stage to that input, as they are when outputs are
      bundled. */
  ghost predicate AllBetween(wires: seq<Wire>, name: string, to: Endpoint, group: seq<Wire>) {
    forall w :: w in group <==> w in wires && w.from.FromStage? && w.from.stage == name && w.to == to
  }

  /** The output bundles what at least two wires from the stage to one input
      read, under the name of that input, which takes an array of objects. */
  ghost predicate StandsForBundle(table: Table, wires: seq<Wire>, name: string, p: Port, to: Endpoint,
                                  group: seq<Wire>, fields: seq<Port>) {
    && name in table && table[name].fanout && to.port == p.name && p.name !in PortNames(table[name].outputs)
    && AllBetween(wires, name, to, group) && |group| >= 2 && |fields| >= 2
    && AreFields(table[name].outputs, group, fields) && p == Port(p.name, ObjectType(fields), false)
    && IsObjectArray(TargetType(table, group[0]))
  }

  ghost predicate IsBundle(table: Table, wires: seq<Wire>, name: string, p: Port, added: seq<Wire>) {
    exists to, group, fields :: StandsForBundle(table, wires, name, p, to, group, fields)
                                && Wire(FromStage(name, p.name), to, None) in added
  }

  ghost predicate BundlesTold(table: Table, stages: seq<Stage>, wires: seq<Wire>, b: Bundling) {
    && |b.stages| == |stages|
    && forall i :: 0 <= i < |stages| ==>
         && b.stages[i].name == stages[i].name && stages[i].outputs <= b.stages[i].outputs
         && forall p :: p in b.stages[i].outputs[|stages[i].outputs|..] ==> IsBundle(table, wires, stages[i].name, p, b.added)
  }

  lemma {:induction false} GroupIsBetween(table: Table, wires: seq<Wire>, key: GroupKey)
    requires key.from in table && table[key.from].fanout
    ensures AllBetween(wires, key.from, key.to, Group(table, wires, key))
  {
    if wires != [] {
      GroupIsBetween(table, wires[..|wires| - 1], key);
      assert wires == wires[..|wires| - 1] + [wires[|wires| - 1]];
    }
  }

  lemma BundleTold(table: Table, wires: seq<Wire>, key: GroupKey, p: Port)
    requires BundlePort(table, Group(table, wires, key), key) == Ok(Some(p))
    ensures var group := Group(table, wires, key);
      StandsForBundle(table, wires, key.from, p, key.to, group, Fields(table[key.from].outputs, group))
  {
    var group := Group(table, wires, key);
    GroupMembers(table, wires, key);
    assert group[0] in group;
    GroupIsBetween(table, wires, key);
    FieldsAre(table[key.from].outputs, group);
    FieldListText(Fields(table[key.from].outputs, group));
  }

  lemma BundleLater(table: Table, wires: seq<Wire>, name: string, p: Port, added: seq<Wire>, w: Wire)
    requires IsBundle(table, wires, name, p, added)
    ensures IsBundle(table, wires, name, p, added + [w])
  {
    var to, group, fields :| StandsForBundle(table, wires, name, p, to, group, fields)
                             && Wire(FromStage(name, p.name), to, None) in added;
    assert Wire(FromStage(name, p.name), to, None) in added + [w];
  }

  lemma OneMoreBundle(table: Table, stages: seq<Stage>, wires: seq<Wire>, b: Bundling, key: GroupKey, p: Port, i: nat)
    requires BundlesTold(table, stages, wires, b) && i < |stages|
    requires BundlePort(table, Group(table, wires, key), key) == Ok(Some(p))
    ensures var c := Bundle(b, Group(table, wires, key), key, p);
      && c.stages[i].name == stages[i].name && stages[i].outputs <= c.stages[i].outputs
      && forall q :: q in c.stages[i].outputs[|stages[i].outputs|..] ==> IsBundle(table, wires, stages[i].name, q, c.added)
  {
    var group := Group(table, wires, key);
    var c, n, s := Bundle(b, group, key, p), |stages[i].outputs|, b.stages[i];
    var w := Wire(FromStage(key.from, p.name), key.to, None);
    BundleTold(table, wires, key, p);
    assert c.added == b.added + [w] && w in c.added;
    assert IsBundle(table, wires, key.from, p, c.added);
    forall q | q in s.outputs[n..] ensures IsBundle(table, wires, s.name, q, c.added) {
      BundleLater(table, wires, s.name, q, b.added, w);
    }
    OutputAppended(b.stages, key.from, p, i, n);
  }

  lemma OutputAppended(stages: seq<Stage>, name: string, p: Port, i: nat, n: nat)
    requires i < |stages| && n <= |stages[i].outputs|
    ensures var s, t := stages[i], WithOutput(stages, name, p)[i];
      t.name == s.name && s.outputs <= t.outputs && t.outputs[n..] == s.outputs[n..] + (if s.name == name then [p] else [])
  {
  }

  lemma {:induction false} AllBundlesTold(table: Table, stages: seq<Stage>, wires: seq<Wire>, keys: seq<GroupKey>)
    requires BundleAll(table, stages, wires, keys).Ok?
    ensures BundlesTold(table, stages, wires, BundleAll(table, stages, wires, keys).value)
  {
    if keys != [] {
      var init, key := keys[..|keys| - 1], keys[|keys| - 1];
      AllBundlesTold(table, stages, wires, init);
      var b := BundleAll(table, stages, wires, init).value;
      var port := BundlePort(table, Group(table, wires, key), key).value;
      if port.Some? {
        forall i | 0 <= i < |stages| { OneMoreBundle(table, stages, wires, b, key, port.value, i); }
      }
    }
  }

  /** The pipeline as it is when outputs are bundled, and its wires by then. */
  function BeforeShape(ir: Pipeline): Pipeline
    requires NamesRepaired(Deduped(ir).ir).Ok?
  {
    InputsBackfilled(BeforeBackfill(ir)).ir
  }

  function WiresToBundle(ir: Pipeline): seq<Wire>
    requires RepairOf(ir).Ok?
  {
    var c := BeforeShape(ir);
    RewriteAll(c.wires, w => FixShape(StageTable(c.stages), w)).value.0
  }

  /** In a repaired pipeline, each output a stage has beyond its own bundles the
      outputs that two or more wires from it to one input read, as an object
      with those outputs' names and types as fields, and a wire leads from it
      to that input. */
  lemma AddedOutputs(ir: Pipeline, i: nat, p: Port)
    requires RepairOf(ir).Ok? && i < |ir.stages|
    ensures |RepairOf(ir).value.ir.stages| == |ir.stages|
    ensures ir.stages[i].outputs <= RepairOf(ir).value.ir.stages[i].outputs
    ensures p in RepairOf(ir).value.ir.stages[i].outputs[|ir.stages[i].outputs|..] ==>
              IsBundle(StageTable(BeforeShape(ir).stages), WiresToBundle(ir), ir.stages[i].name, p, RepairOf(ir).value.ir.wires)
  {
    var c, wires := BeforeShape(ir), WiresToBundle(ir);
    var table := StageTable(c.stages);
    var b := BundleAll(table, c.stages, wires, GroupKeys(table, wires)).value;
    NamesKeep(Deduped(ir).ir);
    BackfillLands(BeforeBackfill(ir));
    ExternalsComplete(ShapeRepaired(c).value.ir);
    AllBundlesTold(table, c.stages, wires, GroupKeys(table, wires));
    SameOutputs(ir, i);
    var r := RepairOf(ir).value.ir;
    assert r.stages == b.stages && forall w :: w in b.added ==> w in r.wires;
    if p in r.stages[i].outputs[|ir.stages[i].outputs|..] {
      var to, group, fields :| StandsForBundle(table, wires, ir.stages[i].name, p, to, group, fields)
                               && Wire(FromStage(ir.stages[i].name, p.name), to, None) in b.added;
    }
  }

  lemma SameOutputs(ir: Pipeline, i: nat)
    requires NamesRepaired(Deduped(ir).ir).Ok? && i < |ir.stages|
    ensures |BeforeShape(ir).stages| == |ir.stages|
    ensures BeforeShape(ir).stages[i].outputs == ir.stages[i].outputs && BeforeShape(ir).stages[i].name == ir.stages[i].name
  {
    NamesKeep(Deduped(ir).ir);
  }
}
