/** What repair takes for similar, for a type and for an answer: the choices of
    its passes, told of names, texts and wires directly, and when it gives up. */
module RepairMeaning {
  import opened Text
  import opened Ir
  import opened Tables
  import opened Repair
  import opened RepairTheory
  import opened RepairSources
  import opened RepairPorts
  import RepairFixpoint

  // ----- duplicate wires -----

  predicate FirstWire(wires: seq<Wire>, w: Wire, k: nat) {
    k < |wires| && wires[k] == w && forall j :: 0 <= j < k ==> wires[j] != w
  }

  /** The list holds the one wire before the other. */
  predicate HasBefore(wires: seq<Wire>, v: Wire, w: Wire) {
    exists i, j :: 0 <= i < j < |wires| && wires[i] == v && wires[j] == w
  }

  lemma BeforePushed(wires: seq<Wire>, v: Wire, w: Wire, x: Wire)
    ensures HasBefore(wires, v, w) ==> HasBefore(wires + [x], v, w)
    ensures v in wires ==> HasBefore(wires + [x], v, x)
  {
    if HasBefore(wires, v, w) {
      var i, j :| 0 <= i < j < |wires| && wires[i] == v && wires[j] == w;
      assert (wires + [x])[i] == v && (wires + [x])[j] == w;
    }
    if v in wires {
      var i :| 0 <= i < |wires| && wires[i] == v;
      assert (wires + [x])[i] == v && (wires + [x])[|wires|] == x;
    }
  }

  /** Of two wires the one that comes first is kept first. */
  lemma {:induction false} DedupeKeepsOrder(wires: seq<Wire>, v: Wire, w: Wire, k: nat, l: nat)
    requires FirstWire(wires, v, k) && FirstWire(wires, w, l) && k < l
    ensures HasBefore(Dedupe(wires), v, w)
  {
    var n := |wires| - 1;
    var init := wires[..n];
    DedupeMeaning(init);
    BeforePushed(Dedupe(init), v, w, wires[n]);
    if l < n {
      assert FirstWire(init, v, k) && FirstWire(init, w, l);
      DedupeKeepsOrder(init, v, w, k, l);
    } else {
      assert init[k] == v && v in init && v in Dedupe(init);
      assert w !in init;
    }
  }

  // ----- similar names -----

  predicate SameButCase(a: char, b: char) {
    a == b || ('A' <= a <= 'Z' && b as int == a as int + 32) || ('A' <= b <= 'Z' && a as int == b as int + 32)
  }

  /** `t` occurs in `s` at place `i` but for the case of letters. */
  predicate OccursAnyCase(s: string, t: string, i: nat) {
    i + |t| <= |s| && forall k :: 0 <= k < |t| ==> SameButCase(s[i + k], t[k])
  }

  lemma LowerSame(a: char, b: char)
    ensures LowerChar(a) == LowerChar(b) <==> SameButCase(a, b)
  {
  }

  lemma LowerOccurs(s: string, t: string, i: nat)
    ensures OccursAt(Lower(s), Lower(t), i) <==> OccursAnyCase(s, t, i)
  {
    if i + |t| <= |s| {
      var x, y := Lower(s)[i..i + |t|], Lower(t);
      forall k | 0 <= k < |t| ensures x[k] == y[k] <==> SameButCase(s[i + k], t[k]) {
        LowerSame(s[i + k], t[k]);
      }
      assert x == y <==> forall k :: 0 <= k < |t| ==> x[k] == y[k];
    }
  }

  /** Two names are similar exactly if one occurs in the other but for the case
      of letters. */
  lemma SimilarMeaning(a: string, b: string)
    ensures Similar(a, b) <==> (exists i: nat :: OccursAnyCase(a, b, i)) || exists i: nat :: OccursAnyCase(b, a, i)
  {
    forall i: nat ensures OccursAt(Lower(a), Lower(b), i) <==> OccursAnyCase(a, b, i) { LowerOccurs(a, b, i); }
    forall i: nat ensures OccursAt(Lower(b), Lower(a), i) <==> OccursAnyCase(b, a, i) { LowerOccurs(b, a, i); }
    assert Lower(a) == Lower(b) ==> OccursAt(Lower(a), Lower(b), 0) by { assert Lower(a)[0..|a|] == Lower(a); }
    assert EndsWith(Lower(a), Lower(b)) ==> OccursAt(Lower(a), Lower(b), |a| - |b|) by {
      if |b| <= |a| { assert Lower(a)[|a| - |b|..|a| - |b| + |b|] == Lower(a)[|a| - |b|..]; }
    }
    assert EndsWith(Lower(b), Lower(a)) ==> OccursAt(Lower(b), Lower(a), |b| - |a|) by {
      if |a| <= |b| { assert Lower(b)[|b| - |a|..|b| - |a| + |a|] == Lower(b)[|b| - |a|..]; }
    }
  }

  // ----- sources of stages without fanout -----

  /** A wire's source port that its stage, no fanout, does not declare: repair
      gives up exactly when two outputs are similar to it, renames it exactly
      when one is, and then to that one; other sources are not touched. */
  lemma SourceRenameMeaning(table: Table, w: Wire)
    ensures var unknown := w.from.FromStage? && w.from.stage in table && !table[w.from.stage].fanout
                           && w.from.port !in PortNames(table[w.from.stage].outputs);
      var names := if w.from.FromStage? && w.from.stage in table then PortNames(table[w.from.stage].outputs) else [];
      && (FixSource(table, w).Thrown? <==> unknown && Ambiguous(names, w.from.port))
      && (FixSource(table, w).Ok? ==>
            var v := FixSource(table, w).value.wire;
            && v.to == w.to && v.guard == w.guard
            && (v != w ==> unknown && v.from.FromStage? && v.from.stage == w.from.stage
                           && v.from.port in names && Similar(v.from.port, w.from.port))
            && (unknown && v == w ==> forall n :: n in names ==> !Similar(n, w.from.port)))
  {
    if w.from.FromStage? && w.from.stage in table {
      var names := PortNames(table[w.from.stage].outputs);
      CandidatesMeaning(names, w.from.port);
      var found := Candidates(names, w.from.port);
      assert |found| == 1 ==> found[0] in found;
      forall n | n in names && Similar(n, w.from.port) ensures n in found { }
    }
  }

  // ----- types -----

  lemma {:induction false} CompactConcat(a: string, b: string)
    ensures Compact(a + b) == Compact(a) + Compact(b)
  {
    if b == "" {
      assert a + b == a;
    } else {
      assert (a + b)[..|a + b| - 1] == a + b[..|b| - 1];
      CompactConcat(a, b[..|b| - 1]);
    }
  }

  /** A type is looked at without its white space. */
  lemma {:induction false} CompactMeaning(t: string)
    ensures forall c :: c in Compact(t) <==> c in t && !IsSpace(c)
    ensures (forall k :: 0 <= k < |t| ==> !IsSpace(t[k])) ==> Compact(t) == t
  {
    if t != "" {
      CompactMeaning(t[..|t| - 1]);
      assert t == t[..|t| - 1] + [t[|t| - 1]];
    }
  }

  ghost predicate Begins(s: string, t: string) {
    exists rest: string :: s == t + rest
  }

  lemma BeginsIsPrefix(s: string, t: string)
    ensures Begins(s, t) <==> t <= s
  {
    if t <= s { assert s == t + s[|t|..]; }
  }

  /** The types repair knows by their look. */
  lemma TypesMeaning(t: string)
    ensures var c := Compact(t);
      && (IsObjectType(t) <==> Begins(c, "{"))
      && (IsObjectArray(t) <==> Begins(c, "Array<{") || Begins(c, "Array<Record<") || exists x: string :: c == "{" + x + "}[]")
      && (IsScalarArray(t) <==>
            || c == "string[]" || c == "number[]" || c == "boolean[]"
            || c == "Array<string>" || c == "Array<number>" || c == "Array<boolean>")
  {
    var c := Compact(t);
    BeginsIsPrefix(c, "{");
    BeginsIsPrefix(c, "Array<{");
    BeginsIsPrefix(c, "Array<Record<");
    if |c| >= 4 && c[0] == '{' && EndsWith(c, "}[]") { assert c == "{" + c[1..|c| - 3] + "}[]"; }
    if x: string :| c == "{" + x + "}[]" {
      assert |c| == |x| + 4 && c[0] == '{' && c[|c| - 3..] == "}[]";
    }
  }

  // ----- sources of fanout stages -----

  /** The first of the ports for which the test holds. */
  ghost predicate FirstWith(ports: seq<Port>, test: Port -> bool, p: Port) {
    exists i :: 0 <= i < |ports| && ports[i] == p && test(p) && forall j :: 0 <= j < i ==> !test(ports[j])
  }

  lemma {:induction false} FirstWithinMeaning(outputs: seq<Port>, lower: string)
    ensures FirstWithin(outputs, lower).Some? ==>
              FirstWith(outputs, (p: Port) => Includes(lower, Lower(p.name)), FirstWithin(outputs, lower).value)
    ensures FirstAround(outputs, lower).Some? ==>
              FirstWith(outputs, (p: Port) => Includes(Lower(p.name), lower), FirstAround(outputs, lower).value)
  {
    if outputs != [] {
      FirstWithinMeaning(outputs[1..], lower);
      FirstWithShift(outputs, (p: Port) => Includes(lower, Lower(p.name)));
      FirstWithShift(outputs, (p: Port) => Includes(Lower(p.name), lower));
    }
  }

  lemma FirstWithShift(ports: seq<Port>, test: Port -> bool)
    requires ports != []
    ensures test(ports[0]) ==> FirstWith(ports, test, ports[0])
    ensures !test(ports[0]) ==> forall p :: FirstWith(ports[1..], test, p) ==> FirstWith(ports, test, p)
  {
    if !test(ports[0]) {
      forall p | FirstWith(ports[1..], test, p) ensures FirstWith(ports, test, p) {
        var i :| 0 <= i < |ports| - 1 && ports[1..][i] == p && test(p) && forall j :: 0 <= j < i ==> !test(ports[1..][j]);
        forall j | 0 <= j < i + 1 ensures !test(ports[j]) { if j > 0 { assert ports[j] == ports[1..][j - 1]; } }
        assert ports[i + 1] == p;
      }
    }
  }

  lemma IncludesMeaning(a: string, b: string)
    ensures Includes(Lower(a), Lower(b)) <==> exists i: nat :: OccursAnyCase(a, b, i)
  {
    forall i: nat ensures OccursAt(Lower(a), Lower(b), i) <==> OccursAnyCase(a, b, i) { LowerOccurs(a, b, i); }
  }

  predicate TwoObjects(ports: seq<Port>) {
    exists i, j :: 0 <= i < j < |ports| && IsObjectType(ports[i].typ) && IsObjectType(ports[j].typ)
  }

  lemma TwoObjectsPushed(init: seq<Port>, last: Port)
    ensures TwoObjects(init + [last])
            <==> TwoObjects(init) || (IsObjectType(last.typ) && exists p :: p in init && IsObjectType(p.typ))
  {
    var ports := init + [last];
    if TwoObjects(init) {
      var i, j :| 0 <= i < j < |init| && IsObjectType(init[i].typ) && IsObjectType(init[j].typ);
      assert ports[i] == init[i] && ports[j] == init[j];
    }
    if p :| p in init && IsObjectType(p.typ) && IsObjectType(last.typ) {
      var i :| 0 <= i < |init| && init[i] == p;
      assert ports[i] == p && ports[|init|] == last;
    }
    if TwoObjects(ports) {
      var i, j :| 0 <= i < j < |ports| && IsObjectType(ports[i].typ) && IsObjectType(ports[j].typ);
      assert init[i] == ports[i] && init[i] in init;
      if j < |init| { assert init[j] == ports[j]; }
    }
  }

  lemma {:induction false} ObjectsMeaning(ports: seq<Port>)
    ensures forall p :: p in ObjectOutputs(ports) <==> p in ports && IsObjectType(p.typ)
    ensures |ObjectOutputs(ports)| > 1 <==> TwoObjects(ports)
  {
    if ports != [] {
      var init, last := ports[..|ports| - 1], ports[|ports| - 1];
      assert ports == init + [last];
      ObjectsMeaning(init);
      TwoObjectsPushed(init, last);
      var found := ObjectOutputs(init);
      assert found != [] ==> found[0] in found;
    }
  }

  /** The source port is not declared by its stage, which exists. */
  predicate UnknownSource(table: Table, w: Wire) {
    w.from.FromStage? && w.from.stage in table && w.from.port !in PortNames(table[w.from.stage].outputs)
  }

  /** The wire is given this source port, and is otherwise as it was. */
  predicate TakesPort(w: Wire, v: Wire, name: string) {
    w.from.FromStage? && v == w.(from := FromStage(w.from.stage, name))
  }

  /** A wire whose source is declared, external or of no known stage goes through
      the shape pass as it is. */
  lemma ShapeLeavesKnown(table: Table, w: Wire)
    requires !UnknownSource(table, w)
    ensures FixShape(table, w).Ok? && FixShape(table, w).value.wire == w
  {
  }

  /** An undeclared source of a fanout stage that feeds an array of objects: the
      shape pass gives up if the stage has two outputs of object type, takes the
      only one, and leaves the wire if there is none. */
  lemma ObjectSourceMeaning(table: Table, w: Wire)
    requires UnknownSource(table, w) && table[w.from.stage].fanout && IsObjectArray(TargetType(table, w))
    ensures var outputs, r := table[w.from.stage].outputs, FixShape(table, w);
      && (r.Thrown? <==> TwoObjects(outputs))
      && (r.Ok? ==>
            if exists p :: p in outputs && IsObjectType(p.typ)
            then exists p :: p in outputs && IsObjectType(p.typ) && TakesPort(w, r.value.wire, p.name)
            else r.value.wire == w)
  {
    var outputs := table[w.from.stage].outputs;
    ObjectsMeaning(outputs);
    var objects := ObjectOutputs(outputs);
    if |objects| == 1 { assert objects[0] in objects; }
    if |objects| == 0 { assert forall p :: p in outputs ==> p !in objects; }
  }

  /** One that feeds an array of scalars: the shape pass takes the first output
      whose name occurs in the input's, else the first in whose name the input's
      occurs, else leaves the wire. */
  lemma ScalarSourceMeaning(table: Table, w: Wire)
    requires UnknownSource(table, w) && table[w.from.stage].fanout
    requires !IsObjectArray(TargetType(table, w)) && IsScalarArray(TargetType(table, w))
    ensures FixShape(table, w).Ok?
    ensures var outputs, v := table[w.from.stage].outputs, FixShape(table, w).value.wire;
      var within := (p: Port) => Includes(Lower(w.to.port), Lower(p.name));
      var around := (p: Port) => Includes(Lower(p.name), Lower(w.to.port));
      if exists p :: p in outputs && within(p) then exists p :: FirstWith(outputs, within, p) && TakesPort(w, v, p.name)
      else if exists p :: p in outputs && around(p) then exists p :: FirstWith(outputs, around, p) && TakesPort(w, v, p.name)
      else v == w
  {
    var outputs := table[w.from.stage].outputs;
    RepairFixpoint.NoneWithin(outputs, Lower(w.to.port));
    FirstWithinMeaning(outputs, Lower(w.to.port));
  }

  /** One that feeds anything else is left. */
  lemma OtherSourceMeaning(table: Table, w: Wire)
    requires UnknownSource(table, w) && table[w.from.stage].fanout
    requires !IsObjectArray(TargetType(table, w)) && !IsScalarArray(TargetType(table, w))
    ensures FixShape(table, w).Ok? && FixShape(table, w).value.wire == w
  {
  }

  /** An undeclared source of another stage: the shape pass takes the only
      similar output, and leaves the wire if there is none or more than one. */
  lemma PlainSourceMeaning(table: Table, w: Wire)
    requires UnknownSource(table, w) && !table[w.from.stage].fanout
    ensures FixShape(table, w).Ok?
    ensures var names, v := PortNames(table[w.from.stage].outputs), FixShape(table, w).value.wire;
      if (exists n :: n in names && Similar(n, w.from.port)) && !Ambiguous(names, w.from.port)
      then exists n :: n in names && Similar(n, w.from.port) && TakesPort(w, v, n)
      else v == w
  {
    var names := PortNames(table[w.from.stage].outputs);
    CandidatesMeaning(names, w.from.port);
    var found := Candidates(names, w.from.port);
    if |found| == 1 { assert found[0] in found; }
  }

  // ----- giving up -----

  lemma {:induction false} RewriteThrows(wires: seq<Wire>, fix: Wire -> Result<Rewrite>)
    ensures RewriteAll(wires, fix).Thrown? <==> exists w :: w in wires && fix(w).Thrown?
  {
    if wires != [] {
      RewriteThrows(wires[..|wires| - 1], fix);
      assert wires == wires[..|wires| - 1] + [wires[|wires| - 1]];
    }
  }

  predicate GroupThrows(table: Table, wires: seq<Wire>, key: GroupKey) {
    BundlePort(table, Group(table, wires, key), key).Thrown?
  }

  lemma {:induction false} BundlingThrows(table: Table, stages: seq<Stage>, wires: seq<Wire>, keys: seq<GroupKey>)
    ensures BundleAll(table, stages, wires, keys).Thrown? <==> exists key :: key in keys && GroupThrows(table, wires, key)
  {
    if keys != [] {
      var init, last := keys[..|keys| - 1], keys[|keys| - 1];
      assert keys == init + [last];
      BundlingThrows(table, stages, wires, init);
      assert (exists key :: key in keys && GroupThrows(table, wires, key))
        <==> (exists key :: key in init && GroupThrows(table, wires, key)) || GroupThrows(table, wires, last);
      assert BundleAll(table, stages, wires, keys).Thrown?
        <==> BundleAll(table, stages, wires, init).Thrown? || GroupThrows(table, wires, last);
    }
  }

  /** Two wires from one fanout stage into one input that does not take an array
      of objects. */
  predicate Clash(table: Table, v: Wire, w: Wire) {
    && v.from.FromStage? && w.from.FromStage? && v.from.stage == w.from.stage && v.to == w.to
    && v.from.stage in table && table[v.from.stage].fanout && !IsObjectArray(TargetType(table, v))
  }

  ghost predicate SomeClash(table: Table, wires: seq<Wire>) {
    exists i, j :: 0 <= i < j < |wires| && Clash(table, wires[i], wires[j])
  }

  lemma GroupsThrow(table: Table, wires: seq<Wire>)
    ensures (exists key :: key in GroupKeys(table, wires) && GroupThrows(table, wires, key)) <==> SomeClash(table, wires)
  {
    if key :| key in GroupKeys(table, wires) && GroupThrows(table, wires, key) {
      var i, j := RepairFixpoint.PairOfGroup(table, wires, key);
      GroupMembers(table, wires, key);
      var first := Group(table, wires, key)[0];
      assert first in Group(table, wires, key) && TargetType(table, first) == TargetType(table, wires[i]);
      assert Clash(table, wires[i], wires[j]);
    }
    if SomeClash(table, wires) {
      var i, j :| 0 <= i < j < |wires| && Clash(table, wires[i], wires[j]);
      var key := KeyOf(wires[i]);
      RepairFixpoint.KeysOfWires(table, wires, wires[i]);
      RepairFixpoint.GroupPlaces(table, wires, key, i, j);
      GroupMembers(table, wires, key);
      var first := Group(table, wires, key)[0];
      assert first in Group(table, wires, key) && TargetType(table, first) == TargetType(table, wires[i]);
    }
  }

  /** Repair gives up exactly if some port name is ambiguous, if an undeclared
      source that feeds an array of objects has two outputs to choose from, or
      if wires of a fanout stage converge where no array of objects is taken. */
  lemma GivesUpIff(ir: Pipeline)
    ensures RepairOf(ir).Thrown? <==>
              || (exists w :: w in ir.wires && FixNames(StageTable(ir.stages), w).Thrown?)
              || (NamesRepaired(Deduped(ir).ir).Ok? && ShapeGivesUp(BeforeShape(ir)))
  {
    DedupeMeaning(ir.wires);
    var table := StageTable(ir.stages);
    RewriteThrows(Deduped(ir).ir.wires, w => FixNames(table, w));
    if NamesRepaired(Deduped(ir).ir).Ok? { ShapeThrows(BeforeShape(ir)); }
  }

  ghost predicate ShapeGivesUp(c: Pipeline) {
    var table := StageTable(c.stages);
    || (exists w :: w in c.wires && FixShape(table, w).Thrown?)
    || (RewriteAll(c.wires, w => FixShape(table, w)).Ok?
        && SomeClash(table, RewriteAll(c.wires, w => FixShape(table, w)).value.0))
  }

  lemma ShapeThrows(c: Pipeline)
    ensures ShapeRepaired(c).Thrown? <==> ShapeGivesUp(c)
  {
    var table := StageTable(c.stages);
    var all := RewriteAll(c.wires, w => FixShape(table, w));
    RewriteThrows(c.wires, w => FixShape(table, w));
    if all.Ok? {
      BundlingThrows(table, c.stages, all.value.0, GroupKeys(table, all.value.0));
      GroupsThrow(table, all.value.0);
    }
  }
}
