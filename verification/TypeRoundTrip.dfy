/** Parsing the canonical rendering of an object type gives the type back. */
module TypeRoundTrip {
  import opened Text
  import opened Ir
  import opened TypeParser

  // ----- canonical rendering -----

  predicate IsIdentifier(s: string) {
    s != "" && IsIdentStart(s[0]) && forall k :: 0 <= k < |s| ==> IsIdentPart(s[k])
  }

  /** Trees of named fields without unrecognized types. */
  predicate WellFormed(shape: Shape) {
    match shape
    case Raw => false
    case Object(fields) => forall f :: f in fields ==> IsIdentifier(f.name) && WellFormed(f.shape)
    case _ => true
  }

  predicate WellFormedFields(fields: seq<Field>) {
    forall f :: f in fields ==> IsIdentifier(f.name) && WellFormed(f.shape)
  }

  function Render(shape: Shape): string
    decreases shape, 0
  {
    match shape
    case Text => "string"
    case Number => "number"
    case Boolean => "boolean"
    case TextArray => "string[]"
    case NumberArray => "number[]"
    case Raw => "unknown"
    case Object(fields) => if fields == [] then "{}" else "{ " + RenderFields(fields) + " }"
  }

  /** Fields separated by a semicolon and a space. */
  function RenderFields(fields: seq<Field>): string
    requires fields != []
    decreases fields, 0
  {
    RenderField(fields[0]) + if |fields| == 1 then "" else "; " + RenderFields(fields[1..])
  }

  function RenderField(f: Field): string
    decreases f, 1
  {
    f.name + (if f.optional then "?" else "") + ": " + Render(f.shape)
  }

  // ----- scanning a rendering -----

  /** Scanning `s` from depth `low` or deeper only extends the current text. */
  ghost predicate Neutral(s: string, low: nat) {
    forall out: seq<string>, d: nat, cur: string {:trigger ScanAll(Scan(out, d, cur), s)} ::
      d >= low ==> ScanAll(Scan(out, d, cur), s) == Scan(out, d, cur + s)
  }

  lemma {:induction false} ScanAppend(st: Scan, a: string, b: string)
    ensures ScanAll(st, a + b) == ScanAll(ScanAll(st, a), b)
    decreases |a|
  {
    if a == [] {
      assert a + b == b;
    } else {
      assert (a + b)[0] == a[0] && (a + b)[1..] == a[1..] + b;
      ScanAppend(ScanChar(st, a[0]), a[1..], b);
    }
  }

  lemma NeutralConcat(a: string, b: string, low: nat)
    requires Neutral(a, low) && Neutral(b, low)
    ensures Neutral(a + b, low)
  {
    forall out: seq<string>, d: nat, cur: string | d >= low
      ensures ScanAll(Scan(out, d, cur), a + b) == Scan(out, d, cur + (a + b))
    {
      ScanAppend(Scan(out, d, cur), a, b);
      assert cur + (a + b) == cur + a + b;
    }
  }

  predicate IsPlain(s: string) {
    forall k :: 0 <= k < |s| ==> s[k] !in "{};,"
  }

  lemma {:induction false} PlainScan(s: string, out: seq<string>, d: nat, cur: string)
    requires IsPlain(s)
    ensures ScanAll(Scan(out, d, cur), s) == Scan(out, d, cur + s)
  {
    if s == [] {
      assert cur + s == cur;
    } else {
      assert ScanChar(Scan(out, d, cur), s[0]) == Scan(out, d, cur + [s[0]]);
      PlainScan(s[1..], out, d, cur + [s[0]]);
      assert cur + [s[0]] + s[1..] == cur + s;
    }
  }

  lemma PlainIsNeutral(s: string)
    requires IsPlain(s)
    ensures Neutral(s, 0)
  {
    forall out: seq<string>, d: nat, cur: string ensures ScanAll(Scan(out, d, cur), s) == Scan(out, d, cur + s) {
      PlainScan(s, out, d, cur);
    }
  }

  lemma OneChar(st: Scan, c: char)
    ensures ScanAll(st, [c]) == ScanChar(st, c)
  {
    assert [c][1..] == [];
  }

  /** A text that is neutral inside braces becomes neutral anywhere. */
  lemma BracesNeutral(x: string)
    requires Neutral(x, 1)
    ensures Neutral("{" + x + "}", 0)
  {
    var s := "{" + x + "}";
    forall out: seq<string>, d: nat, cur: string ensures ScanAll(Scan(out, d, cur), s) == Scan(out, d, cur + s) {
      ScanAppend(Scan(out, d, cur), "{" + x, "}");
      ScanAppend(Scan(out, d, cur), "{", x);
      OneChar(Scan(out, d, cur), '{');
      OneChar(Scan(out, d + 1, cur + "{" + x), '}');
      assert cur + "{" + x + "}" == cur + s;
    }
  }

  lemma SeparatorNested()
    ensures Neutral("; ", 1)
  {
    forall out: seq<string>, d: nat, cur: string | d >= 1 ensures ScanAll(Scan(out, d, cur), "; ") == Scan(out, d, cur + "; ") {
      ScanAppend(Scan(out, d, cur), ";", " ");
      OneChar(Scan(out, d, cur), ';');
      OneChar(Scan(out, d, cur + ";"), ' ');
      assert ";" + " " == "; " && cur + ";" + " " == cur + "; ";
    }
  }

  lemma IdentifierIsPlain(s: string)
    requires IsIdentifier(s)
    ensures IsPlain(s)
  {
  }

  lemma PrimitivePlain(shape: Shape)
    requires !shape.Object?
    ensures IsPlain(Render(shape))
  {
    match shape
    case Text =>
    case Number =>
    case Boolean =>
    case TextArray =>
    case NumberArray =>
    case Raw =>
  }

  lemma ListNeutral(list: string)
    requires Neutral(list, 1)
    ensures Neutral("{ " + list + " }", 0)
  {
    PlainIsNeutral(" ");
    NeutralConcat(" ", list, 1);
    NeutralConcat(" " + list, " ", 1);
    BracesNeutral(" " + list + " ");
    assert "{" + (" " + list + " ") + "}" == "{ " + list + " }";
  }

  lemma EmptyNeutral()
    ensures Neutral("{}", 0)
  {
    PlainIsNeutral("");
    BracesNeutral("");
    assert "{" + "" + "}" == "{}";
  }

  lemma {:induction false} RenderNeutral(shape: Shape)
    requires WellFormed(shape)
    ensures Neutral(Render(shape), 0)
    decreases shape, 0
  {
    if shape.Object? {
      if shape.fields == [] {
        EmptyNeutral();
      } else {
        RenderFieldsNested(shape.fields);
        ListNeutral(RenderFields(shape.fields));
      }
    } else {
      PrimitivePlain(shape);
      PlainIsNeutral(Render(shape));
    }
  }

  lemma {:induction false} RenderFieldNeutral(f: Field)
    requires IsIdentifier(f.name) && WellFormed(f.shape)
    ensures Neutral(RenderField(f), 0)
    decreases f, 1
  {
    var mark := if f.optional then "?" else "";
    IdentifierIsPlain(f.name);
    PlainIsNeutral(f.name + mark + ": ");
    RenderNeutral(f.shape);
    NeutralConcat(f.name + mark + ": ", Render(f.shape), 0);
  }

  lemma {:induction false} RenderFieldsNested(fields: seq<Field>)
    requires fields != [] && WellFormedFields(fields)
    ensures Neutral(RenderFields(fields), 1)
    decreases fields, 0
  {
    RenderFieldNeutral(fields[0]);
    if |fields| == 1 {
      assert RenderFields(fields) == RenderField(fields[0]);
    } else {
      RenderFieldsNested(fields[1..]);
      SeparatorNested();
      NeutralConcat("; ", RenderFields(fields[1..]), 1);
      NeutralConcat(RenderField(fields[0]), "; " + RenderFields(fields[1..]), 1);
    }
  }

  // ----- white space and line ends -----

  /** No white space at either end. */
  predicate Tight(s: string) {
    s != "" && !IsSpace(s[0]) && !IsSpace(s[|s| - 1])
  }

  lemma TrimTight(s: string)
    requires Tight(s)
    ensures Trim(s) == s && Trim(" " + s) == s && TrimLeft(" " + s) == s && Trim(" " + s + " ") == s
  {
    assert (" " + s)[1..] == s;
    assert (" " + s + " ")[1..] == s + " ";
    assert TrimLeft(" " + s + " ") == TrimLeft(s + " ") == s + " ";
    assert (s + " ")[..|s|] == s;
    assert TrimRight(s + " ") == TrimRight(s) == s;
  }

  predicate AllSpace(s: string) {
    forall i :: 0 <= i < |s| ==> IsSpace(s[i])
  }

  lemma {:induction false} TrimPadding(pre: string, s: string, post: string)
    requires Tight(s) && AllSpace(pre) && AllSpace(post)
    ensures Trim(pre + s + post) == s
  {
    if pre != "" {
      assert (pre + s + post)[1..] == pre[1..] + s + post;
      TrimPadding(pre[1..], s, post);
    } else {
      assert pre + s + post == s + post;
      assert TrimLeft(s + post) == s + post;
      TrimAfter(s, post);
    }
  }

  lemma {:induction false} TrimAfter(s: string, post: string)
    requires Tight(s) && AllSpace(post)
    ensures TrimRight(s + post) == s
  {
    if post == "" {
      assert s + post == s;
    } else {
      assert (s + post)[..|s + post| - 1] == s + post[..|post| - 1];
      TrimAfter(s, post[..|post| - 1]);
    }
  }

  lemma {:induction false} RenderTight(shape: Shape)
    requires WellFormed(shape)
    ensures Tight(Render(shape)) && !HasLineEnd(Render(shape))
    decreases shape, 0
  {
    match shape
    case Object(fields) =>
      if fields != [] {
        RenderFieldsTight(fields);
        BracesTight(RenderFields(fields));
      }
    case _ =>
  }

  lemma BracesTight(list: string)
    requires !HasLineEnd(list)
    ensures Tight("{ " + list + " }") && !HasLineEnd("{ " + list + " }")
  {
    LineFreeConcat("{ ", list);
    LineFreeConcat("{ " + list, " }");
  }

  lemma IdentifierHasNoSpace(s: string)
    requires IsIdentifier(s)
    ensures forall k :: 0 <= k < |s| ==> !IsSpace(s[k]) && !IsLineEnd(s[k])
  {
    forall k | 0 <= k < |s| ensures !IsSpace(s[k]) && !IsLineEnd(s[k]) {
      assert IsIdentPart(s[k]);
    }
  }

  lemma {:induction false} RenderFieldTight(f: Field)
    requires IsIdentifier(f.name) && WellFormed(f.shape)
    ensures Tight(RenderField(f)) && !HasLineEnd(RenderField(f))
    decreases f, 1
  {
    IdentifierHasNoSpace(f.name);
    RenderTight(f.shape);
    var head := f.name + (if f.optional then "?" else "") + ": ";
    LineFreeConcat(head, Render(f.shape));
  }

  lemma LineFreeConcat(a: string, b: string)
    requires !HasLineEnd(a) && !HasLineEnd(b)
    ensures !HasLineEnd(a + b)
  {
  }

  lemma {:induction false} RenderFieldsTight(fields: seq<Field>)
    requires fields != [] && WellFormedFields(fields)
    ensures Tight(RenderFields(fields)) && !HasLineEnd(RenderFields(fields))
    decreases fields, 0
  {
    RenderFieldTight(fields[0]);
    if |fields| > 1 {
      RenderFieldsTight(fields[1..]);
      LineFreeConcat("; ", RenderFields(fields[1..]));
      LineFreeConcat(RenderField(fields[0]), "; " + RenderFields(fields[1..]));
    }
  }

  // ----- splitting a rendering -----

  function Rendered(fields: seq<Field>): seq<string> {
    if fields == [] then [] else [RenderField(fields[0])] + Rendered(fields[1..])
  }

  ghost predicate LeftOver(pre: string) {
    pre == "" || pre == " "
  }

  /** Scanning one rendered field. */
  lemma ScanField(f: Field, out: seq<string>, pre: string)
    requires IsIdentifier(f.name) && WellFormed(f.shape) && LeftOver(pre)
    ensures ScanAll(Scan(out, 0, pre), RenderField(f)) == Scan(out, 0, pre + RenderField(f))
    ensures PushTrimmed(out, pre + RenderField(f)) == out + [RenderField(f)]
  {
    var r := RenderField(f);
    RenderFieldNeutral(f);
    RenderFieldTight(f);
    TrimTight(r);
    assert "" + r == r;
  }

  /** Scanning a separator at top level closes the current field. */
  lemma ScanSeparator(out: seq<string>, current: string)
    ensures ScanAll(Scan(out, 0, current), "; ") == Scan(PushTrimmed(out, current), 0, " ")
  {
    ScanAppend(Scan(out, 0, current), ";", " ");
    assert ";" + " " == "; ";
    OneChar(Scan(out, 0, current), ';');
    OneChar(Scan(PushTrimmed(out, current), 0, ""), ' ');
    assert "" + " " == " ";
  }

  /** One field and its separator. */
  lemma ScanOne(f: Field, out: seq<string>, pre: string, rest: string)
    requires IsIdentifier(f.name) && WellFormed(f.shape) && LeftOver(pre)
    ensures ScanAll(Scan(out, 0, pre), RenderField(f) + ("; " + rest)) == ScanAll(Scan(out + [RenderField(f)], 0, " "), rest)
  {
    var r := RenderField(f);
    ScanField(f, out, pre);
    ScanAppend(Scan(out, 0, pre), r, "; " + rest);
    ScanAppend(Scan(out, 0, pre + r), "; ", rest);
    ScanSeparator(out, pre + r);
  }

  lemma RenderFieldsCons(fields: seq<Field>)
    requires |fields| > 1
    ensures RenderFields(fields) == RenderField(fields[0]) + ("; " + RenderFields(fields[1..]))
    ensures Rendered(fields) == [RenderField(fields[0])] + Rendered(fields[1..])
  {
  }

  /** Splitting a rendered field list gives the rendered fields. `pre` is what
      the separator left over: nothing, or one space. */
  lemma {:induction false} SplitRendered(fields: seq<Field>, out: seq<string>, pre: string)
    requires fields != [] && WellFormedFields(fields) && LeftOver(pre)
    ensures Finish(ScanAll(Scan(out, 0, pre), RenderFields(fields))) == Some(out + Rendered(fields))
    decreases |fields|
  {
    if |fields| == 1 {
      ScanField(fields[0], out, pre);
      assert RenderFields(fields) == RenderField(fields[0]);
      assert Rendered(fields) == [RenderField(fields[0])];
    } else {
      RenderFieldsCons(fields);
      ScanOne(fields[0], out, pre, RenderFields(fields[1..]));
      var first := [RenderField(fields[0])];
      SplitRendered(fields[1..], out + first, " ");
      assert out + first + Rendered(fields[1..]) == out + (first + Rendered(fields[1..]));
    }
  }

  // ----- matching a rendered field -----

  lemma {:induction false} IdentStops(name: string, rest: string)
    requires forall k :: 0 <= k < |name| ==> IsIdentPart(name[k])
    requires rest != "" && !IsIdentPart(rest[0])
    ensures IdentLength(name + rest) == |name|
  {
    if name == "" {
      assert name + rest == rest;
    } else {
      assert (name + rest)[1..] == name[1..] + rest;
      IdentStops(name[1..], rest);
    }
  }

  lemma TypeTextRendered(shape: Shape)
    requires WellFormed(shape)
    ensures TypeText(" " + Render(shape)) == Some(Render(shape))
  {
    RenderTight(shape);
    TrimTight(Render(shape));
  }

  /** What the pattern sees of `name`, an optional mark and a colon. */
  lemma MatchParts(name: string, optional: bool, t: string)
    requires IsIdentifier(name) && TypeText(" " + t) == Some(t)
    ensures MatchField(name + (if optional then "?" else "") + ": " + t) == Some((name, optional, t))
  {
    var s := name + (if optional then "?" else "") + ": " + t;
    var rest := (if optional then "?" else "") + ": " + t;
    var n := |name|;
    assert s == name + rest;
    IdentStops(name, rest);
    assert s[n] == rest[0] == (if optional then '?' else ':');
    assert s[0] == name[0] && s[..n] == name;
    var tail := s[if optional then n + 1 else n..];
    assert tail == ": " + t;
    assert TrimLeft(tail) == tail && tail[0] == ':' && tail[1..] == " " + t;
  }

  lemma MatchRendered(f: Field)
    requires IsIdentifier(f.name) && WellFormed(f.shape)
    ensures MatchField(RenderField(f)) == Some((f.name, f.optional, Render(f.shape)))
  {
    TypeTextRendered(f.shape);
    MatchParts(f.name, f.optional, Render(f.shape));
  }

  // ----- round trip -----

  lemma {:induction false} ShapeRoundTrip(shape: Shape)
    requires WellFormed(shape)
    ensures ShapeOf(Render(shape)) == Some(shape)
    decreases shape, 0
  {
    match shape
    case Object(fields) =>
      RenderedObject(fields);
      if fields != [] {
        RenderedParts(fields);
        FieldsRoundTrip(fields, |RenderFields(fields)|);
      }
    case _ =>
  }

  /** A rendered object is a braced text around its rendered fields. */
  lemma RenderedObject(fields: seq<Field>)
    requires WellFormedFields(fields)
    ensures var s := Render(Object(fields));
      Braced(s) && PrimitiveOf(s) == None && Inner(s) == if fields == [] then "" else RenderFields(fields)
    ensures fields != [] ==> RenderFields(fields) != ""
  {
    if fields == [] {
      assert "{}"[1..1] == "";
    } else {
      RenderFieldsTight(fields);
      InsideBraces(RenderFields(fields));
    }
  }

  lemma InsideBraces(list: string)
    requires Tight(list)
    ensures var s := "{ " + list + " }"; Braced(s) && PrimitiveOf(s) == None && Inner(s) == list
  {
    var s := "{ " + list + " }";
    assert s[0] == '{' && s[|s| - 1] == '}';
    assert s[1..|s| - 1] == " " + list + " ";
    TrimTight(list);
  }

  lemma RenderedParts(fields: seq<Field>)
    requires fields != [] && WellFormedFields(fields)
    ensures SplitFields(RenderFields(fields)) == Some(Rendered(fields))
    ensures forall k :: 0 <= k < |Rendered(fields)| ==> |Rendered(fields)[k]| <= |RenderFields(fields)|
  {
    SplitRendered(fields, [], "");
    assert [] + Rendered(fields) == Rendered(fields);
  }

  lemma {:induction false} FieldsRoundTrip(fields: seq<Field>, bound: nat)
    requires WellFormedFields(fields)
    requires forall k :: 0 <= k < |Rendered(fields)| ==> |Rendered(fields)[k]| <= bound
    ensures FieldsOf(Rendered(fields), bound) == Some(fields)
    decreases fields, 1
  {
    if fields != [] {
      var f := fields[0];
      MatchRendered(f);
      ShapeRoundTrip(f.shape);
      RenderedRest(fields, bound);
      FieldsRoundTrip(fields[1..], bound);
      assert [f] + fields[1..] == fields;
    }
  }

  lemma RenderedRest(fields: seq<Field>, bound: nat)
    requires fields != [] && forall k :: 0 <= k < |Rendered(fields)| ==> |Rendered(fields)[k]| <= bound
    ensures Rendered(fields)[0] == RenderField(fields[0]) && Rendered(fields)[1..] == Rendered(fields[1..])
    ensures forall k :: 0 <= k < |Rendered(fields[1..])| ==> |Rendered(fields[1..])[k]| <= bound
  {
    forall k | 0 <= k < |Rendered(fields[1..])| ensures |Rendered(fields[1..])[k]| <= bound {
      assert Rendered(fields[1..])[k] == Rendered(fields)[k + 1];
    }
  }

  /** For every tree of fields, of any depth, parsing its rendering, with any
      white space around it, returns that tree. */
  lemma ParseRoundTrip(fields: seq<Field>, pre: string, post: string)
    requires WellFormedFields(fields) && AllSpace(pre) && AllSpace(post)
    ensures ResultOf(pre + Render(Object(fields)) + post) == ObjectType(fields)
  {
    var shape := Object(fields);
    var s := Render(shape);
    RenderTight(shape);
    TrimPadding(pre, s, post);
    ShapeRoundTrip(shape);
    assert s[0] == '{' && s[|s| - 1] == '}' && |s| >= 2;
  }

  // ----- the other way round -----

  /** Nothing in the type is unrecognized. */
  predicate NoRaw(shape: Shape) {
    match shape
    case Raw => false
    case Object(fields) => forall f :: f in fields ==> NoRaw(f.shape)
    case _ => true
  }

  predicate NoRawFields(fields: seq<Field>) {
    forall f :: f in fields ==> NoRaw(f.shape)
  }

  lemma {:induction false} IdentLengthMeaning(s: string)
    ensures forall k :: 0 <= k < IdentLength(s) ==> IsIdentPart(s[k])
  {
    if s != [] && IsIdentPart(s[0]) {
      IdentLengthMeaning(s[1..]);
      forall k | 0 <= k < IdentLength(s) ensures IsIdentPart(s[k]) {
        if k > 0 { assert s[k] == s[1..][k - 1]; }
      }
    }
  }

  lemma MatchedIdentifier(s: string)
    requires MatchField(s).Some?
    ensures IsIdentifier(MatchField(s).value.0)
  {
    IdentLengthMeaning(s);
  }

  lemma {:induction false} ParsedShape(s: string)
    requires ShapeOf(s).Some? && NoRaw(ShapeOf(s).value)
    ensures WellFormed(ShapeOf(s).value)
    decreases |s|, 0
  {
    if !PrimitiveOf(s).Some? && Braced(s) && Inner(s) != "" {
      ParsedFields(SplitFields(Inner(s)).value, |Inner(s)|);
    }
  }

  lemma {:induction false} ParsedField(s: string)
    requires FieldOf(s).Some? && NoRaw(FieldOf(s).value.shape)
    ensures IsIdentifier(FieldOf(s).value.name) && WellFormed(FieldOf(s).value.shape)
    decreases |s|, 1
  {
    MatchedIdentifier(s);
    ParsedShape(MatchField(s).value.2);
  }

  lemma {:induction false} ParsedFields(parts: seq<string>, bound: nat)
    requires forall k :: 0 <= k < |parts| ==> |parts[k]| <= bound
    requires FieldsOf(parts, bound).Some? && NoRawFields(FieldsOf(parts, bound).value)
    ensures WellFormedFields(FieldsOf(parts, bound).value)
    decreases bound, 2 + |parts|
  {
    if parts != [] {
      var fields := FieldsOf(parts, bound).value;
      assert fields == [FieldOf(parts[0]).value] + FieldsOf(parts[1..], bound).value;
      assert fields[0] in fields && forall f :: f in FieldsOf(parts[1..], bound).value ==> f in fields;
      ParsedField(parts[0]);
      ParsedFields(parts[1..], bound);
    }
  }

  /** Whatever text it was read from, a list of fields with nothing unrecognized
      in it is well formed, so its rendering is read as the same. */
  lemma ParsedIsRenderable(raw: string, fields: seq<Field>)
    requires ResultOf(raw) == ObjectType(fields) && NoRawFields(fields)
    ensures WellFormedFields(fields) && ResultOf(Render(Object(fields))) == ObjectType(fields)
  {
    ParsedShape(Trim(raw));
    ParseRoundTrip(fields, "", "");
    assert "" + Render(Object(fields)) + "" == Render(Object(fields));
  }

  /** The well-formed field lists are exactly those some text is read as and
      that have nothing unrecognized in them. */
  lemma WellFormedIffParsed(fields: seq<Field>)
    ensures WellFormedFields(fields) <==> NoRawFields(fields) && exists raw :: ResultOf(raw) == ObjectType(fields)
  {
    if WellFormedFields(fields) {
      ParseRoundTrip(fields, "", "");
      WellFormedHasNoRaw(Object(fields));
      assert ResultOf("" + Render(Object(fields)) + "") == ObjectType(fields);
    }
    if raw :| ResultOf(raw) == ObjectType(fields) && NoRawFields(fields) { ParsedIsRenderable(raw, fields); }
  }

  lemma {:induction false} WellFormedHasNoRaw(shape: Shape)
    requires WellFormed(shape)
    ensures NoRaw(shape)
  {
    match shape
    case Object(fields) =>
      forall f | f in fields ensures NoRaw(f.shape) { WellFormedHasNoRaw(f.shape); }
    case _ =>
  }
}
