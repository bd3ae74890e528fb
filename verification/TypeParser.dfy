/** The parser for object type literals such as
    `{ name: string; tags: string[]; nested?: { a: boolean } }`. */
module TypeParser {
  import opened Text
  import opened Ir

  datatype Shape = Text | Number | Boolean | TextArray | NumberArray | Object(fields: seq<Field>) | Raw

  datatype Field = Field(name: string, optional: bool, shape: Shape)

  datatype ParseResult = ObjectType(fields: seq<Field>) | Primitive(shape: Shape) | Unparsed

  // ----- characters -----

  predicate IsLineEnd(c: char) {
    var n := c as int;
    n == 10 || n == 13 || n == 0x2028 || n == 0x2029
  }

  predicate IsIdentStart(c: char) {
    'a' <= c <= 'z' || 'A' <= c <= 'Z' || c == '_' || c == '$'
  }

  predicate IsIdentPart(c: char) {
    IsIdentStart(c) || '0' <= c <= '9'
  }

  function TrimLeft(s: string): (r: string)
    ensures |r| <= |s|
  {
    if s != [] && IsSpace(s[0]) then TrimLeft(s[1..]) else s
  }

  function TrimRight(s: string): (r: string)
    ensures |r| <= |s|
  {
    if s != [] && IsSpace(s[|s| - 1]) then TrimRight(s[..|s| - 1]) else s
  }

  function Trim(s: string): (r: string)
    ensures |r| <= |s|
  {
    TrimRight(TrimLeft(s))
  }

  // ----- splitting at top level -----

  /** The scanner's state: fields so far, brace depth, current text. */
  datatype Scan = Scan(out: seq<string>, depth: nat, current: string) | Unbalanced

  function PushTrimmed(out: seq<string>, current: string): seq<string> {
    if Trim(current) != "" then out + [Trim(current)] else out
  }

  function ScanChar(st: Scan, ch: char): Scan {
    match st
    case Unbalanced => Unbalanced
    case Scan(out, depth, current) =>
      if ch == '{' then Scan(out, depth + 1, current + [ch])
      else if ch == '}' then (if depth == 0 then Unbalanced else Scan(out, depth - 1, current + [ch]))
      else if depth == 0 && (ch == ';' || ch == ',') then Scan(PushTrimmed(out, current), 0, "")
      else Scan(out, depth, current + [ch])
  }

  function ScanAll(st: Scan, s: string): Scan
    decreases |s|
  {
    if s == [] then st else ScanAll(ScanChar(st, s[0]), s[1..])
  }

  function Finish(st: Scan): Option<seq<string>> {
    match st
    case Unbalanced => None
    case Scan(out, depth, current) => if depth != 0 then None else Some(PushTrimmed(out, current))
  }

  /** How long a field can be: no part is longer than what was scanned. */
  ghost predicate PartsWithin(st: Scan, n: nat) {
    st.Scan? ==> |st.current| <= n && forall k :: 0 <= k < |st.out| ==> |st.out[k]| <= n
  }

  lemma {:induction false} ScanWithin(st: Scan, s: string, n: nat)
    requires PartsWithin(st, n) && (st.Scan? ==> |st.current| + |s| <= n)
    ensures PartsWithin(ScanAll(st, s), n)
    decreases |s|
  {
    if s != [] { ScanWithin(ScanChar(st, s[0]), s[1..], n); }
  }

  function SplitFields(inner: string): (r: Option<seq<string>>)
    ensures r.Some? ==> forall k :: 0 <= k < |r.value| ==> |r.value[k]| <= |inner|
  {
    ScanWithin(Scan([], 0, ""), inner, |inner|);
    Finish(ScanAll(Scan([], 0, ""), inner))
  }

  method SplitTopLevelFields(inner: string) returns (r: Option<seq<string>>)
    ensures r == SplitFields(inner)
  {
    var out: seq<string>, depth: nat, current := [], 0, "";
    for k := 0 to |inner|
      invariant ScanAll(Scan([], 0, ""), inner) == ScanAll(Scan(out, depth, current), inner[k..])
    {
      var ch := inner[k];
      assert inner[k..][1..] == inner[k + 1..];
      if ch == '{' {
        depth := depth + 1;
      } else if ch == '}' {
        if depth == 0 {
          StaysUnbalanced(inner[k + 1..]);
          return None;
        }
        depth := depth - 1;
      }
      if depth == 0 && (ch == ';' || ch == ',') {
        var t := Trim(current);
        if |t| > 0 { out := out + [t]; }
        current := "";
      } else {
        current := current + [ch];
      }
    }
    if depth != 0 { return None; }
    var last := Trim(current);
    if |last| > 0 { out := out + [last]; }
    r := Some(out);
  }

  lemma {:induction false} StaysUnbalanced(s: string)
    ensures ScanAll(Unbalanced, s) == Unbalanced
  {
    if s != [] { StaysUnbalanced(s[1..]); }
  }

  // ----- one field -----

  function IdentLength(s: string): (n: nat)
    ensures n <= |s|
  {
    if s == [] || !IsIdentPart(s[0]) then 0 else 1 + IdentLength(s[1..])
  }

  predicate HasLineEnd(s: string) {
    exists k :: 0 <= k < |s| && IsLineEnd(s[k])
  }

  /** What follows the colon: white space, then a text without line ends that
      may be white space itself if nothing else is left. */
  function TypeText(rest: string): (r: Option<string>)
    ensures r.Some? ==> |r.value| <= |rest|
  {
    var body := TrimLeft(rest);
    if body != "" then (if HasLineEnd(body) then None else Some(Trim(body)))
    else if rest == "" || IsLineEnd(rest[|rest| - 1]) then None
    else Some("")
  }

  /** The pattern: identifier, optional question mark, white space, colon,
      type text. */
  function MatchField(s: string): (r: Option<(string, bool, string)>)
    ensures r.Some? ==> |r.value.2| < |s|
  {
    var n := IdentLength(s);
    if n == 0 || !IsIdentStart(s[0]) then None
    else
      var optional := n < |s| && s[n] == '?';
      var rest := TrimLeft(s[if optional then n + 1 else n..]);
      if rest == "" || rest[0] != ':' then None
      else
        match TypeText(rest[1..])
        case None => None
        case Some(t) => Some((s[..n], optional, t))
  }

  // ----- the recursive parser -----

  predicate Braced(s: string) {
    |s| >= 2 && s[0] == '{' && s[|s| - 1] == '}'
  }

  function Inner(s: string): (r: string)
    requires Braced(s)
    ensures |r| < |s|
  {
    Trim(s[1..|s| - 1])
  }

  function PrimitiveOf(s: string): Option<Shape> {
    if s == "string" then Some(Text)
    else if s == "number" then Some(Number)
    else if s == "boolean" then Some(Boolean)
    else if s == "string[]" then Some(TextArray)
    else if s == "number[]" then Some(NumberArray)
    else None
  }

  function ShapeOf(s: string): Option<Shape>
    decreases |s|, 0
  {
    if PrimitiveOf(s).Some? then PrimitiveOf(s)
    else if Braced(s) then
      if Inner(s) == "" then Some(Object([]))
      else
        match SplitFields(Inner(s))
        case None => None
        case Some(parts) =>
          match FieldsOf(parts, |Inner(s)|)
          case None => None
          case Some(fields) => Some(Object(fields))
    else Some(Raw)
  }

  function FieldOf(s: string): Option<Field>
    decreases |s|, 1
  {
    match MatchField(s)
    case None => None
    case Some((name, optional, t)) =>
      match ShapeOf(t)
      case None => None
      case Some(shape) => Some(Field(name, optional, shape))
  }

  /** Parts parsed one by one; `bound` bounds their lengths. */
  function FieldsOf(parts: seq<string>, bound: nat): Option<seq<Field>>
    requires forall k :: 0 <= k < |parts| ==> |parts[k]| <= bound
    decreases bound, 2 + |parts|
  {
    if parts == [] then Some([])
    else
      match FieldOf(parts[0])
      case None => None
      case Some(f) =>
        match FieldsOf(parts[1..], bound)
        case None => None
        case Some(rest) => Some([f] + rest)
  }

  function ResultOf(raw: string): ParseResult {
    var s := Trim(raw);
    if PrimitiveOf(s).Some? then Primitive(PrimitiveOf(s).value)
    else if !Braced(s) then Unparsed
    else
      match ShapeOf(s)
      case Some(Object(fields)) => ObjectType(fields)
      case _ => Unparsed
  }

  method ParseFieldType(raw: string) returns (r: Option<Shape>)
    ensures r == ShapeOf(raw)
    decreases |raw|, 0
  {
    if PrimitiveOf(raw).Some? { return PrimitiveOf(raw); }
    if Braced(raw) {
      var inner := Inner(raw);
      if |inner| == 0 { return Some(Object([])); }
      var parts := SplitTopLevelFields(inner);
      if parts == None { return None; }
      var fields := ParseParts(parts.value, |inner|);
      return if fields.None? then None else Some(Object(fields.value));
    }
    r := Some(Raw);
  }

  method ParseField(s: string) returns (r: Option<Field>)
    ensures r == FieldOf(s)
    decreases |s|, 1
  {
    var m := MatchField(s);
    if m == None { return None; }
    var (name, optional, t) := m.value;
    var shape := ParseFieldType(t);
    r := if shape.None? then None else Some(Field(name, optional, shape.value));
  }

  /** The push loop over the parts; it gives up at the first that fails. */
  method ParseParts(parts: seq<string>, bound: nat) returns (r: Option<seq<Field>>)
    requires forall k :: 0 <= k < |parts| ==> |parts[k]| <= bound
    ensures r == FieldsOf(parts, bound)
    decreases bound, 2 + |parts|
  {
    var fields: seq<Field> := [];
    assert parts[0..] == parts;
    assert Prefixed([], FieldsOf(parts, bound)) == FieldsOf(parts, bound) by {
      if FieldsOf(parts, bound).Some? { assert [] + FieldsOf(parts, bound).value == FieldsOf(parts, bound).value; }
    }
    for k := 0 to |parts|
      invariant FieldsOf(parts, bound) == Prefixed(fields, FieldsOf(parts[k..], bound))
    {
      assert parts[k..][1..] == parts[k + 1..];
      var f := ParseField(parts[k]);
      if f == None { return None; }
      ghost var rest := FieldsOf(parts[k + 1..], bound);
      assert rest.Some? ==> fields + ([f.value] + rest.value) == (fields + [f.value]) + rest.value;
      fields := fields + [f.value];
    }
    assert parts[|parts|..] == [];
    assert fields + [] == fields;
    r := Some(fields);
  }

  function Prefixed(fields: seq<Field>, rest: Option<seq<Field>>): Option<seq<Field>> {
    if rest.None? then None else Some(fields + rest.value)
  }

  method ParseObjectType(raw: string) returns (r: ParseResult)
    ensures r == ResultOf(raw)
  {
    var trimmed := Trim(raw);
    if PrimitiveOf(trimmed).Some? { return Primitive(PrimitiveOf(trimmed).value); }
    if !Braced(trimmed) { return Unparsed; }
    var inner := Inner(trimmed);
    if |inner| == 0 { return ObjectType([]); }
    var parts := SplitTopLevelFields(inner);
    if parts == None { return Unparsed; }
    var fields := ParseParts(parts.value, |inner|);
    r := if fields.None? then Unparsed else ObjectType(fields.value);
  }
}
