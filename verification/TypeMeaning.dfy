/** How the type parser cuts and reads a text, told of the text itself: where
    fields are separated, what is unbalanced, what a field and a type look like,
    and what is not recognized. */
module TypeMeaning {
  import opened Text
  import opened Ir
  import opened TypeParser
  import opened TypeRoundTrip

  // ----- braces -----

  function Braces(c: char): int {
    if c == '{' then 1 else if c == '}' then -1 else 0
  }

  /** Braces opened and not closed among the first `k` characters. */
  function Level(s: string, k: nat): int
    requires k <= |s|
  {
    if k == 0 then 0 else Level(s, k - 1) + Braces(s[k - 1])
  }

  lemma {:induction false} LevelTail(s: string, k: nat)
    requires s != "" && k < |s|
    ensures Level(s, k + 1) == Braces(s[0]) + Level(s[1..], k)
  {
    if k > 0 {
      LevelTail(s, k - 1);
      assert s[1..][k - 1] == s[k];
    }
  }

  /** No closing brace too many, starting below `d` open ones. */
  predicate NeverBelow(s: string, d: nat) {
    forall k :: 0 <= k <= |s| ==> d + Level(s, k) >= 0
  }

  predicate Balanced(s: string) {
    NeverBelow(s, 0) && Level(s, |s|) == 0
  }

  predicate IsSeparator(c: char) {
    c == ';' || c == ','
  }

  /** No separator outside all braces, starting below `d` open ones. */
  predicate Uncut(s: string, d: nat) {
    forall k :: 0 <= k < |s| && IsSeparator(s[k]) ==> d + Level(s, k) > 0
  }

  lemma NeverBelowTail(s: string, d: nat)
    requires s != ""
    ensures NeverBelow(s, d) <==> d + Braces(s[0]) >= 0 && NeverBelow(s[1..], d + Braces(s[0]))
  {
    assert Level(s, 1) == Braces(s[0]) by { assert Level(s, 0) == 0; }
    forall k | 0 <= k < |s| ensures Level(s, k + 1) == Braces(s[0]) + Level(s[1..], k) { LevelTail(s, k); }
    if NeverBelow(s, d) {
      assert d + Level(s, 1) >= 0;
      forall k | 0 <= k <= |s[1..]| ensures d + Braces(s[0]) + Level(s[1..], k) >= 0 { assert d + Level(s, k + 1) >= 0; }
    }
    if d + Braces(s[0]) >= 0 && NeverBelow(s[1..], d + Braces(s[0])) {
      forall k | 0 <= k <= |s| ensures d + Level(s, k) >= 0 {
        if k > 0 { assert d + Braces(s[0]) + Level(s[1..], k - 1) >= 0; }
      }
    }
  }

  lemma UncutTail(s: string, d: nat)
    requires s != "" && d + Braces(s[0]) >= 0 && Uncut(s, d)
    ensures !(d == 0 && IsSeparator(s[0])) && Uncut(s[1..], d + Braces(s[0]))
  {
    assert IsSeparator(s[0]) ==> d + Level(s, 0) > 0;
    forall k | 0 <= k < |s[1..]| && IsSeparator(s[1..][k]) ensures d + Braces(s[0]) + Level(s[1..], k) > 0 {
      LevelTail(s, k);
      assert s[k + 1] == s[1..][k] && d + Level(s, k + 1) > 0;
    }
  }

  // ----- scanning -----

  /** The scan fails exactly on a closing brace too many, and otherwise ends at
      the level of the text. */
  lemma {:induction false} ScanLevels(out: seq<string>, d: nat, cur: string, s: string)
    ensures var r := ScanAll(Scan(out, d, cur), s);
      (r.Scan? <==> NeverBelow(s, d)) && (r.Scan? ==> r.depth == d + Level(s, |s|))
    decreases |s|
  {
    if s != "" {
      NeverBelowTail(s, d);
      LevelTail(s, |s| - 1);
      match ScanChar(Scan(out, d, cur), s[0])
      case Scan(o, e, c) => ScanLevels(o, e, c, s[1..]);
      case Unbalanced => StaysUnbalanced(s[1..]);
    }
  }

  /** Uncut text is collected as it is. */
  lemma {:induction false} ScanUncut(out: seq<string>, d: nat, cur: string, s: string)
    requires NeverBelow(s, d) && Uncut(s, d)
    ensures d + Level(s, |s|) >= 0
    ensures ScanAll(Scan(out, d, cur), s) == Scan(out, d + Level(s, |s|), cur + s)
    decreases |s|
  {
    if s == "" {
      assert cur + s == cur;
    } else {
      NeverBelowTail(s, d);
      UncutTail(s, d);
      LevelTail(s, |s| - 1);
      ScanUncut(out, d + Braces(s[0]), cur + [s[0]], s[1..]);
      assert cur + [s[0]] + s[1..] == cur + s;
    }
  }

  lemma PushOnto(out: seq<string>, more: seq<string>, cur: string)
    ensures PushTrimmed(out + more, cur) == out + PushTrimmed(more, cur)
  {
  }

  /** What was found before does not matter to what is found later. */
  lemma {:induction false} ScanOnto(out: seq<string>, more: seq<string>, d: nat, cur: string, s: string)
    ensures var r, t := ScanAll(Scan(out + more, d, cur), s), ScanAll(Scan(more, d, cur), s);
      if t.Unbalanced? then r.Unbalanced? else r == Scan(out + t.out, t.depth, t.current)
    decreases |s|
  {
    if s != "" {
      PushOnto(out, more, cur);
      match ScanChar(Scan(more, d, cur), s[0])
      case Scan(o, e, c) =>
        assert ScanChar(Scan(out + more, d, cur), s[0]) == Scan(out + o, e, c);
        ScanOnto(out, o, e, c, s[1..]);
      case Unbalanced =>
        StaysUnbalanced(s[1..]);
    }
  }

  // ----- splitting -----

  function Piece(s: string): seq<string> {
    if Trim(s) == "" then [] else [Trim(s)]
  }

  lemma PieceIs(out: seq<string>, s: string)
    ensures PushTrimmed(out, s) == out + Piece(s)
  {
  }

  /** The scan of a whole text. */
  function Scanned(s: string): Scan {
    ScanAll(Scan([], 0, ""), s)
  }

  lemma SplitIs(s: string)
    ensures SplitFields(s) == Finish(Scanned(s))
  {
  }

  /** A field list is rejected exactly if its braces are not balanced. */
  lemma SplitRejectsIff(s: string)
    ensures SplitFields(s) == None <==> !Balanced(s)
  {
    ScanLevels([], 0, "", s);
  }

  lemma ScannedUncut(s: string)
    requires Balanced(s) && Uncut(s, 0)
    ensures Scanned(s) == Scan([], 0, s)
  {
    ScanUncut([], 0, "", s);
    assert "" + s == s;
  }

  /** A balanced text without a separator outside braces is one field, trimmed,
      or none if nothing is left of it. */
  lemma SplitUncut(s: string)
    requires Balanced(s) && Uncut(s, 0)
    ensures SplitFields(s) == Some(Piece(s))
  {
    SplitIs(s);
    ScannedUncut(s);
    PieceIs([], s);
    assert [] + Piece(s) == Piece(s);
  }

  lemma ScannedCut(a: string, c: char, b: string)
    requires Balanced(a) && Uncut(a, 0) && IsSeparator(c)
    ensures Scanned(a + [c] + b) == ScanAll(Scan(Piece(a), 0, ""), b)
  {
    ScannedUncut(a);
    PieceIs([], a);
    assert [] + Piece(a) == Piece(a);
    assert a + [c] + b == a + ([c] + b);
    ScanAppend(Scan([], 0, ""), a, [c] + b);
    AtSeparator(a, c, b);
  }

  lemma AtSeparator(a: string, c: char, b: string)
    requires IsSeparator(c)
    ensures ScanAll(Scan([], 0, a), [c] + b) == ScanAll(Scan(PushTrimmed([], a), 0, ""), b)
  {
    assert ([c] + b)[0] == c && ([c] + b)[1..] == b;
    assert ScanChar(Scan([], 0, a), c) == Scan(PushTrimmed([], a), 0, "");
  }

  /** At a separator outside braces, a semicolon or a comma alike, the text is
      cut in two. */
  lemma SplitCut(a: string, c: char, b: string)
    requires Balanced(a) && Uncut(a, 0) && IsSeparator(c)
    ensures SplitFields(a + [c] + b)
            == match SplitFields(b) case None => None case Some(parts) => Some(Piece(a) + parts)
  {
    SplitIs(a + [c] + b);
    SplitIs(b);
    ScannedCut(a, c, b);
    ScanOnto(Piece(a), [], 0, "", b);
    assert Piece(a) + [] == Piece(a);
    FinishOnto(Piece(a), Scanned(b), ScanAll(Scan(Piece(a), 0, ""), b));
  }

  lemma FinishOnto(out: seq<string>, t: Scan, r: Scan)
    requires if t.Unbalanced? then r.Unbalanced? else r == Scan(out + t.out, t.depth, t.current)
    ensures Finish(r) == match Finish(t) case None => None case Some(parts) => Some(out + parts)
  {
    if t.Scan? { PushOnto(out, t.out, t.current); }
  }

  // ----- fields -----

  predicate IsLetter(c: char) {
    'a' <= c <= 'z' || 'A' <= c <= 'Z'
  }

  /** A name: letters, digits, underscores and dollar signs, not a digit first. */
  predicate IsName(s: string) {
    s != "" && !('0' <= s[0] <= '9')
    && forall k :: 0 <= k < |s| ==> IsLetter(s[k]) || '0' <= s[k] <= '9' || s[k] == '_' || s[k] == '$'
  }

  lemma NamesAreIdentifiers(s: string)
    ensures IsIdentifier(s) <==> IsName(s)
  {
    if IsName(s) {
      assert IsLetter(s[0]) || s[0] == '_' || s[0] == '$';
    }
  }

  /** A name, an optional question mark, white space, a colon, white space and a
      type text without line ends are read as a field of that name and type. */
  lemma FieldMeaning(name: string, optional: bool, before: string, after: string, t: string)
    requires IsName(name) && AllSpace(before) && AllSpace(after) && Tight(t) && !HasLineEnd(t)
    ensures MatchField(name + (if optional then "?" else "") + before + ":" + after + t) == Some((name, optional, t))
  {
    NamesAreIdentifiers(name);
    var mark := if optional then "?" else "";
    var tail := before + ":" + after + t;
    var s := name + mark + tail;
    assert name + mark + before + ":" + after + t == s;
    TailStarts(before, after, t);
    SplitName(name, mark, tail);
    TypeAfter(after, t);
    assert (":" + after + t)[1..] == after + t;
    MatchedAt(s, |name|, optional, tail, ":" + after + t, t);
  }

  lemma SplitName(name: string, mark: string, tail: string)
    requires IsName(name) && tail != "" && !IsIdentPart(tail[0]) && tail[0] != '?' && (mark == "" || mark == "?")
    ensures var s, n := name + mark + tail, |name|;
      && IdentLength(s) == n && n < |s| && s[..n] == name && s[0] == name[0] && s[n + |mark|..] == tail
      && (mark == "?" <==> s[n] == '?')
  {
    NamesAreIdentifiers(name);
    NameEnds(name, mark + tail);
    assert name + (mark + tail) == name + mark + tail;
    assert (mark + tail)[0] == if mark == "?" then '?' else tail[0];
  }

  lemma MatchedAt(s: string, n: nat, optional: bool, tail: string, rest: string, t: string)
    requires 0 < n < |s| && IdentLength(s) == n && IsIdentStart(s[0]) && (optional <==> s[n] == '?')
    requires tail == s[if optional then n + 1 else n..] && TrimLeft(tail) == rest
    requires rest != "" && rest[0] == ':' && TypeText(rest[1..]) == Some(t)
    ensures MatchField(s) == Some((s[..n], optional, t))
  {
  }

  lemma TailStarts(before: string, after: string, t: string)
    requires AllSpace(before)
    ensures var tail := before + ":" + after + t;
      tail != "" && !IsIdentPart(tail[0]) && tail[0] != '?' && TrimLeft(tail) == ":" + after + t
  {
    var tail := before + ":" + after + t;
    assert tail == before + (":" + after + t);
    SpaceThen(before, ":" + after + t);
    assert before != "" ==> tail[0] == before[0] && IsSpace(before[0]);
  }

  lemma TypeAfter(after: string, t: string)
    requires AllSpace(after) && Tight(t) && !HasLineEnd(t)
    ensures TypeText(after + t) == Some(t)
  {
    SpaceThen(after, t);
    TrimTight(t);
  }

  lemma {:induction false} NameEnds(name: string, rest: string)
    requires (forall k :: 0 <= k < |name| ==> IsIdentPart(name[k])) && (rest != "" ==> !IsIdentPart(rest[0]))
    ensures IdentLength(name + rest) == |name|
  {
    if name == "" {
      assert name + rest == rest;
    } else {
      assert (name + rest)[1..] == name[1..] + rest;
      NameEnds(name[1..], rest);
    }
  }

  lemma {:induction false} SpaceThen(space: string, rest: string)
    requires AllSpace(space) && rest != "" && !IsSpace(rest[0])
    ensures TrimLeft(space + rest) == rest
  {
    if space == "" {
      assert space + rest == rest;
    } else {
      assert (space + rest)[1..] == space[1..] + rest;
      SpaceThen(space[1..], rest);
    }
  }

  /** A field needs a name and, after it, a colon. */
  lemma FieldNeeds(s: string)
    requires MatchField(s).Some?
    ensures IsName(MatchField(s).value.0) && MatchField(s).value.0 <= s
    ensures exists k :: |MatchField(s).value.0| <= k < |s| && s[k] == ':'
  {
    MatchedIdentifier(s);
    NamesAreIdentifiers(MatchField(s).value.0);
    var n := IdentLength(s);
    var from := if n < |s| && s[n] == '?' then n + 1 else n;
    var k := SpaceEnd(s[from..]);
    assert s[from + k] == s[from..][k];
  }

  lemma {:induction false} SpaceEnd(s: string) returns (k: nat)
    ensures k <= |s| && TrimLeft(s) == s[k..]
  {
    if s != "" && IsSpace(s[0]) {
      k := SpaceEnd(s[1..]);
      assert s[1..][k..] == s[k + 1..];
      k := k + 1;
    } else {
      k := 0;
    }
  }

  // ----- types -----

  /** A type that is neither one of the five plain ones nor in braces is not
      recognized, and only such a one is. */
  lemma UnrecognizedIff(s: string)
    ensures ShapeOf(s) == Some(Raw) <==>
              && s != "string" && s != "number" && s != "boolean" && s != "string[]" && s != "number[]"
              && !(|s| >= 2 && s[0] == '{' && s[|s| - 1] == '}')
  {
  }

  /** Parts are read one by one; one that is no field rejects them all. */
  lemma {:induction false} FieldsMeaning(parts: seq<string>, bound: nat)
    requires forall k :: 0 <= k < |parts| ==> |parts[k]| <= bound
    ensures FieldsOf(parts, bound).None? <==> exists k :: 0 <= k < |parts| && FieldOf(parts[k]).None?
    ensures FieldsOf(parts, bound).Some? ==>
              |FieldsOf(parts, bound).value| == |parts|
              && forall k :: 0 <= k < |parts| ==> FieldOf(parts[k]) == Some(FieldsOf(parts, bound).value[k])
  {
    if parts != [] {
      FieldsMeaning(parts[1..], bound);
      assert forall k :: 0 <= k < |parts| - 1 ==> parts[1..][k] == parts[k + 1];
      if k :| 0 <= k < |parts| && FieldOf(parts[k]).None? {
        if k > 0 { assert FieldOf(parts[1..][k - 1]).None?; }
      }
    }
  }

  /** A text in braces is an object of the fields between them, and is rejected
      if they are unbalanced or one of them is no field. */
  lemma BracedMeaning(s: string)
    requires |s| >= 2 && s[0] == '{' && s[|s| - 1] == '}'
    ensures var inner := Trim(s[1..|s| - 1]);
      if inner == "" then ShapeOf(s) == Some(Object([]))
      else if !Balanced(inner) then ShapeOf(s) == None
      else
        var parts := SplitFields(inner);
        && parts.Some?
        && (ShapeOf(s) == None <==> exists k :: 0 <= k < |parts.value| && FieldOf(parts.value[k]).None?)
        && (ShapeOf(s) != None ==>
              ShapeOf(s).value.Object? && |ShapeOf(s).value.fields| == |parts.value|
              && forall k :: 0 <= k < |parts.value| ==> FieldOf(parts.value[k]) == Some(ShapeOf(s).value.fields[k]))
  {
    assert PrimitiveOf(s) == None && Braced(s);
    var inner := Inner(s);
    SplitRejectsIff(inner);
    if inner != "" && Balanced(inner) { FieldsMeaning(SplitFields(inner).value, |inner|); }
  }

  /** A text is a field if it has the look of one and its type is read. */
  lemma FieldReadIff(s: string)
    ensures FieldOf(s) == match MatchField(s)
                          case None => None
                          case Some((name, optional, t)) =>
                            if ShapeOf(t) == None then None else Some(Field(name, optional, ShapeOf(t).value))
  {
  }

  /** The result for a whole text: a plain type, an object, or not parsed if it
      is neither or a field in it is rejected. */
  lemma ResultMeaning(raw: string)
    ensures var s := Trim(raw);
      match ResultOf(raw)
      case Primitive(shape) => ShapeOf(s) == Some(shape) && !shape.Object? && !shape.Raw?
      case ObjectType(fields) => ShapeOf(s) == Some(Object(fields))
      case Unparsed => ShapeOf(s) == None || ShapeOf(s) == Some(Raw)
  {
    UnrecognizedIff(Trim(raw));
  }
}
