/** Resumable reading of a line-oriented file: a chunked reader that carries
    partial lines over must return what one split on newlines would. */
module Tail {
  type Byte = b: int | 0 <= b < 256

  const NEWLINE: Byte := 10

  type Line = seq<Byte>

  datatype TailResult = TailResult(lines: seq<Line>, newOffset: nat, truncated: bool)

  // ----- the simple split -----

  /** The position just after the last newline; 0 if there is none. */
  function Consumed(s: seq<Byte>): (n: nat)
    ensures n <= |s|
  {
    if s == [] then 0
    else if s[|s| - 1] == NEWLINE then |s|
    else Consumed(s[..|s| - 1])
  }

  /** Splitting on newlines: one piece more than there are newlines. */
  function Split(s: seq<Byte>): (pieces: seq<Line>)
    ensures |pieces| >= 1
  {
    if s == [] then [[]]
    else if s[0] == NEWLINE then [[]] + Split(s[1..])
    else
      var rest := Split(s[1..]);
      [[s[0]] + rest[0]] + rest[1..]
  }

  /** The complete lines of a text: its pieces without the last. */
  function Lines(s: seq<Byte>): seq<Line> {
    var pieces := Split(s);
    pieces[..|pieces| - 1]
  }

  /** Each line followed by a newline. */
  function Join(lines: seq<Line>): seq<Byte> {
    if lines == [] then [] else lines[0] + [NEWLINE] + Join(lines[1..])
  }

  ghost predicate NewlineFree(line: Line) {
    NEWLINE !in line
  }

  lemma SplitNonNewline(s: seq<Byte>)
    requires s != [] && s[0] != NEWLINE
    ensures Split(s) == [[s[0]] + Split(s[1..])[0]] + Split(s[1..])[1..]
    ensures |Split(s)| == |Split(s[1..])|
  {
  }

  /** Two lists of pieces joined at the seam. */
  function Seam(p: seq<Line>, q: seq<Line>): seq<Line>
    requires p != [] && q != []
  {
    p[..|p| - 1] + [p[|p| - 1] + q[0]] + q[1..]
  }

  lemma SeamFirst(b: Byte, p: seq<Line>, q: seq<Line>)
    requires p != [] && q != []
    ensures var r := Seam(p, q); Seam([[b] + p[0]] + p[1..], q) == [[b] + r[0]] + r[1..]
  {
    var r, front := Seam(p, q), [[b] + p[0]] + p[1..];
    if |p| == 1 {
      assert front == [[b] + p[0]];
      assert [b] + p[0] + q[0] == [b] + (p[0] + q[0]);
    } else {
      assert front[|front| - 1] == p[|p| - 1];
      assert front[..|front| - 1] == [[b] + p[0]] + p[1..|p| - 1];
    }
  }

  lemma SeamCons(x: Line, p: seq<Line>, q: seq<Line>)
    requires p != [] && q != []
    ensures Seam([x] + p, q) == [x] + Seam(p, q)
  {
    assert ([x] + p)[..|p|] == [x] + p[..|p| - 1];
  }

  /** Splitting a concatenation joins the pieces at the seam. */
  lemma {:induction false} SplitAppend(a: seq<Byte>, b: seq<Byte>)
    ensures Split(a + b) == Seam(Split(a), Split(b))
  {
    if a == [] {
      assert a + b == b;
      assert [] + Split(b)[0] == Split(b)[0];
    } else {
      SplitAppend(a[1..], b);
      assert (a + b)[1..] == a[1..] + b && (a + b)[0] == a[0];
      SeamFirst(a[0], Split(a[1..]), Split(b));
      SeamCons([], Split(a[1..]), Split(b));
    }
  }

  /** The pieces are newline-free and, newlines put back, give the text. */
  lemma {:induction false} SplitMeaning(s: seq<Byte>)
    ensures forall k :: 0 <= k < |Split(s)| ==> NewlineFree(Split(s)[k])
    ensures Join(Lines(s)) + Split(s)[|Split(s)| - 1] == s
  {
    if s != [] {
      var rest := Split(s[1..]);
      SplitMeaning(s[1..]);
      if s[0] == NEWLINE {
        assert Split(s) == [[]] + rest;
        assert Lines(s) == [[]] + Lines(s[1..]);
      } else {
        var pieces := Split(s);
        SplitNonNewline(s);
        if |rest| > 1 {
          assert Lines(s) == [[s[0]] + rest[0]] + rest[1..|rest| - 1];
          assert Lines(s[1..]) == [rest[0]] + rest[1..|rest| - 1];
        }
      }
    }
  }

  lemma JoinHasNewline(lines: seq<Line>, rest: seq<Byte>)
    requires lines != []
    ensures NEWLINE in Join(lines) + rest
  {
    assert (Join(lines) + rest)[|lines[0]|] == NEWLINE;
  }

  lemma FirstNewlineAt(p: Line, u: seq<Byte>, q: Line, v: seq<Byte>)
    requires NewlineFree(p) && NewlineFree(q) && p + [NEWLINE] + u == q + [NEWLINE] + v
    ensures |p| >= |q|
  {
    assert (p + [NEWLINE] + u)[|p|] == NEWLINE;
    forall i | 0 <= i < |q| ensures (q + [NEWLINE] + v)[i] != NEWLINE {
      assert (q + [NEWLINE] + v)[i] == q[i];
    }
  }

  /** Newline-free lines are determined by their joined text and remainder. */
  lemma {:induction false} JoinUnique(a: seq<Line>, x: Line, b: seq<Line>, y: Line)
    requires forall k :: 0 <= k < |a| ==> NewlineFree(a[k])
    requires forall k :: 0 <= k < |b| ==> NewlineFree(b[k])
    requires NewlineFree(x) && NewlineFree(y)
    requires Join(a) + x == Join(b) + y
    ensures a == b && x == y
  {
    assert [] + x == x && [] + y == y;
    if a == [] {
      if b != [] { JoinHasNewline(b, y); assert false; }
    } else if b == [] {
      JoinHasNewline(a, x);
      assert false;
    } else {
      var u, v := Join(a[1..]) + x, Join(b[1..]) + y;
      assert Join(a) + x == a[0] + [NEWLINE] + u;
      assert Join(b) + y == b[0] + [NEWLINE] + v;
      FirstNewlineAt(a[0], u, b[0], v);
      FirstNewlineAt(b[0], v, a[0], u);
      assert (a[0] + [NEWLINE] + u)[..|a[0]|] == a[0] && (b[0] + [NEWLINE] + v)[..|b[0]|] == b[0];
      assert (a[0] + [NEWLINE] + u)[|a[0]| + 1..] == u && (b[0] + [NEWLINE] + v)[|b[0]| + 1..] == v;
      JoinUnique(a[1..], x, b[1..], y);
    }
  }

  lemma {:induction false} ConsumedMeaning(s: seq<Byte>)
    ensures Consumed(s) > 0 ==> s[Consumed(s) - 1] == NEWLINE
    ensures NewlineFree(s[Consumed(s)..])
  {
    if s != [] && s[|s| - 1] != NEWLINE {
      ConsumedMeaning(s[..|s| - 1]);
      assert s[Consumed(s)..] == s[..|s| - 1][Consumed(s)..] + [s[|s| - 1]];
    }
  }

  /** Only the last newline has nothing but other bytes after it. */
  lemma {:induction false} ConsumedUnique(s: seq<Byte>, k: nat)
    requires k <= |s| && (k > 0 ==> s[k - 1] == NEWLINE) && NewlineFree(s[k..])
    ensures Consumed(s) == k
  {
    if k < |s| {
      assert s[|s| - 1] == s[k..][|s| - 1 - k];
      assert s[k..] == s[..|s| - 1][k..] + [s[|s| - 1]];
      ConsumedUnique(s[..|s| - 1], k);
    }
  }

  lemma {:induction false} JoinEnds(lines: seq<Line>)
    ensures lines != [] ==> Join(lines) != [] && Join(lines)[|Join(lines)| - 1] == NEWLINE
  {
    if lines != [] { JoinEnds(lines[1..]); }
  }

  /** The complete lines cover the text up to its last newline, and the last
      piece is the rest. */
  lemma LinesCover(s: seq<Byte>)
    ensures Join(Lines(s)) == s[..Consumed(s)]
    ensures Split(s)[|Split(s)| - 1] == s[Consumed(s)..]
  {
    var j, last := Join(Lines(s)), Split(s)[|Split(s)| - 1];
    SplitMeaning(s);
    JoinEnds(Lines(s));
    assert s[|j|..] == last && s[..|j|] == j;
    assert |j| > 0 ==> s[|j| - 1] == j[|j| - 1];
    ConsumedUnique(s, |j|);
  }

  /** Newline-free lines and a newline-free rest make up the text, newlines put
      back, exactly if they are its complete lines and what follows them. */
  lemma LinesUnique(s: seq<Byte>, lines: seq<Line>, rest: seq<Byte>)
    ensures (forall k :: 0 <= k < |lines| ==> NewlineFree(lines[k])) && NewlineFree(rest) && Join(lines) + rest == s
            <==> lines == Lines(s) && rest == s[Consumed(s)..]
  {
    SplitMeaning(s);
    LinesCover(s);
    ConsumedMeaning(s);
    assert forall k :: 0 <= k < |Lines(s)| ==> Lines(s)[k] == Split(s)[k];
    assert s[..Consumed(s)] + s[Consumed(s)..] == s;
    if (forall k :: 0 <= k < |lines| ==> NewlineFree(lines[k])) && NewlineFree(rest) && Join(lines) + rest == s {
      JoinUnique(lines, rest, Lines(s), s[Consumed(s)..]);
    }
  }

  /** Two texts, the first ending at a line boundary, split independently. */
  lemma LinesCompose(a: seq<Byte>, b: seq<Byte>)
    requires Consumed(a) == |a|
    ensures Lines(a + b) == Lines(a) + Lines(b)
    ensures Consumed(a + b) == |a| + Consumed(b)
  {
    SplitAppend(a, b);
    LinesCover(a);
    assert a[|a|..] == [];
    assert [] + Split(b)[0] == Split(b)[0];
    assert Split(a + b) == Lines(a) + Split(b);
    ConsumedMeaning(b);
    var k := |a| + Consumed(b);
    ConsumedMeaning(a);
    assert (a + b)[k..] == b[Consumed(b)..];
    assert Consumed(b) == 0 ==> (a + b)[..k] == a;
    ConsumedUnique(a + b, k);
  }

  lemma NoNewlineNoLines(s: seq<Byte>)
    requires Consumed(s) == 0
    ensures Lines(s) == []
  {
    LinesCover(s);
    JoinEnds(Lines(s));
  }

  /** Cutting a text at its last newline keeps its lines. */
  lemma CutAtLastNewline(s: seq<Byte>)
    ensures var c := Consumed(s);
      Consumed(s[..c]) == c && Lines(s[..c]) == Lines(s) && Consumed(s[c..]) == 0
  {
    var c := Consumed(s);
    ConsumedMeaning(s);
    assert s[..c][c..] == [];
    ConsumedUnique(s[..c], c);
    assert s == s[..c] + s[c..];
    LinesCompose(s[..c], s[c..]);
    NoNewlineNoLines(s[c..]);
  }

  // ----- the chunked reader -----

  /** How far reading gets: `read(cursor, want)` bytes arrive per call, and a
      call that delivers nothing ends the reading. */
  function Reached(size: nat, cursor: nat, chunk: nat, read: (nat, nat) -> nat): (r: nat)
    requires chunk > 0 && cursor <= size && forall c, w :: read(c, w) <= w
    ensures cursor <= r <= size
    decreases size - cursor
  {
    if cursor == size then cursor
    else
      var want := if chunk < size - cursor then chunk else size - cursor;
      var n := read(cursor, want);
      if n == 0 then cursor else Reached(size, cursor + n, chunk, read)
  }

  /** A reader that always delivers something gets to the end. */
  lemma {:induction false} EagerReachesEnd(size: nat, cursor: nat, chunk: nat, read: (nat, nat) -> nat)
    requires chunk > 0 && cursor <= size && forall c, w :: read(c, w) <= w
    requires forall c, w :: w > 0 ==> read(c, w) > 0
    ensures Reached(size, cursor, chunk, read) == size
    decreases size - cursor
  {
    if cursor < size {
      var want := if chunk < size - cursor then chunk else size - cursor;
      EagerReachesEnd(size, cursor + read(cursor, want), chunk, read);
    }
  }

  /** Scan backwards for the last newline; -1 if there is none. */
  method LastNewline(s: seq<Byte>) returns (at: int)
    ensures at + 1 == Consumed(s)
  {
    at := -1;
    var i := |s| - 1;
    assert s[..|s|] == s;
    while i >= 0
      invariant -1 <= i < |s| && at == -1
      invariant Consumed(s) == Consumed(s[..i + 1])
    {
      assert s[..i + 1][..i] == s[..i];
      if s[i] == NEWLINE { return i; }
      i := i - 1;
    }
    assert s[..0] == [];
  }

  /** What tailing must return: the complete lines between the offset and the
      end of what was read, and the offset just after the last of them. */
  function TailOf(file: seq<Byte>, fromOffset: nat, reached: nat): TailResult
    requires fromOffset <= reached <= |file|
  {
    TailResult(Lines(file[fromOffset..reached]), fromOffset + Consumed(file[fromOffset..reached]), false)
  }

  /** All complete lines up to `lastConsumed` are out, and the bytes carried
      over hold no newline. */
  ghost predicate TailState(file: seq<Byte>, from: nat, lastConsumed: nat, cursor: nat, lines: seq<Line>, carry: seq<Byte>) {
    && from <= lastConsumed <= cursor <= |file|
    && AllOut(file[from..lastConsumed], lines)
    && carry == file[lastConsumed..cursor] && Consumed(carry) == 0
  }

  /** `lines` are the lines of `s`, and `s` ends with the last of them. */
  ghost predicate AllOut(s: seq<Byte>, lines: seq<Line>) {
    lines == Lines(s) && Consumed(s) == |s|
  }

  lemma Slices(s: seq<Byte>, i: nat, j: nat, k: nat)
    requires i <= j <= k <= |s|
    ensures s[i..j] + s[j..k] == s[i..k]
    ensures s[i..k][..j - i] == s[i..j] && s[i..k][j - i..] == s[j..k]
  {
  }

  lemma CutIsOut(s: seq<Byte>)
    ensures AllOut(s[..Consumed(s)], Lines(s)) && Lines(s[..Consumed(s)]) == Lines(s) && Consumed(s[Consumed(s)..]) == 0
  {
    CutAtLastNewline(s);
  }

  lemma OutExtends(a: seq<Byte>, x: seq<Line>, b: seq<Byte>, y: seq<Line>)
    requires AllOut(a, x) && AllOut(b, y)
    ensures AllOut(a + b, x + y)
  {
    LinesCompose(a, b);
  }

  lemma CombinedIs(file: seq<Byte>, last: nat, cursor: nat, end: nat, c: nat)
    requires last <= cursor <= end <= |file| && last + c <= end
    ensures file[last..cursor] + file[cursor..end] == file[last..end]
    ensures file[last..end][..c] == file[last..last + c] && file[last..end][c..] == file[last + c..end]
  {
  }

  lemma OutTo(file: seq<Byte>, from: nat, last: nat, to: nat, lines: seq<Line>, mid: seq<Byte>, more: seq<Line>)
    requires from <= last <= to <= |file| && mid == file[last..to]
    requires AllOut(file[from..last], lines) && AllOut(mid, more)
    ensures AllOut(file[from..to], lines + more)
  {
    Slices(file, from, last, to);
    OutExtends(file[from..last], lines, file[last..to], more);
  }

  lemma CutCombined(file: seq<Byte>, last: nat, cursor: nat, end: nat, combined: seq<Byte>, c: nat)
    requires last <= cursor <= end <= |file|
    requires combined == file[last..cursor] + file[cursor..end] && c == Consumed(combined)
    ensures last + c <= end
    ensures combined[..c] == file[last..last + c] && combined[c..] == file[last + c..end]
    ensures AllOut(combined[..c], Lines(combined[..c])) && Consumed(combined[c..]) == 0
  {
    CombinedIs(file, last, cursor, end, c);
    CutIsOut(combined);
  }

  /** One more chunk: emit what its last newline completes, carry the rest. */
  lemma EmitLines(file: seq<Byte>, from: nat, last: nat, cursor: nat, lines: seq<Line>, carry: seq<Byte>, end: nat,
                  combined: seq<Byte>, c: nat)
    requires TailState(file, from, last, cursor, lines, carry) && cursor <= end <= |file|
    requires combined == carry + file[cursor..end] && c == Consumed(combined)
    ensures last + c <= end
    ensures TailState(file, from, last + c, end, lines + Lines(combined[..c]), combined[c..])
  {
    CutCombined(file, last, cursor, end, combined, c);
    OutTo(file, from, last, last + c, lines, combined[..c], Lines(combined[..c]));
  }

  lemma TailDone(file: seq<Byte>, from: nat, last: nat, cursor: nat, lines: seq<Line>, carry: seq<Byte>)
    requires TailState(file, from, last, cursor, lines, carry)
    ensures lines == Lines(file[from..cursor]) && last == from + Consumed(file[from..cursor])
  {
    Slices(file, from, last, cursor);
    LinesCompose(file[from..last], carry);
    NoNewlineNoLines(carry);
  }

  /** One pass of the loop: what a chunk adds to the lines, and the new carry. */
  method TakeChunk(combined: seq<Byte>) returns (chunkLines: seq<Line>, carry: seq<Byte>)
    ensures chunkLines == Lines(combined[..Consumed(combined)]) && carry == combined[Consumed(combined)..]
  {
    var lastNewline := LastNewline(combined);
    if lastNewline == -1 {
      assert combined[..0] == [] && combined[0..] == combined;
      return [], combined;
    }
    var pieces := Split(combined[..lastNewline + 1]);
    chunkLines, carry := pieces[..|pieces| - 1], combined[lastNewline + 1..];
  }

  /** One pass of the loop, on the bytes just read. */
  method NextChunk(ghost file: seq<Byte>, ghost from: nat, ghost last: nat, ghost cursor: nat,
                   lines: seq<Line>, carry: seq<Byte>, bytes: seq<Byte>) returns (lines': seq<Line>, carry': seq<Byte>)
    requires TailState(file, from, last, cursor, lines, carry)
    requires cursor + |bytes| <= |file| && bytes == file[cursor..cursor + |bytes|]
    ensures from + |carry'| <= cursor + |bytes|
    ensures TailState(file, from, cursor + |bytes| - |carry'|, cursor + |bytes|, lines', carry')
  {
    var combined := carry + bytes;
    EmitLines(file, from, last, cursor, lines, carry, cursor + |bytes|, combined, Consumed(combined));
    var chunkLines, rest := TakeChunk(combined);
    lines', carry' := lines + chunkLines, rest;
  }

  lemma NothingRead(file: seq<Byte>, from: nat)
    requires from <= |file|
    ensures TailState(file, from, from, from, [], []) && TailOf(file, from, from) == TailResult([], from, false)
  {
    assert file[from..from] == [];
  }

  method TailFile(file: seq<Byte>, fromOffset: nat, chunk: nat, read: (nat, nat) -> nat) returns (r: TailResult)
    requires chunk > 0 && forall c, w :: read(c, w) <= w
    ensures fromOffset > |file| ==> r == TailResult([], 0, true)
    ensures fromOffset <= |file| ==> r == TailOf(file, fromOffset, Reached(|file|, fromOffset, chunk, read))
  {
    var size := |file|;
    if fromOffset > size { return TailResult([], 0, true); }
    NothingRead(file, fromOffset);
    if fromOffset == size { return TailResult([], fromOffset, false); }
    var lines: seq<Line> := [];
    var carry: seq<Byte> := [];
    var cursor: nat, lastConsumed: nat := fromOffset, fromOffset;
    while cursor < size
      invariant TailState(file, fromOffset, lastConsumed, cursor, lines, carry)
      invariant Reached(size, cursor, chunk, read) == Reached(size, fromOffset, chunk, read)
      decreases size - cursor
    {
      var want := if chunk < size - cursor then chunk else size - cursor;
      var bytesRead := read(cursor, want);
      if bytesRead == 0 { break; }
      lines, carry := NextChunk(file, fromOffset, lastConsumed, cursor, lines, carry, file[cursor..cursor + bytesRead]);
      cursor := cursor + bytesRead;
      lastConsumed := cursor - |carry|;
    }
    TailDone(file, fromOffset, lastConsumed, cursor, lines, carry);
    r := TailResult(lines, lastConsumed, false);
  }

  // ----- resuming -----

  /** Reading a file to its end, then resuming at the returned offset after
      more bytes were appended, gives the lines and the offset of one reading
      of the whole file. */
  lemma ResumeComposes(file: seq<Byte>, appended: seq<Byte>, fromOffset: nat)
    requires fromOffset <= |file|
    ensures var whole := file + appended;
      var first := TailOf(file, fromOffset, |file|);
      var second := TailOf(whole, first.newOffset, |whole|);
      var once := TailOf(whole, fromOffset, |whole|);
      once.lines == first.lines + second.lines && once.newOffset == second.newOffset
  {
    var whole, text := file + appended, file[fromOffset..];
    var c := fromOffset + Consumed(text);
    assert file[fromOffset..|file|] == text;
    assert whole[c..|whole|] == text[Consumed(text)..] + appended;
    assert whole[fromOffset..|whole|] == text + appended;
    LinesContinue(text, appended);
  }

  /** Appending to a text continues its lines from its last newline on. */
  lemma LinesContinue(text: seq<Byte>, appended: seq<Byte>)
    ensures var rest := text[Consumed(text)..] + appended;
      Lines(text + appended) == Lines(text) + Lines(rest)
      && Consumed(text + appended) == Consumed(text) + Consumed(rest)
  {
    var c := Consumed(text);
    CutAtLastNewline(text);
    assert text + appended == text[..c] + (text[c..] + appended);
    LinesCompose(text[..c], text[c..] + appended);
  }
}
