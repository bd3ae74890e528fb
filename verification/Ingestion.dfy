/** Resumable ingestion equals one-shot ingestion: any number of loads of an
    append-only log leaves the store as one load of the final log would. */
module Ingestion {
  import opened Ir
  import opened Tail
  import opened Sessions

  // ----- the events a log stands for -----

  /** The event contents of a list of lines, in order. */
  function Bodies(lines: seq<Line>, parse: Parser): seq<string> {
    if lines == [] then [] else Bodies(lines[..|lines| - 1], parse) + parse(lines[|lines| - 1]).bodies
  }

  lemma BodiesPush(a: seq<Line>, last: Line, parse: Parser)
    ensures Bodies(a + [last], parse) == Bodies(a, parse) + parse(last).bodies
  {
    assert (a + [last])[..|a|] == a;
  }

  lemma {:induction false} BodiesAppend(a: seq<Line>, b: seq<Line>, parse: Parser)
    ensures Bodies(a + b, parse) == Bodies(a, parse) + Bodies(b, parse)
  {
    if b == [] {
      assert a + b == a;
    } else {
      var init, last := b[..|b| - 1], b[|b| - 1];
      assert a + b == (a + init) + [last] && b == init + [last];
      BodiesAppend(a, init, parse);
      BodiesPush(a + init, last, parse);
      BodiesPush(init, last, parse);
      var x, y, z := Bodies(a, parse), Bodies(init, parse), parse(last).bodies;
      assert (x + y) + z == x + (y + z);
    }
  }

  /** Every line names the session itself or no session. */
  ghost predicate Owned(lines: seq<Line>, id: string, parse: Parser) {
    forall k :: 0 <= k < |lines| ==> parse(lines[k]).owner == None || parse(lines[k]).owner == Some(id)
  }

  function Enumerated(id: string, next: nat, bodies: seq<string>): seq<Event> {
    seq(|bodies|, k requires 0 <= k < |bodies| => Event(id, next + k, bodies[k]))
  }

  lemma EnumeratedConcat(id: string, next: nat, a: seq<string>, b: seq<string>)
    ensures Enumerated(id, next, a + b) == Enumerated(id, next, a) + Enumerated(id, next + |a|, b)
  {
  }

  lemma OfLineIsEnumerated(p: ParsedLine, id: string, next: nat)
    requires p.owner == None || p.owner == Some(id)
    ensures OfLine(p, id, next) == Enumerated(id, next, p.bodies)
  {
  }

  lemma {:induction false} NumberedIsEnumerated(lines: seq<Line>, id: string, next: nat, parse: Parser)
    requires Owned(lines, id, parse)
    ensures Numbered(lines, id, next, parse) == Enumerated(id, next, Bodies(lines, parse))
  {
    if lines != [] {
      var init := lines[..|lines| - 1];
      NumberedIsEnumerated(init, id, next, parse);
      var p, before := parse(lines[|lines| - 1]), Bodies(init, parse);
      OfLineIsEnumerated(p, id, next + |before|);
      EnumeratedConcat(id, next, before, p.bodies);
    }
  }

  // ----- a store in step with a prefix of the log -----

  /** The session's rows are the events of `text`, numbered from 1, its count
      is their number and its offset the end of the last complete line. */
  ghost predicate Synced(db: Db, id: string, text: seq<Byte>, parse: Parser) {
    InStep(db, id, Bodies(Lines(text), parse), Consumed(text))
  }

  ghost predicate InStep(db: Db, id: string, bodies: seq<string>, offset: nat) {
    && id in db.sessions
    && db.sessions[id].byteOffset == offset && db.sessions[id].eventCount == |bodies|
    && HoldsExactly(db.events, id, bodies)
  }

  ghost predicate HoldsExactly(events: EventTable, id: string, bodies: seq<string>) {
    && (forall q :: (id, q) in events <==> 1 <= q <= |bodies|)
    && (forall q :: 1 <= q <= |bodies| ==> events[(id, q)] == bodies[q - 1])
  }

  /** Nothing about other sessions' events differs. */
  ghost predicate OthersKept(a: EventTable, b: EventTable, id: string) {
    forall key: (string, nat) :: key.0 != id ==> (key in a <==> key in b) && (key in a ==> a[key] == b[key])
  }

  ghost predicate Absent(db: Db, id: string) {
    id !in db.sessions && forall q :: (id, q) !in db.events
  }

  lemma MaxIsCount(events: EventTable, id: string, bodies: seq<string>, m: nat)
    requires HoldsExactly(events, id, bodies) && IsMaxSeq(events, id, m)
    ensures m == |bodies|
  {
    if bodies != [] { assert (id, |bodies|) in events; }
  }

  lemma {:induction false} InsertNew(db: Db, id: string, old': seq<string>, more: seq<string>)
    requires id in db.sessions && HoldsExactly(db.events, id, old')
    ensures var (table, count, ok) := InsertedRows(db, Enumerated(id, |old'| + 1, more));
      ok && count == |more| && HoldsExactly(table, id, old' + more) && OthersKept(db.events, table, id)
  {
    var evs := Enumerated(id, |old'| + 1, more);
    if more == [] {
      assert old' + more == old';
    } else {
      var init := more[..|more| - 1];
      assert evs[..|evs| - 1] == Enumerated(id, |old'| + 1, init);
      InsertNew(db, id, old', init);
      var before := InsertedRows(db, evs[..|evs| - 1]).0;
      assert (id, |old'| + |more|) !in before;
      assert old' + more == (old' + init) + [more[|more| - 1]];
    }
  }

  lemma InsertKeepsStep(db: Db, id: string, had: seq<string>, more: seq<string>, offset: nat)
    requires InStep(db, id, had, offset)
    ensures var (d, ok) := Inserted(db, id, Enumerated(id, |had| + 1, more));
      ok && InStep(d, id, had + more, offset) && OthersKept(db.events, d.events, id)
  {
    InsertNew(db, id, had, more);
    if more == [] { assert had + more == had; }
  }

  /** Ingesting the lines that follow keeps the store in step. */
  lemma IngestKeepsStep(db: Db, id: string, m: nat, had: seq<string>, lines: seq<Line>, offset: nat, next: nat, parse: Parser)
    requires InStep(db, id, had, offset) && IsMaxSeq(db.events, id, m)
    requires offset <= next && Owned(lines, id, parse)
    ensures var (d, ok) := Ingested(db, id, m, lines, next, parse);
      ok && InStep(d, id, had + Bodies(lines, parse), next) && OthersKept(db.events, d.events, id)
  {
    MaxIsCount(db.events, id, had, m);
    NumberedIsEnumerated(lines, id, m + 1, parse);
    InsertKeepsStep(db, id, had, Bodies(lines, parse), offset);
  }

  // ----- loads -----

  datatype Load = Load(file: seq<Byte>, statSize: nat, cwd: string, path: string, now: int, chunk: nat, read: (nat, nat) -> nat)

  /** The reader never over-delivers. */
  ghost predicate Reads(l: Load) {
    l.chunk > 0 && forall c, w :: l.read(c, w) <= w
  }

  /** It also always delivers something. */
  ghost predicate ReadsToEnd(l: Load) {
    Reads(l) && forall c, w :: w > 0 ==> l.read(c, w) > 0
  }

  /** The bytes a load that starts at offset `c` has of the file: all of it, or
      a part if a read delivers nothing. */
  ghost function PartRead(l: Load, c: nat): (part: seq<Byte>)
    requires Reads(l) && c <= |l.file|
    ensures part <= l.file && c <= |part|
  {
    l.file[..Reached(|l.file|, c, l.chunk, l.read)]
  }

  lemma AllRead(l: Load, c: nat)
    requires ReadsToEnd(l) && c <= |l.file|
    ensures PartRead(l, c) == l.file
  {
    EagerReachesEnd(|l.file|, c, l.chunk, l.read);
  }

  /** One load of session `id` takes `db` to `d`, without failure if `ok`. */
  ghost predicate Loads(db: Db, d: Db, ok: bool, id: string, l: Load, parse: Parser)
    requires Reads(l)
  {
    exists m: nat :: IsMaxSeq(db.events, id, m)
      && (d, ok) == Loaded(db, id, m, l.file, l.statSize, l.cwd, l.path, l.now, l.chunk, l.read, parse)
  }

  lemma TailContinues(text: seq<Byte>, file: seq<Byte>)
    requires text <= file
    ensures Consumed(text) <= |file|
    ensures var c := Consumed(text);
      Lines(file) == Lines(text) + Lines(file[c..]) && Consumed(file) == c + Consumed(file[c..])
  {
    var c := Consumed(text);
    CutAtLastNewline(text);
    assert file == text[..c] + file[c..];
    LinesCompose(text[..c], file[c..]);
  }

  lemma OwnedRest(a: seq<Line>, b: seq<Line>, id: string, parse: Parser)
    requires Owned(a + b, id, parse)
    ensures Owned(b, id, parse)
  {
    forall k | 0 <= k < |b| ensures parse(b[k]).owner == None || parse(b[k]).owner == Some(id) {
      assert (a + b)[|a| + k] == b[k];
    }
  }

  lemma UpsertKeepsStep(db: Db, id: string, text: seq<Byte>, cwd: string, path: string, now: int, parse: Parser)
    requires Synced(db, id, text, parse) || (Absent(db, id) && text == [])
    ensures Synced(Upserted(db, id, cwd, path, now), id, text, parse)
    ensures Upserted(db, id, cwd, path, now).events == db.events
  {
  }

  /** Reading from an offset within the file, as far as the reads get. */
  lemma ReadsRest(l: Load, c: nat)
    requires Reads(l) && c <= |l.file| && c <= l.statSize
    ensures var rest := PartRead(l, c)[c..];
      ReadFrom(c, l.file, l.statSize, l.chunk, l.read) == TailResult(Lines(rest), c + Consumed(rest), false)
  {
    var e := Reached(|l.file|, c, l.chunk, l.read);
    assert l.file[c..e] == l.file[..e][c..];
  }

  /** Ingesting a tail that continues `text` to `longer`. */
  lemma IngestTail(db: Db, d: Db, ok: bool, id: string, m: nat, text: seq<Byte>, longer: seq<Byte>, lines: seq<Line>,
                   parse: Parser)
    requires Synced(db, id, text, parse) && IsMaxSeq(db.events, id, m)
    requires (d, ok) == Stored(db, id, m, TailResult(lines, Consumed(longer), false), parse)
    requires Lines(longer) == Lines(text) + lines && Consumed(longer) >= Consumed(text)
    requires Owned(lines, id, parse)
    ensures ok && Synced(d, id, longer, parse) && OthersKept(db.events, d.events, id)
  {
    IngestKeepsStep(db, id, m, Bodies(Lines(text), parse), lines, Consumed(text), Consumed(longer), parse);
    BodiesAppend(Lines(text), lines, parse);
  }

  /** The session upserted and what is read from offset `c` on ingested. */
  ghost function RestIngested(db: Db, id: string, m: nat, c: nat, l: Load, parse: Parser): (Db, bool)
    requires Reads(l) && c <= |l.file|
  {
    IngestedFrom(Upserted(db, id, l.cwd, l.path, l.now), id, m, c, PartRead(l, c), parse)
  }

  /** A load from a stored offset within the file ingests the rest. */
  lemma LoadedRest(db: Db, id: string, m: nat, c: nat, l: Load, parse: Parser)
    requires Reads(l) && c <= |l.file| && c <= l.statSize
    requires var up := Upserted(db, id, l.cwd, l.path, l.now); id in up.sessions && up.sessions[id].byteOffset == c
    ensures Loaded(db, id, m, l.file, l.statSize, l.cwd, l.path, l.now, l.chunk, l.read, parse)
            == RestIngested(db, id, m, c, l, parse)
  {
    ReadsRest(l, c);
  }

  /** Everything from offset `c` on ingested. */
  function IngestedFrom(db: Db, id: string, m: nat, c: nat, file: seq<Byte>, parse: Parser): (Db, bool)
    requires c <= |file|
  {
    Stored(db, id, m, TailResult(Lines(file[c..]), c + Consumed(file[c..]), false), parse)
  }

  lemma RestKeepsStep(db: Db, d: Db, ok: bool, id: string, m: nat, text: seq<Byte>, file: seq<Byte>, parse: Parser)
    requires Synced(db, id, text, parse) && IsMaxSeq(db.events, id, m) && Owned(Lines(file), id, parse)
    requires text <= file && Consumed(text) <= |file|
    requires (d, ok) == IngestedFrom(db, id, m, Consumed(text), file, parse)
    ensures ok && Synced(d, id, file, parse) && OthersKept(db.events, d.events, id)
  {
    var c := Consumed(text);
    var rest := file[c..];
    TailContinues(text, file);
    assert Owned(Lines(rest), id, parse) by { OwnedRest(Lines(text), Lines(rest), id, parse); }
    IngestTail(db, d, ok, id, m, text, file, Lines(rest), parse);
  }

  /** Only the complete lines of the text matter. */
  lemma SyncedCut(db: Db, id: string, text: seq<Byte>, parse: Parser)
    requires Synced(db, id, text, parse) || (Absent(db, id) && text == [])
    ensures Consumed(text) <= |text|
    ensures var cut := text[..Consumed(text)];
      Consumed(cut) == Consumed(text) && (Synced(db, id, cut, parse) || (Absent(db, id) && cut == []))
  {
    CutAtLastNewline(text);
  }

  /** A load of a log that has grown since the store was last in step leaves the
      store in step with the part of the log it has read. */
  lemma LoadKeepsStep(db: Db, d: Db, ok: bool, id: string, text: seq<Byte>, l: Load, parse: Parser)
    requires Reads(l) && Loads(db, d, ok, id, l, parse)
    requires Synced(db, id, text, parse) || (Absent(db, id) && text == [])
    requires text <= l.file && |text| <= l.statSize && Owned(Lines(l.file), id, parse)
    ensures Consumed(text) <= |l.file|
    ensures ok && Synced(d, id, PartRead(l, Consumed(text)), parse) && OthersKept(db.events, d.events, id)
  {
    var m: nat :| IsMaxSeq(db.events, id, m)
      && (d, ok) == Loaded(db, id, m, l.file, l.statSize, l.cwd, l.path, l.now, l.chunk, l.read, parse);
    SyncedCut(db, id, text, parse);
    LoadedKeepsStep(db, d, ok, id, m, text[..Consumed(text)], l, parse);
  }

  lemma LoadedKeepsStep(db: Db, d: Db, ok: bool, id: string, m: nat, text: seq<Byte>, l: Load, parse: Parser)
    requires Reads(l) && IsMaxSeq(db.events, id, m)
    requires Synced(db, id, text, parse) || (Absent(db, id) && text == [])
    requires Consumed(text) == |text| && text <= l.file && |text| <= l.statSize && Owned(Lines(l.file), id, parse)
    requires (d, ok) == Loaded(db, id, m, l.file, l.statSize, l.cwd, l.path, l.now, l.chunk, l.read, parse)
    ensures ok && Synced(d, id, PartRead(l, |text|), parse) && OthersKept(db.events, d.events, id)
  {
    PrefixOwned(PartRead(l, |text|), l.file, id, parse);
    UpsertOffset(db, id, text, l.cwd, l.path, l.now, parse);
    LoadedRest(db, id, m, Consumed(text), l, parse);
    UpsertedKeepsStep(db, d, ok, id, m, text, l, parse);
  }

  lemma UpsertOffset(db: Db, id: string, text: seq<Byte>, cwd: string, path: string, now: int, parse: Parser)
    requires Synced(db, id, text, parse) || (Absent(db, id) && text == [])
    ensures var up := Upserted(db, id, cwd, path, now);
      id in up.sessions && up.sessions[id].byteOffset == Consumed(text)
  {
  }

  lemma UpsertedKeepsStep(db: Db, d: Db, ok: bool, id: string, m: nat, text: seq<Byte>, l: Load, parse: Parser)
    requires Synced(db, id, text, parse) || (Absent(db, id) && text == [])
    requires Reads(l) && IsMaxSeq(db.events, id, m) && text <= l.file && Consumed(text) == |text|
    requires Owned(Lines(PartRead(l, |text|)), id, parse)
    requires (d, ok) == RestIngested(db, id, m, Consumed(text), l, parse)
    ensures ok && Synced(d, id, PartRead(l, |text|), parse) && OthersKept(db.events, d.events, id)
  {
    UpsertKeepsStep(db, id, text, l.cwd, l.path, l.now, parse);
    RestKeepsStep(Upserted(db, id, l.cwd, l.path, l.now), d, ok, id, m, text, PartRead(l, |text|), parse);
  }

  /** Each log is the previous one with bytes appended, also between the size
      check and the read of one load. */
  ghost predicate Growing(loads: seq<Load>) {
    && (forall k :: 0 <= k < |loads| ==> Reads(loads[k]))
    && (forall k :: 0 < k < |loads| ==> loads[k - 1].file <= loads[k].file && |loads[k - 1].file| <= loads[k].statSize)
  }

  ghost predicate LoadStep(db: Db, d: Db, id: string, l: Load, parse: Parser)
    requires Reads(l)
  {
    Loads(db, d, true, id, l, parse) || Loads(db, d, false, id, l, parse)
  }

  /** `dbs` are the states before, between and after the loads. */
  ghost predicate Trace(dbs: seq<Db>, id: string, loads: seq<Load>, parse: Parser)
    requires forall k :: 0 <= k < |loads| ==> Reads(loads[k])
  {
    && |dbs| == |loads| + 1
    && forall k :: 0 <= k < |loads| ==> LoadStep(dbs[k], dbs[k + 1], id, loads[k], parse)
  }

  lemma PrefixOwned(a: seq<Byte>, b: seq<Byte>, id: string, parse: Parser)
    requires a <= b && Owned(Lines(b), id, parse)
    ensures Owned(Lines(a), id, parse)
  {
    TailContinues(a, b);
    forall k | 0 <= k < |Lines(a)| ensures parse(Lines(a)[k]).owner == None || parse(Lines(a)[k]).owner == Some(id) {
      assert Lines(b)[k] == Lines(a)[k];
    }
  }

  lemma StepKeepsStep(db: Db, d: Db, id: string, text: seq<Byte>, l: Load, parse: Parser)
    requires Reads(l) && LoadStep(db, d, id, l, parse)
    requires Synced(db, id, text, parse) || (Absent(db, id) && text == [])
    requires text <= l.file && |text| <= l.statSize && Owned(Lines(l.file), id, parse)
    ensures Consumed(text) <= |l.file|
    ensures Synced(d, id, PartRead(l, Consumed(text)), parse) && OthersKept(db.events, d.events, id)
  {
    if Loads(db, d, true, id, l, parse) {
      LoadKeepsStep(db, d, true, id, text, l, parse);
    } else {
      LoadKeepsStep(db, d, false, id, text, l, parse);
    }
  }

  /** After `n` loads the store is in step with a part of the last log, and
      with all of it if the last load read to the end. */
  lemma {:induction false} LoadsKeepStep(dbs: seq<Db>, id: string, loads: seq<Load>, n: nat, parse: Parser)
      returns (text: seq<Byte>)
    requires 0 < n <= |loads| && Growing(loads) && Trace(dbs, id, loads, parse) && Absent(dbs[0], id)
    requires Owned(Lines(loads[n - 1].file), id, parse)
    ensures text <= loads[n - 1].file && (ReadsToEnd(loads[n - 1]) ==> text == loads[n - 1].file)
    ensures Synced(dbs[n], id, text, parse)
    ensures OthersKept(dbs[0].events, dbs[n].events, id)
    decreases n
  {
    assert LoadStep(dbs[n - 1], dbs[n - 1 + 1], id, loads[n - 1], parse);
    var before: seq<Byte> := [];
    if n > 1 {
      PrefixOwned(loads[n - 2].file, loads[n - 1].file, id, parse);
      before := LoadsKeepStep(dbs, id, loads, n - 1, parse);
    }
    StepKeepsStep(dbs[n - 1], dbs[n], id, before, loads[n - 1], parse);
    text := PartRead(loads[n - 1], Consumed(before));
    if ReadsToEnd(loads[n - 1]) { AllRead(loads[n - 1], Consumed(before)); }
  }

  lemma SameTables(a: EventTable, b: EventTable, id: string, bodies: seq<string>)
    requires HoldsExactly(a, id, bodies) && HoldsExactly(b, id, bodies) && OthersKept(a, b, id)
    ensures a == b
  {
    forall key: (string, nat) ensures key in a <==> key in b {
      if key.0 == id { assert key == (id, key.1); }
    }
    forall key: (string, nat) | key in a ensures a[key] == b[key] {
      if key.0 == id { assert key == (id, key.1); }
    }
    assert a.Keys == b.Keys;
  }

  /** Main result. A session not in the store, loaded any number of times while
      its log grows, the last time to its end, ends with the event table, the event count and the stored
      offset that a single load of the final log gives; its sequence numbers
      are exactly 1 to n and the offset is just after the last complete line. */
  lemma ManyLoadsEqualOne(dbs: seq<Db>, id: string, loads: seq<Load>, single: Load, once: Db, ok: bool, parse: Parser)
    requires loads != [] && Growing(loads) && Trace(dbs, id, loads, parse) && Absent(dbs[0], id)
    requires Owned(Lines(loads[|loads| - 1].file), id, parse)
    requires ReadsToEnd(loads[|loads| - 1]) && ReadsToEnd(single) && single.file == loads[|loads| - 1].file && Loads(dbs[0], once, ok, id, single, parse)
    ensures var final, text := dbs[|loads|], loads[|loads| - 1].file;
      var n := |Bodies(Lines(text), parse)|;
      && ok && final.events == once.events && id in final.sessions && id in once.sessions
      && final.sessions[id].eventCount == once.sessions[id].eventCount == n
      && final.sessions[id].byteOffset == once.sessions[id].byteOffset == Consumed(text)
      && forall q :: (id, q) in final.events <==> 1 <= q <= n
  {
    var final, text := dbs[|loads|], loads[|loads| - 1].file;
    var reached := LoadsKeepStep(dbs, id, loads, |loads|, parse);
    LoadKeepsStep(dbs[0], once, ok, id, [], single, parse);
    AllRead(single, Consumed([]));
    SameTables(final.events, once.events, id, Bodies(Lines(text), parse));
  }
}
