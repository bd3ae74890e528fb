/** The session store and resumable ingestion: sequence numbers, offsets and
    counts across any number of loads of a growing log. */
module Sessions {
  import opened Ir
  import opened Tail

  datatype SessionRow = SessionRow(
    cwd: string, path: string, byteOffset: nat, firstSeenAt: int, lastEventAt: int, eventCount: nat)

  /** An event row: its number within the session and its encoded content. */
  datatype Event = Event(sessionId: string, seqNo: nat, body: string)

  /** What parsing one line yields: the session the line names, if any, and the
      contents of its events. */
  datatype ParsedLine = ParsedLine(owner: Option<string>, bodies: seq<string>)

  type Parser = Line -> ParsedLine

  type EventTable = map<(string, nat), string>

  datatype Db = Db(sessions: map<string, SessionRow>, events: EventTable)

  // ----- what the statements do to the tables -----

  /** Insert a session, or only move its last-event time forward. */
  function Upserted(db: Db, id: string, cwd: string, path: string, now: int): Db {
    if id in db.sessions then
      var row := db.sessions[id];
      db.(sessions := db.sessions[id := row.(lastEventAt := if row.lastEventAt < now then now else row.lastEventAt)])
    else db.(sessions := db.sessions[id := SessionRow(cwd, path, 0, now, now, 0)])
  }

  /** The offset only ever grows. */
  function Advanced(db: Db, id: string, offset: nat): Db {
    if id in db.sessions then
      var row := db.sessions[id];
      db.(sessions := db.sessions[id := row.(byteOffset := if row.byteOffset < offset then offset else row.byteOffset)])
    else db
  }

  /** Insert-or-ignore, in order; a row of an unknown session is a foreign-key
      failure that ends the statement sequence. */
  function InsertedRows(db: Db, evs: seq<Event>): (r: (EventTable, nat, bool)) {
    if evs == [] then (db.events, 0, true)
    else
      var (table, count, ok) := InsertedRows(db, evs[..|evs| - 1]);
      var e := evs[|evs| - 1];
      if !ok || e.sessionId !in db.sessions then (table, count, false)
      else if (e.sessionId, e.seqNo) in table then (table, count, true)
      else (table[(e.sessionId, e.seqNo) := e.body], count + 1, true)
  }

  /** Events stored; the session's count grows by the rows inserted. */
  function Inserted(db: Db, id: string, evs: seq<Event>): (Db, bool) {
    if evs == [] then (db, true)
    else
      var (table, count, ok) := InsertedRows(db, evs);
      var stored := db.(events := table);
      if !ok then (stored, false)
      else if id !in db.sessions then (stored, true)
      else (stored.(sessions := db.sessions[id := db.sessions[id].(eventCount := db.sessions[id].eventCount + count)]), true)
  }

  ghost predicate IsMaxSeq(events: EventTable, id: string, m: nat) {
    && (forall q :: (id, q) in events ==> q <= m)
    && (m == 0 || (id, m) in events)
  }

  /** Events of consecutive lines, numbered on from `next`. A line that names
      no session belongs to the one being loaded. */
  function Numbered(lines: seq<Line>, id: string, next: nat, parse: Parser): seq<Event> {
    if lines == [] then []
    else
      var earlier := Numbered(lines[..|lines| - 1], id, next, parse);
      earlier + OfLine(parse(lines[|lines| - 1]), id, next + |earlier|)
  }

  function OfLine(p: ParsedLine, id: string, next: nat): seq<Event> {
    var owner := if p.owner.Some? then p.owner.value else id;
    seq(|p.bodies|, k requires 0 <= k < |p.bodies| => Event(owner, next + k, p.bodies[k]))
  }

  /** The state after ingesting lines read up to `offset`. */
  function Ingested(db: Db, id: string, m: nat, lines: seq<Line>, offset: nat, parse: Parser): (Db, bool) {
    var (stored, ok) := Inserted(db, id, Numbered(lines, id, m + 1, parse));
    if ok then (Advanced(stored, id, offset), true) else (stored, false)
  }

  datatype LoadResult = LoadResult(
    sessionId: string, cwd: string, path: string, newEventCount: nat, totalEventCount: nat, truncated: bool)

  /** The number of events that lines yield. */
  function EventTotal(lines: seq<Line>, parse: Parser): nat {
    if lines == [] then 0 else EventTotal(lines[..|lines| - 1], parse) + |parse(lines[|lines| - 1]).bodies|
  }

  lemma {:induction false} NumberedTotal(lines: seq<Line>, id: string, next: nat, parse: Parser)
    ensures |Numbered(lines, id, next, parse)| == EventTotal(lines, parse)
  {
    if lines != [] { NumberedTotal(lines[..|lines| - 1], id, next, parse); }
  }

  /** The result tells of the session's row as it is afterwards and of the
      events the lines yielded. */
  predicate Reports(r: LoadResult, id: string, row: SessionRow, events: nat, truncated: bool) {
    r == LoadResult(id, row.cwd, row.path, events, row.eventCount, truncated)
  }

  /** The store behind the loader. */
  class Store {
    var sessions: map<string, SessionRow>
    var events: EventTable

    constructor ()
      ensures State() == Db(map[], map[])
    {
      sessions, events := map[], map[];
    }

    function State(): Db
      reads this
    {
      Db(sessions, events)
    }

    method UpsertSession(id: string, cwd: string, path: string, now: int)
      modifies this
      ensures State() == Upserted(old(State()), id, cwd, path, now)
    {
      if id in sessions {
        var row := sessions[id];
        sessions := sessions[id := row.(lastEventAt := if row.lastEventAt < now then now else row.lastEventAt)];
      } else {
        sessions := sessions[id := SessionRow(cwd, path, 0, now, now, 0)];
      }
    }

    method AdvanceByteOffset(id: string, offset: nat)
      modifies this
      ensures State() == Advanced(old(State()), id, offset)
    {
      if id in sessions {
        var row := sessions[id];
        sessions := sessions[id := row.(byteOffset := if row.byteOffset < offset then offset else row.byteOffset)];
      }
    }

    /** The largest sequence number of the session, 0 without events. */
    method GetMaxSeq(id: string) returns (m: nat)
      ensures IsMaxSeq(events, id, m)
    {
      m := 0;
      var todo := events.Keys;
      while todo != {}
        invariant todo <= events.Keys
        invariant forall q :: (id, q) in events && (id, q) !in todo ==> q <= m
        invariant m == 0 || (id, m) in events
        decreases todo
      {
        var key: (string, nat) :| key in todo;
        todo := todo - {key};
        if key.0 == id && key.1 > m { m := key.1; }
      }
    }

    /** Insert-or-ignore every event, counting the rows that were new. */
    method InsertEvents(id: string, evs: seq<Event>) returns (ok: bool)
      modifies this
      ensures (State(), ok) == Inserted(old(State()), id, evs)
    {
      if evs == [] { return true; }
      var inserted := 0;
      ghost var before := State();
      for k := 0 to |evs|
        invariant sessions == before.sessions
        invariant (events, inserted, true) == InsertedRows(before, evs[..k])
      {
        assert evs[..k + 1][..k] == evs[..k];
        var e := evs[k];
        if e.sessionId !in sessions {
          FailureSticks(before, evs, k);
          return false;
        }
        if (e.sessionId, e.seqNo) !in events {
          events := events[(e.sessionId, e.seqNo) := e.body];
          inserted := inserted + 1;
        }
      }
      assert evs[..|evs|] == evs;
      if id in sessions {
        sessions := sessions[id := sessions[id].(eventCount := sessions[id].eventCount + inserted)];
      }
      ok := true;
    }

    method IngestLines(lines: seq<Line>, id: string, offset: nat, truncated: bool, parse: Parser) returns (r: Option<LoadResult>)
      requires id in sessions
      modifies this
      ensures exists m: nat :: IsMaxSeq(old(events), id, m) && (State(), r.Some?) == Ingested(old(State()), id, m, lines, offset, parse)
      ensures r.Some? ==> id in sessions && Reports(r.value, id, sessions[id], EventTotal(lines, parse), truncated)
    {
      var m := GetMaxSeq(id);
      var nextSeq := m + 1;
      var evs: seq<Event> := [];
      for k := 0 to |lines|
        invariant evs == Numbered(lines[..k], id, m + 1, parse) && nextSeq == m + 1 + |evs|
      {
        assert lines[..k + 1][..k] == lines[..k];
        var parsed := OfLine(parse(lines[k]), id, nextSeq);
        evs := evs + parsed;
        nextSeq := nextSeq + |parsed|;
      }
      assert lines[..|lines|] == lines;
      var ok := InsertEvents(id, evs);
      if !ok { return None; }
      AdvanceByteOffset(id, offset);
      NumberedTotal(lines, id, m + 1, parse);
      var row := sessions[id];
      r := Some(LoadResult(id, row.cwd, row.path, |evs|, row.eventCount, truncated));
    }

    /** Load a log: `statSize` is its size when first looked at, `file` its
        content when read; the session is the one the file names, else the one
        its name suggests. No result means a foreign-key failure. */
    method LoadSession(file: seq<Byte>, statSize: nat, inFileId: Option<string>, filenameId: string, cwd: string, path: string,
                       now: int, chunk: nat, read: (nat, nat) -> nat, parse: Parser) returns (r: Option<LoadResult>)
      requires chunk > 0 && forall c, w :: read(c, w) <= w
      modifies this
      ensures var id := if inFileId.Some? then inFileId.value else filenameId;
        exists m: nat :: IsMaxSeq(old(events), id, m)
          && (State(), r.Some?) == Loaded(old(State()), id, m, file, statSize, cwd, path, now, chunk, read, parse)
      ensures var id := if inFileId.Some? then inFileId.value else filenameId;
        var stored := if id in old(sessions) then old(sessions[id].byteOffset) else 0;
        var restarts := stored > statSize || stored > |file|;
        var from := if restarts then 0 else stored;
        var part := file[from..Reached(|file|, from, chunk, read)];
        r.Some? ==> id in sessions && Reports(r.value, id, sessions[id], EventTotal(Lines(part), parse), restarts)
    {
      var id := if inFileId.Some? then inFileId.value else filenameId;
      UpsertSession(id, cwd, path, now);
      var offset := sessions[id].byteOffset;
      var truncated := false;
      if offset > statSize { truncated, offset := true, 0; }
      var tail := TailFile(file, offset, chunk, read);
      if tail.truncated {
        truncated := true;
        tail := TailFile(file, 0, chunk, read);
      }
      r := IngestLines(tail.lines, id, tail.newOffset, truncated, parse);
    }
  }

  lemma {:induction false} FailureSticks(db: Db, evs: seq<Event>, k: nat)
    requires k < |evs| && InsertedRows(db, evs[..k]).2 && evs[k].sessionId !in db.sessions
    ensures InsertedRows(db, evs) == (InsertedRows(db, evs[..k]).0, InsertedRows(db, evs[..k]).1, false)
  {
    if k == |evs| - 1 {
    } else {
      assert evs[..|evs| - 1][..k] == evs[..k];
      FailureSticks(db, evs[..|evs| - 1], k);
    }
  }

  /** What a load reads: from the stored offset, or from the start if the file
      shrank. */
  function ReadFrom(stored: nat, file: seq<Byte>, statSize: nat, chunk: nat, read: (nat, nat) -> nat): TailResult
    requires chunk > 0 && forall c, w :: read(c, w) <= w
  {
    var offset := if stored > statSize || stored > |file| then 0 else stored;
    TailOf(file, offset, Reached(|file|, offset, chunk, read))
  }

  /** The lines of a tail ingested up to its offset. */
  function Stored(db: Db, id: string, m: nat, tail: TailResult, parse: Parser): (Db, bool) {
    Ingested(db, id, m, tail.lines, tail.newOffset, parse)
  }

  /** What a load does: upsert, tail, ingest. */
  function Loaded(db: Db, id: string, m: nat, file: seq<Byte>, statSize: nat, cwd: string, path: string,
                  now: int, chunk: nat, read: (nat, nat) -> nat, parse: Parser): (Db, bool)
    requires chunk > 0 && forall c, w :: read(c, w) <= w
  {
    var up := Upserted(db, id, cwd, path, now);
    Stored(up, id, m, ReadFrom(up.sessions[id].byteOffset, file, statSize, chunk, read), parse)
  }
}
