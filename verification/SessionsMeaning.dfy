/** What the session statements do, row by row and event by event, also when
    events are already stored or belong to other sessions. */
module SessionsMeaning {
  import opened Tail
  import opened Sessions

  /** Only this session's row may differ. */
  predicate OtherRowsKept(a: Db, b: Db, id: string) {
    && (forall x :: x in a.sessions && x != id ==> x in b.sessions && b.sessions[x] == a.sessions[x])
    && (forall x :: x in b.sessions && x != id ==> x in a.sessions)
  }

  function Later(a: int, b: int): int {
    if a < b then b else a
  }

  /** A session seen for the first time gets an empty row with both times now;
      one known keeps its row but for the time of its last event, which never
      goes back. */
  lemma UpsertMeaning(db: Db, id: string, cwd: string, path: string, now: int)
    ensures var d := Upserted(db, id, cwd, path, now);
      && d.events == db.events && OtherRowsKept(db, d, id) && id in d.sessions
      && (id !in db.sessions ==>
            d.sessions[id] == SessionRow(cwd, path, 0, now, now, 0))
      && (id in db.sessions ==>
            var was, row := db.sessions[id], d.sessions[id];
            && row.cwd == was.cwd && row.path == was.path && row.byteOffset == was.byteOffset
            && row.firstSeenAt == was.firstSeenAt && row.eventCount == was.eventCount
            && row.lastEventAt == Later(was.lastEventAt, now))
  {
  }

  /** The stored offset is raised to the new one, never lowered. */
  lemma AdvanceMeaning(db: Db, id: string, offset: nat)
    ensures var d := Advanced(db, id, offset);
      && d.events == db.events && OtherRowsKept(db, d, id) && (id in d.sessions <==> id in db.sessions)
      && (id in db.sessions ==>
            var was, row := db.sessions[id], d.sessions[id];
            && row.cwd == was.cwd && row.path == was.path && row.firstSeenAt == was.firstSeenAt
            && row.lastEventAt == was.lastEventAt && row.eventCount == was.eventCount
            && row.byteOffset >= was.byteOffset && row.byteOffset >= offset
            && (row.byteOffset == was.byteOffset || row.byteOffset == offset))
  {
  }

  // ----- inserting events -----

  predicate IsFor(e: Event, key: (string, nat)) {
    e.sessionId == key.0 && e.seqNo == key.1
  }

  /** The k-th event is the first for that key. */
  predicate FirstFor(evs: seq<Event>, key: (string, nat), k: nat) {
    k < |evs| && IsFor(evs[k], key) && forall j :: 0 <= j < k ==> !IsFor(evs[j], key)
  }

  predicate AllKnown(db: Db, evs: seq<Event>) {
    forall e :: e in evs ==> e.sessionId in db.sessions
  }

  /** What is stored for a key afterwards: what was there, else the body of the
      first event for it, if any. */
  predicate StoredAfter(before: EventTable, evs: seq<Event>, after: EventTable, key: (string, nat)) {
    if key in before then key in after && after[key] == before[key]
    else
      && (key in after <==> exists e :: e in evs && IsFor(e, key))
      && forall k :: 0 <= k < |evs| && FirstFor(evs, key, k) ==> key in after && after[key] == evs[k].body
  }

  lemma {:induction false} RowsInserted(db: Db, evs: seq<Event>)
    requires AllKnown(db, evs)
    ensures InsertedRows(db, evs).2
    ensures InsertedRows(db, evs).1 == |InsertedRows(db, evs).0| - |db.events|
    ensures forall key: (string, nat) :: key in db.events ==> key in InsertedRows(db, evs).0
  {
    if evs != [] {
      assert evs == evs[..|evs| - 1] + [evs[|evs| - 1]];
      RowsInserted(db, evs[..|evs| - 1]);
    }
  }

  lemma FirstForPush(init: seq<Event>, e: Event, key: (string, nat))
    ensures forall k :: 0 <= k < |init| ==> (FirstFor(init + [e], key, k) <==> FirstFor(init, key, k))
    ensures FirstFor(init + [e], key, |init|) <==> IsFor(e, key) && forall x :: x in init ==> !IsFor(x, key)
  {
    var evs := init + [e];
    assert forall j :: 0 <= j < |init| ==> evs[j] == init[j] && init[j] in init;
    if FirstFor(evs, key, |init|) {
      forall x | x in init ensures !IsFor(x, key) {
        var j :| 0 <= j < |init| && init[j] == x;
        assert !IsFor(evs[j], key);
      }
    }
  }

  lemma StoredPush(before: EventTable, init: seq<Event>, e: Event, mid: EventTable, key: (string, nat))
    requires StoredAfter(before, init, mid, key)
    ensures StoredAfter(before, init + [e], mid, key) || (IsFor(e, key) && key !in mid)
    ensures IsFor(e, key) && key !in mid ==> StoredAfter(before, init + [e], mid[key := e.body], key)
  {
    FirstForPush(init, e, key);
    assert forall x :: x in init + [e] <==> x in init || x == e;
  }

  lemma {:induction false} RowStored(db: Db, evs: seq<Event>, key: (string, nat))
    requires AllKnown(db, evs)
    ensures StoredAfter(db.events, evs, InsertedRows(db, evs).0, key)
  {
    if evs != [] {
      var init, e := evs[..|evs| - 1], evs[|evs| - 1];
      assert evs == init + [e];
      RowsInserted(db, init);
      RowStored(db, init, key);
      var mid := InsertedRows(db, init).0;
      StoredPush(db.events, init, e, mid, key);
      assert (e.sessionId, e.seqNo) == key <==> IsFor(e, key);
    }
  }

  /** Inserting events of known sessions stores, for every key that had none,
      the first event for it, leaves what was stored, and raises the session's
      count by the number of rows that are new. */
  lemma InsertMeaning(db: Db, id: string, evs: seq<Event>)
    requires AllKnown(db, evs)
    ensures var (d, ok) := Inserted(db, id, evs);
      && ok && OtherRowsKept(db, d, id) && (id in d.sessions <==> id in db.sessions)
      && (forall key: (string, nat) :: StoredAfter(db.events, evs, d.events, key))
      && (id in db.sessions ==>
            && d.sessions[id].(eventCount := 0) == db.sessions[id].(eventCount := 0)
            && d.sessions[id].eventCount + |db.events| == db.sessions[id].eventCount + |d.events|)
  {
    RowsInserted(db, evs);
    forall key: (string, nat) ensures StoredAfter(db.events, evs, InsertedRows(db, evs).0, key) { RowStored(db, evs, key); }
  }

  /** An event of an unknown session makes the insertion fail. The events before
      it are stored, no session's row changes. */
  lemma {:induction false} InsertFails(db: Db, id: string, evs: seq<Event>, k: nat)
    requires k < |evs| && evs[k].sessionId !in db.sessions && AllKnown(db, evs[..k])
    ensures var (d, ok) := Inserted(db, id, evs);
      !ok && d.sessions == db.sessions && d.events == InsertedRows(db, evs[..k]).0
  {
    RowsInserted(db, evs[..k]);
    FailureSticks(db, evs, k);
  }

  // ----- numbering -----

  /** Events are numbered on from `next` without gaps, line by line; each belongs
      to the session its line names, else to the one being loaded. */
  lemma {:induction false} NumberingMeaning(lines: seq<Line>, id: string, next: nat, parse: Parser, i: nat, j: nat)
    requires i < |lines| && j < |parse(lines[i]).bodies|
    ensures var evs, k := Numbered(lines, id, next, parse), EventTotal(lines[..i], parse) + j;
      && |evs| == EventTotal(lines, parse) && k < |evs|
      && evs[k].seqNo == next + k && evs[k].body == parse(lines[i]).bodies[j]
      && evs[k].sessionId == (match parse(lines[i]).owner case Some(owner) => owner case None => id)
  {
    var n := |lines| - 1;
    NumberedTotal(lines, id, next, parse);
    NumberedTotal(lines[..n], id, next, parse);
    if i < n {
      assert lines[..n][..i] == lines[..i];
      NumberingMeaning(lines[..n], id, next, parse, i, j);
    }
  }

  /** A load ingests the complete lines of what it reads from the stored offset,
      or from the start of a file that has become shorter than that. */
  lemma LoadMeaning(db: Db, id: string, m: nat, file: seq<Byte>, statSize: nat, cwd: string, path: string,
                    now: int, chunk: nat, read: (nat, nat) -> nat, parse: Parser)
    requires chunk > 0 && forall c, w :: read(c, w) <= w
    ensures var stored := if id in db.sessions then db.sessions[id].byteOffset else 0;
      var from := if stored > statSize || stored > |file| then 0 else stored;
      var part := file[from..Reached(|file|, from, chunk, read)];
      var (inserted, ok) := Inserted(Upserted(db, id, cwd, path, now), id, Numbered(Lines(part), id, m + 1, parse));
      Loaded(db, id, m, file, statSize, cwd, path, now, chunk, read, parse)
      == if ok then (Advanced(inserted, id, from + Consumed(part)), true) else (inserted, false)
  {
  }
}
