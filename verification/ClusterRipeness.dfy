/** Ripeness follows the members: recorded session and day counts are exact, a
    forming cluster turns ripe when they suffice, and none is demoted. */
module ClusterRipeness {
  import opened Sets
  import opened Similarity
  import opened Clusters
  import opened ClusterTheory

  /** The recorded counts are those of the members; a ripe cluster's members
      span enough sessions and days, and a forming one's do not, unless it was
      suppressed. */
  ghost predicate RipenessHolds(log: Log, db: Db, c: Cluster) {
    var ms := MembersOf(db.members, c.id);
    var sessions, days := |SessionsOf(log, ms)|, |DaysOf(log, ms)|;
    && c.sessionCount == sessions && c.dayCount == days
    && (c.status == Ripe ==> IsRipe(sessions, days))
    && (c.status == Forming && c.suppressedUntil.None? ==> !IsRipe(sessions, days))
  }

  ghost predicate RipenessExact(log: Log, db: Db) {
    forall i :: 0 <= i < |db.clusters| ==> RipenessHolds(log, db, db.clusters[i])
  }

  lemma SpreadGrows(log: Log, ms: seq<Member>, m: Member)
    requires IsRipe(|SessionsOf(log, ms)|, |DaysOf(log, ms)|)
    ensures IsRipe(|SessionsOf(log, ms + [m])|, |DaysOf(log, ms + [m])|)
  {
    SubsetSize(SessionsOf(log, ms), SessionsOf(log, ms + [m]));
    SubsetSize(DaysOf(log, ms), DaysOf(log, ms + [m]));
  }

  /** No call demotes a cluster or touches another one: at most one row changes,
      and its status only from forming to ripe. */
  ghost predicate OnlyRipens(a: seq<Cluster>, b: seq<Cluster>) {
    && |a| <= |b|
    && (forall i, j :: 0 <= i < j < |a| ==> a[i] == b[i] || a[j] == b[j])
    && (forall i :: 0 <= i < |a| ==> RowRipens(a[i], b[i]))
  }

  predicate RowRipens(a: Cluster, b: Cluster) {
    b.id == a.id && b.model == a.model && b.firstSeenAt == a.firstSeenAt && b.suppressedUntil == a.suppressedUntil
    && (b.status == a.status || (a.status == Forming && b.status == Ripe))
  }

  lemma MoreMembersStayRipe(log: Log, members: seq<Member>, m: Member, id: string)
    requires var ms := MembersOf(members, id); IsRipe(|SessionsOf(log, ms)|, |DaysOf(log, ms)|)
    ensures var ms := MembersOf(AddMember(members, m), id); IsRipe(|SessionsOf(log, ms)|, |DaysOf(log, ms)|)
  {
    MembersAppend(members, m, id);
    SpreadGrows(log, MembersOf(members, id), m);
  }

  /** A row another cluster's new member leaves alone. */
  lemma UntouchedRipeness(log: Log, db: Db, after: Db, c: Cluster, m: Member)
    requires RipenessHolds(log, db, c) && after.members == AddMember(db.members, m) && m.cluster != c.id
    ensures RipenessHolds(log, after, c)
  {
    MembersAppend(db.members, m, c.id);
  }

  lemma JoinRipens(log: Log, db: Db, i: nat, r: Request, cosine: real)
    requires Keyed(db) && RipenessExact(log, db) && i < |db.clusters| && |db.clusters[i].centroid| == |r.embedding|
    ensures RipenessExact(log, Joined(log, Signed(db, r), i, r, cosine))
    ensures OnlyRipens(db.clusters, Joined(log, Signed(db, r), i, r, cosine).clusters)
  {
    var after := Joined(log, Signed(db, r), i, r, cosine);
    var m := Member(db.clusters[i].id, r.episode, r.now, cosine);
    forall j | 0 <= j < |after.clusters| ensures RipenessHolds(log, after, after.clusters[j]) {
      assert RipenessHolds(log, db, db.clusters[j]);
      if j != i {
        assert db.clusters[j].id != db.clusters[i].id;
        UntouchedRipeness(log, db, after, db.clusters[j], m);
      } else if db.clusters[i].status == Ripe {
        MoreMembersStayRipe(log, db.members, m, db.clusters[i].id);
      }
    }
  }

  /** A cluster's first member is of one session and one day. */
  lemma FounderSpread(log: Log, m: Member)
    requires m.episode in log.episodes
    ensures |SessionsOf(log, [m])| == |DaysOf(log, [m])| == 1
  {
    var e := log.episodes[m.episode];
    assert SessionsOf(log, [m]) == {e.session} && DaysOf(log, [m]) == {DayOf(log, e)};
  }

  lemma FoundingRipens(log: Log, db: Db, r: Request)
    requires Keyed(db) && RipenessExact(log, db) && Find(db.clusters, r.newId).None? && r.episode in log.episodes
    ensures RipenessExact(log, Founded(Signed(db, r), r))
    ensures OnlyRipens(db.clusters, Founded(Signed(db, r), r).clusters)
  {
    var after := Founded(Signed(db, r), r);
    var m := Member(r.newId, r.episode, r.now, 1.0);
    forall j | 0 <= j < |after.clusters| ensures RipenessHolds(log, after, after.clusters[j]) {
      if j < |db.clusters| {
        assert RipenessHolds(log, db, db.clusters[j]) && db.clusters[j].id != r.newId;
        UntouchedRipeness(log, db, after, db.clusters[j], m);
      } else {
        FounderRipeness(log, db, r);
      }
    }
  }

  lemma FounderRipeness(log: Log, db: Db, r: Request)
    requires Keyed(db) && Find(db.clusters, r.newId).None? && r.episode in log.episodes
    ensures var after := Founded(Signed(db, r), r);
      RipenessHolds(log, after, after.clusters[|db.clusters|])
  {
    var after, m := Founded(Signed(db, r), r), Member(r.newId, r.episode, r.now, 1.0);
    NoMembersYet(db, r.newId);
    HeldMeaning(db.members, r.newId, r.episode);
    MembersAppend(db.members, m, r.newId);
    assert MembersOf(after.members, r.newId) == [m];
    FounderSpread(log, m);
  }

  /** Every call keeps ripeness exact and never demotes. */
  lemma StepRipens(sqrt: real -> real, log: Log, before: Db, r: Request, after: Db, out: Outcome)
    requires IsSquareRoot(sqrt) && Step(sqrt, log, before, r, after, out)
    requires Keyed(before) && RipenessExact(log, before) && Find(before.clusters, r.newId).None?
    ensures RipenessExact(log, after) && OnlyRipens(before.clusters, after.clusters)
  {
    if r.episode in log.episodes {
      var cs := Candidates(before, r.model);
      if SomeNear(sqrt, r.embedding, cs, r.threshold) {
        var k: nat :| JoinsNearest(sqrt, log, before, r, after, out, cs, k);
        var i := Find(before.clusters, cs[k].id).value;
        JoinRipens(log, before, i, r, CosineOf(sqrt, r.embedding, cs[k].centroid));
      } else {
        FoundingRipens(log, before, r);
      }
    }
  }

  /** In every run, repeated episodes or not, counts and ripeness follow the
      members. */
  lemma {:induction false} RipenessInRuns(sqrt: real -> real, log: Log, dbs: seq<Db>, rs: seq<Request>, outs: seq<Outcome>, n: nat)
    requires IsSquareRoot(sqrt) && Run(sqrt, log, dbs, rs, outs) && n <= |rs|
    ensures RipenessExact(log, dbs[n])
  {
    if n > 0 {
      RipenessInRuns(sqrt, log, dbs, rs, outs, n - 1);
      RunKeepsKeys(sqrt, log, dbs, rs, outs, n - 1);
      assert Step(sqrt, log, dbs[n - 1], rs[n - 1], dbs[n], outs[n - 1]);
      StepRipens(sqrt, log, dbs[n - 1], rs[n - 1], dbs[n], outs[n - 1]);
    }
  }
}
