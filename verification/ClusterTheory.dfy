/** The cluster tables as rows: the listing is the newest clusters, and every
    call keeps the keys and references the tables declare. */
module ClusterTheory {
  import opened Similarity
  import opened Clusters

  // ----- the listing -----

  ghost predicate Newest(s: seq<Cluster>) {
    forall i, j :: 0 <= i < j < |s| ==> s[i].lastSeenAt >= s[j].lastSeenAt
  }

  lemma {:induction false} InsertSorted(s: seq<Cluster>, c: Cluster)
    requires Newest(s)
    ensures Newest(InsertByTime(s, c)) && |InsertByTime(s, c)| == |s| + 1
  {
    if !(s == [] || s[|s| - 1].lastSeenAt >= c.lastSeenAt) {
      var init := s[..|s| - 1];
      InsertSorted(init, c);
      InsertKeeps(init, c);
      forall x | x in InsertByTime(init, c) ensures x.lastSeenAt >= s[|s| - 1].lastSeenAt {
        if x != c { assert x in init; }
      }
    }
  }

  /** The clusters considered are the most recently seen, newest first. */
  lemma {:induction false} ListingIsNewest(clusters: seq<Cluster>, limit: nat)
    ensures Newest(Listed(clusters, limit))
    ensures |Listed(clusters, limit)| == if |clusters| < limit then |clusters| else limit
    ensures forall x, y :: x in Listed(clusters, limit) && y in clusters && y !in Listed(clusters, limit) ==>
              x.lastSeenAt >= y.lastSeenAt
  {
    SortedNewest(clusters);
    NewestFirstKeeps(clusters);
    var all, some := NewestFirst(clusters), Listed(clusters, limit);
    forall x, y | x in some && y in clusters && y !in some ensures x.lastSeenAt >= y.lastSeenAt {
      assert y in all;
      var i :| 0 <= i < |some| && some[i] == x;
      var j :| 0 <= j < |all| && all[j] == y;
      assert all[i] == x;
      assert forall t :: 0 <= t < |some| ==> some[t] in some && all[t] == some[t];
      assert j >= |some|;
    }
  }

  lemma {:induction false} SortedNewest(clusters: seq<Cluster>)
    ensures Newest(NewestFirst(clusters)) && |NewestFirst(clusters)| == |clusters|
  {
    if clusters != [] {
      SortedNewest(clusters[..|clusters| - 1]);
      InsertSorted(NewestFirst(clusters[..|clusters| - 1]), clusters[|clusters| - 1]);
    }
  }

  // ----- memberships -----

  lemma MembersAppend(ms: seq<Member>, m: Member, id: string)
    ensures MembersOf(ms + [m], id) == if m.cluster == id then MembersOf(ms, id) + [m] else MembersOf(ms, id)
  {
    assert (ms + [m])[..|ms|] == ms;
  }

  lemma {:induction false} MembersMeaning(ms: seq<Member>, id: string)
    ensures forall m :: m in MembersOf(ms, id) <==> m in ms && m.cluster == id
  {
    if ms != [] {
      MembersMeaning(ms[..|ms| - 1], id);
      assert ms == ms[..|ms| - 1] + [ms[|ms| - 1]];
    }
  }

  ghost predicate EpisodesOnce(ms: seq<Member>) {
    forall i, j :: 0 <= i < j < |ms| ==> ms[i].episode != ms[j].episode
  }

  /** Within one cluster's list no episode occurs twice. */
  lemma {:induction false} MembersOnce(members: seq<Member>, id: string)
    requires UniquePairs(members)
    ensures EpisodesOnce(MembersOf(members, id))
  {
    if members != [] {
      var init, last := members[..|members| - 1], members[|members| - 1];
      assert UniquePairs(init);
      MembersOnce(init, id);
      MembersMeaning(init, id);
      var ms := MembersOf(init, id);
      if last.cluster == id {
        forall i | 0 <= i < |ms| ensures ms[i].episode != last.episode {
          assert ms[i] in ms;
          var j :| 0 <= j < |init| && init[j] == ms[i];
          assert members[j] == ms[i] && members[|init|] == last && ms[i].cluster == id;
        }
        assert MembersOf(members, id) == ms + [last];
      }
    }
  }

  /** Whether a cluster's member list holds an episode. */
  lemma HeldMeaning(members: seq<Member>, id: string, episode: string)
    ensures HasMember(members, id, episode)
            <==> exists k :: 0 <= k < |MembersOf(members, id)| && MembersOf(members, id)[k].episode == episode
  {
    var ms := MembersOf(members, id);
    MembersMeaning(members, id);
    if HasMember(members, id, episode) {
      var i :| 0 <= i < |members| && members[i].cluster == id && members[i].episode == episode;
      assert members[i] in ms;
      var k :| 0 <= k < |ms| && ms[k] == members[i];
      assert MembersOf(members, id)[k].episode == episode;
    }
    forall k | 0 <= k < |ms| && ms[k].episode == episode ensures HasMember(members, id, episode) {
      assert ms[k] in ms && ms[k].cluster == id;
      AlreadyMember(members, ms[k]);
    }
  }

  lemma AlreadyMember(members: seq<Member>, m: Member)
    requires m in members
    ensures HasMember(members, m.cluster, m.episode)
  {
    var i :| 0 <= i < |members| && members[i] == m;
  }

  // ----- keys and references -----

  /** The keys the tables declare, and every member row refers to a cluster and
      to a signed episode. */
  ghost predicate Keyed(db: Db) {
    && UniqueIds(db.clusters)
    && (forall m :: m in db.members ==> Find(db.clusters, m.cluster).Some? && m.episode in db.signatures)
    && UniquePairs(db.members)
  }

  ghost predicate UniquePairs(members: seq<Member>) {
    forall i, j :: 0 <= i < j < |members| ==>
      members[i].cluster != members[j].cluster || members[i].episode != members[j].episode
  }

  lemma NoMembersYet(db: Db, id: string)
    requires Keyed(db) && Find(db.clusters, id).None?
    ensures MembersOf(db.members, id) == []
  {
    MembersMeaning(db.members, id);
    forall m | m in db.members ensures m.cluster != id {
      var i := Find(db.clusters, m.cluster).value;
    }
    assert MembersOf(db.members, id) != [] ==> MembersOf(db.members, id)[0] in MembersOf(db.members, id);
  }

  lemma SameIdsFound(a: seq<Cluster>, b: seq<Cluster>)
    requires |a| <= |b| && forall j :: 0 <= j < |a| ==> b[j].id == a[j].id
    ensures forall id :: Find(a, id).Some? ==> Find(b, id).Some?
  {
    forall id | Find(a, id).Some? ensures Find(b, id).Some? {
      assert b[Find(a, id).value].id == id;
    }
  }

  /** Keys and references survive a call that adds one member, if it is not
      there already, and keeps the clusters' identifiers. */
  lemma KeyedAfter(db: Db, after: Db, m: Member)
    requires Keyed(db) && UniqueIds(after.clusters) && after.members == AddMember(db.members, m)
    requires m.episode in after.signatures && db.signatures.Keys <= after.signatures.Keys
    requires forall id :: Find(db.clusters, id).Some? ==> Find(after.clusters, id).Some?
    requires Find(after.clusters, m.cluster).Some?
    ensures Keyed(after)
  {
  }

  lemma JoinKeepsKeys(log: Log, db: Db, i: nat, r: Request, cosine: real)
    requires Keyed(db) && i < |db.clusters| && |db.clusters[i].centroid| == |r.embedding|
    ensures Keyed(Joined(log, Signed(db, r), i, r, cosine))
  {
    var after := Joined(log, Signed(db, r), i, r, cosine);
    assert forall j :: 0 <= j < |db.clusters| ==> after.clusters[j].id == db.clusters[j].id;
    SameIdsFound(db.clusters, after.clusters);
    assert Find(after.clusters, db.clusters[i].id).Some?;
    KeyedAfter(db, after, Member(db.clusters[i].id, r.episode, r.now, cosine));
  }

  lemma FoundingKeepsKeys(db: Db, r: Request)
    requires Keyed(db) && Find(db.clusters, r.newId).None?
    ensures Keyed(Founded(Signed(db, r), r))
  {
    var after := Founded(Signed(db, r), r);
    SameIdsFound(db.clusters, after.clusters);
    assert after.clusters[|db.clusters|].id == r.newId;
    KeyedAfter(db, after, Member(r.newId, r.episode, r.now, 1.0));
  }

  lemma JoinedRow(sqrt: real -> real, log: Log, before: Db, r: Request, after: Db, out: Outcome, k: nat)
    requires IsSquareRoot(sqrt) && UniqueIds(before.clusters)
    requires JoinsNearest(sqrt, log, before, r, after, out, Candidates(before, r.model), k)
    ensures var i := Find(before.clusters, Candidates(before, r.model)[k].id).value;
            before.clusters[i].model == r.model
  {
    CandidatesFromTable(before, r.model);
  }

  /** Every call keeps the keys and references of the tables. */
  lemma StepKeepsKeys(sqrt: real -> real, log: Log, before: Db, r: Request, after: Db, out: Outcome)
    requires IsSquareRoot(sqrt) && Step(sqrt, log, before, r, after, out)
    requires Keyed(before) && Find(before.clusters, r.newId).None?
    ensures Keyed(after) && after.signatures.Keys <= before.signatures.Keys + {r.episode}
  {
    if r.episode in log.episodes {
      var cs := Candidates(before, r.model);
      if SomeNear(sqrt, r.embedding, cs, r.threshold) {
        var k: nat :| JoinsNearest(sqrt, log, before, r, after, out, cs, k);
        JoinKeepsKeys(log, before, Find(before.clusters, cs[k].id).value, r, CosineOf(sqrt, r.embedding, cs[k].centroid));
      } else {
        FoundingKeepsKeys(before, r);
      }
    }
  }

  // ----- whole runs -----

  /** A run of calls from empty tables. */
  ghost predicate Run(sqrt: real -> real, log: Log, dbs: seq<Db>, rs: seq<Request>, outs: seq<Outcome>)
    requires IsSquareRoot(sqrt)
  {
    && |dbs| == |rs| + 1 && |outs| == |rs| && dbs[0] == Db(map[], [], [])
    && (forall i :: 0 <= i < |rs| ==> Step(sqrt, log, dbs[i], rs[i], dbs[i + 1], outs[i]))
    && (forall i :: 0 <= i < |rs| ==> Find(dbs[i].clusters, rs[i].newId).None?)
  }

  ghost predicate DistinctEpisodes(rs: seq<Request>) {
    forall i, j :: 0 <= i < j < |rs| ==> rs[i].episode != rs[j].episode
  }

  function EpisodesUpTo(rs: seq<Request>, n: nat): set<string>
    requires n <= |rs|
  {
    set i | 0 <= i < n :: rs[i].episode
  }

  lemma {:induction false} RunKeepsKeys(sqrt: real -> real, log: Log, dbs: seq<Db>, rs: seq<Request>, outs: seq<Outcome>, n: nat)
    requires IsSquareRoot(sqrt) && Run(sqrt, log, dbs, rs, outs) && n <= |rs|
    ensures Keyed(dbs[n]) && dbs[n].signatures.Keys <= EpisodesUpTo(rs, n)
  {
    if n > 0 {
      RunKeepsKeys(sqrt, log, dbs, rs, outs, n - 1);
      assert Step(sqrt, log, dbs[n - 1], rs[n - 1], dbs[n], outs[n - 1]);
      StepKeepsKeys(sqrt, log, dbs[n - 1], rs[n - 1], dbs[n], outs[n - 1]);
    }
  }
}
