/** What a clustering call considers and what it writes, row by row. */
module ClustersMeaning {
  import opened Ir
  import opened Similarity
  import opened Clusters
  import opened ClusterTheory

  // ----- candidates -----

  /** Clusters may be joined while they are forming, ripe or synthesized, by
      embeddings of their own model. */
  predicate MayBeJoined(c: Cluster, model: string) {
    c.model == model && (c.status == Forming || c.status == Ripe || c.status == Synthesized)
  }

  /** How many of the first `k` clusters may be joined. */
  function Joinable(listed: seq<Cluster>, model: string, k: nat): nat
    requires k <= |listed|
  {
    if k == 0 then 0 else Joinable(listed, model, k - 1) + if MayBeJoined(listed[k - 1], model) then 1 else 0
  }

  lemma {:induction false} JoinablePrefix(listed: seq<Cluster>, model: string, k: nat, n: nat)
    requires k <= n <= |listed|
    ensures Joinable(listed[..n], model, k) == Joinable(listed, model, k)
  {
    if k > 0 { JoinablePrefix(listed, model, k - 1, n); }
  }

  lemma {:induction false} EligiblePlaces(listed: seq<Cluster>, model: string)
    ensures |Eligible(listed, model)| == Joinable(listed, model, |listed|)
    ensures forall k :: 0 <= k < |listed| && MayBeJoined(listed[k], model) ==>
              Joinable(listed, model, k) < |Eligible(listed, model)|
              && Eligible(listed, model)[Joinable(listed, model, k)] == Candidate(listed[k].id, listed[k].centroid)
  {
    if listed != [] {
      var n := |listed| - 1;
      EligiblePlaces(listed[..n], model);
      JoinablePrefix(listed, model, n, n);
      forall k | 0 <= k < |listed| && MayBeJoined(listed[k], model)
        ensures Joinable(listed, model, k) < |Eligible(listed, model)|
                && Eligible(listed, model)[Joinable(listed, model, k)] == Candidate(listed[k].id, listed[k].centroid)
      {
        if k < n {
          JoinablePrefix(listed, model, k, n);
          assert listed[..n][k] == listed[k];
        }
      }
    }
  }

  /** The candidates of a call are, in order, all the clusters that may be joined
      among the 500 seen most recently, each with its stored centroid. */
  lemma CandidatesMeaning(db: Db, model: string)
    ensures var listed, cs := Listed(db.clusters, 500), Candidates(db, model);
      && Newest(listed) && |listed| == (if |db.clusters| < 500 then |db.clusters| else 500)
      && (forall x :: x in listed ==> x in db.clusters)
      && |cs| == Joinable(listed, model, |listed|)
      && (forall k :: 0 <= k < |listed| && MayBeJoined(listed[k], model) ==>
            Joinable(listed, model, k) < |cs| && cs[Joinable(listed, model, k)] == Candidate(listed[k].id, listed[k].centroid))
  {
    ListingIsNewest(db.clusters, 500);
    NewestFirstKeeps(db.clusters);
    EligiblePlaces(Listed(db.clusters, 500), model);
  }

  // ----- what a call writes -----

  predicate PairStored(members: seq<Member>, cluster: string, episode: string) {
    exists m :: m in members && m.cluster == cluster && m.episode == episode
  }

  /** The member rows afterwards: one more, unless the pair is stored already. */
  predicate MemberAdded(before: seq<Member>, after: seq<Member>, m: Member) {
    after == if PairStored(before, m.cluster, m.episode) then before else before + [m]
  }

  lemma AddMemberMeaning(members: seq<Member>, m: Member)
    ensures MemberAdded(members, AddMember(members, m), m)
  {
    if PairStored(members, m.cluster, m.episode) {
      var x :| x in members && x.cluster == m.cluster && x.episode == m.episode;
      var i :| 0 <= i < |members| && members[i] == x;
    }
  }

  predicate EpisodeSigned(before: Db, after: Db, r: Request) {
    after.signatures == before.signatures[r.episode := Signature(r.embedding, r.model, r.key, r.now)]
  }

  /** Founding signs the episode, appends a forming cluster of one member with
      the embedding as centroid, and records that member. */
  lemma FoundingMeaning(db: Db, r: Request)
    ensures var d := Founded(Signed(db, r), r);
      && EpisodeSigned(db, d, r)
      && d.clusters == db.clusters + [Cluster(r.newId, r.embedding, r.model, 1, 1, 1, r.now, r.now, Forming, None)]
      && MemberAdded(db.members, d.members, Member(r.newId, r.episode, r.now, 1.0))
  {
    AddMemberMeaning(db.members, Member(r.newId, r.episode, r.now, 1.0));
  }

  /** A member of the cluster whose episode is known and belongs to the session. */
  predicate HasSession(log: Log, members: seq<Member>, cluster: string, session: string) {
    exists m :: m in members && m.cluster == cluster && m.episode in log.episodes && log.episodes[m.episode].session == session
  }

  /** The day of a member, in whole days since the epoch: that of its session's
      beginning, or of the episode itself if the session is not on record. */
  predicate HasDay(log: Log, members: seq<Member>, cluster: string, day: int) {
    exists m :: m in members && m.cluster == cluster && m.episode in log.episodes
                && var e := log.episodes[m.episode];
                   var time := if e.session in log.sessions then log.sessions[e.session] else e.createdAt;
                   day * 86_400_000 <= time < (day + 1) * 86_400_000
  }

  lemma DayMeaning(time: int, day: int)
    ensures time / 86_400_000 == day <==> day * 86_400_000 <= time < (day + 1) * 86_400_000
  {
  }

  lemma SpreadMeaning(log: Log, members: seq<Member>, cluster: string)
    ensures forall s :: s in SessionsOf(log, MembersOf(members, cluster)) <==> HasSession(log, members, cluster, s)
    ensures forall d :: d in DaysOf(log, MembersOf(members, cluster)) <==> HasDay(log, members, cluster, d)
  {
    var ms := MembersOf(members, cluster);
    MembersMeaning(members, cluster);
    forall m | m in ms && m.episode in log.episodes ensures HasDay(log, members, cluster, DayOf(log, log.episodes[m.episode])) {
      var e := log.episodes[m.episode];
      DayMeaning(if e.session in log.sessions then log.sessions[e.session] else e.createdAt, DayOf(log, e));
    }
    forall d | HasDay(log, members, cluster, d) ensures d in DaysOf(log, ms) {
      var m :| m in members && m.cluster == cluster && m.episode in log.episodes
               && var e := log.episodes[m.episode];
                  var time := if e.session in log.sessions then log.sessions[e.session] else e.createdAt;
                  d * 86_400_000 <= time < (d + 1) * 86_400_000;
      var e := log.episodes[m.episode];
      DayMeaning(if e.session in log.sessions then log.sessions[e.session] else e.createdAt, d);
      assert m in ms && DayOf(log, e) == d;
    }
  }

  /** The row of a cluster joined: the mean moved, the counts those of its
      members, seen now, and ripe if it was forming and they suffice. */
  ghost predicate RowJoined(log: Log, c: Cluster, d: Cluster, members: seq<Member>, r: Request) {
    && d.id == c.id && d.model == c.model && d.firstSeenAt == c.firstSeenAt && d.suppressedUntil == c.suppressedUntil
    && d.lastSeenAt == r.now && RunningMean(c.centroid, c.memberCount, r.embedding, d.centroid)
    && d.memberCount == |MembersOf(members, c.id)|
    && (exists sessions: set<string> :: d.sessionCount == |sessions|
          && forall s :: s in sessions <==> HasSession(log, members, c.id, s))
    && (exists days: set<int> :: d.dayCount == |days| && forall x :: x in days <==> HasDay(log, members, c.id, x))
    && d.status == if c.status == Forming && (c.suppressedUntil == None || c.suppressedUntil.value <= r.now)
                      && d.sessionCount >= 3 && d.dayCount >= 2 then Ripe else c.status
  }

  /** Joining signs the episode, records the member with its cosine unless it is
      there already, and changes the row of the cluster joined and no other. */
  lemma JoiningMeaning(log: Log, db: Db, i: nat, r: Request, cosine: real)
    requires i < |db.clusters| && |db.clusters[i].centroid| == |r.embedding|
    ensures var d := Joined(log, Signed(db, r), i, r, cosine);
      && EpisodeSigned(db, d, r)
      && MemberAdded(db.members, d.members, Member(db.clusters[i].id, r.episode, r.now, cosine))
      && |d.clusters| == |db.clusters| && (forall j :: 0 <= j < |db.clusters| && j != i ==> d.clusters[j] == db.clusters[j])
      && RowJoined(log, db.clusters[i], d.clusters[i], d.members, r)
  {
    var c, d := db.clusters[i], Joined(log, Signed(db, r), i, r, cosine);
    AddMemberMeaning(db.members, Member(c.id, r.episode, r.now, cosine));
    MeanAdds(c.centroid, c.memberCount, r.embedding);
    SpreadMeaning(log, d.members, c.id);
    var sessions, days := SessionsOf(log, MembersOf(d.members, c.id)), DaysOf(log, MembersOf(d.members, c.id));
    assert d.clusters[i].sessionCount == |sessions| && d.clusters[i].dayCount == |days|;
  }
}
