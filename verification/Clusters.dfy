/** The cluster tables: admitting an episode into the nearest cluster, or
    founding one, with running centroid, counts and ripeness. */
module Clusters {
  import opened Ir
  import opened Similarity

  datatype Status = Forming | Ripe | Synthesized | Adopted | Dismissed

  datatype Cluster = Cluster(
    id: string, centroid: Vector, model: string, memberCount: nat, sessionCount: nat, dayCount: nat,
    firstSeenAt: int, lastSeenAt: int, status: Status, suppressedUntil: Option<int>)

  datatype Member = Member(cluster: string, episode: string, addedAt: int, cosine: real)

  datatype Signature = Signature(embedding: Vector, model: string, key: string, createdAt: int)

  datatype Episode = Episode(session: string, createdAt: int)

  /** The tables that admitting an episode writes. */
  datatype Db = Db(signatures: map<string, Signature>, clusters: seq<Cluster>, members: seq<Member>)

  /** The tables it only reads: the episodes, and when each session began. */
  datatype Log = Log(episodes: map<string, Episode>, sessions: map<string, int>)

  /** One call; `newId` is the identifier drawn for a cluster it may found. */
  datatype Request = Request(
    episode: string, embedding: Vector, model: string, key: string, threshold: real, now: int, newId: string)

  datatype Outcome = Outcome(cluster: string, status: Status, cosine: real, isNew: bool) | UnknownEpisode

  const LIST_LIMIT: nat := 500
  const MIN_SESSIONS: nat := 3
  const MIN_DAYS: nat := 2
  const DAY_MS: int := 86_400_000

  // ----- queries -----

  function Find(clusters: seq<Cluster>, id: string): (r: Option<nat>)
    ensures r.Some? ==> r.value < |clusters| && clusters[r.value].id == id
    ensures r.None? <==> forall i :: 0 <= i < |clusters| ==> clusters[i].id != id
  {
    if clusters == [] then None
    else if clusters[|clusters| - 1].id == id then Some(|clusters| - 1)
    else Find(clusters[..|clusters| - 1], id)
  }

  /** Places a cluster behind those seen as recently. */
  function InsertByTime(sorted: seq<Cluster>, c: Cluster): seq<Cluster> {
    if sorted == [] || sorted[|sorted| - 1].lastSeenAt >= c.lastSeenAt then sorted + [c]
    else InsertByTime(sorted[..|sorted| - 1], c) + [sorted[|sorted| - 1]]
  }

  function NewestFirst(clusters: seq<Cluster>): seq<Cluster> {
    if clusters == [] then []
    else InsertByTime(NewestFirst(clusters[..|clusters| - 1]), clusters[|clusters| - 1])
  }

  function Listed(clusters: seq<Cluster>, limit: nat): seq<Cluster> {
    var all := NewestFirst(clusters);
    if |all| <= limit then all else all[..limit]
  }

  /** The clusters an embedding of this model may join. */
  predicate Open(c: Cluster, model: string) {
    c.model == model && c.status != Dismissed && c.status != Adopted
  }

  function Eligible(listed: seq<Cluster>, model: string): seq<Candidate> {
    if listed == [] then []
    else
      var rest, c := Eligible(listed[..|listed| - 1], model), listed[|listed| - 1];
      if Open(c, model) then rest + [Candidate(c.id, c.centroid)] else rest
  }

  function Candidates(db: Db, model: string): seq<Candidate> {
    Eligible(Listed(db.clusters, LIST_LIMIT), model)
  }

  function MembersOf(members: seq<Member>, id: string): seq<Member> {
    if members == [] then []
    else
      var rest, m := MembersOf(members[..|members| - 1], id), members[|members| - 1];
      if m.cluster == id then rest + [m] else rest
  }

  predicate HasMember(members: seq<Member>, cluster: string, episode: string) {
    exists i :: 0 <= i < |members| && members[i].cluster == cluster && members[i].episode == episode
  }

  /** Insert-or-ignore on the pair of cluster and episode. */
  function AddMember(members: seq<Member>, m: Member): seq<Member> {
    if HasMember(members, m.cluster, m.episode) then members else members + [m]
  }

  // ----- statistics -----

  function SessionsOf(log: Log, ms: seq<Member>): set<string> {
    set m | m in ms && m.episode in log.episodes :: log.episodes[m.episode].session
  }

  /** The UTC day an episode counts for: its session's first, or its own. */
  function DayOf(log: Log, e: Episode): int {
    (if e.session in log.sessions then log.sessions[e.session] else e.createdAt) / DAY_MS
  }

  function DaysOf(log: Log, ms: seq<Member>): set<int> {
    set m | m in ms && m.episode in log.episodes :: DayOf(log, log.episodes[m.episode])
  }

  predicate Suppressed(c: Cluster, now: int) {
    c.suppressedUntil.Some? && now < c.suppressedUntil.value
  }

  predicate IsRipe(sessions: nat, days: nat) {
    sessions >= MIN_SESSIONS && days >= MIN_DAYS
  }

  // ----- what one call does -----

  function Signed(db: Db, r: Request): Db {
    db.(signatures := db.signatures[r.episode := Signature(r.embedding, r.model, r.key, r.now)])
  }

  function Founded(db: Db, r: Request): Db {
    db.(clusters := db.clusters + [Cluster(r.newId, r.embedding, r.model, 1, 1, 1, r.now, r.now, Forming, None)],
        members := AddMember(db.members, Member(r.newId, r.episode, r.now, 1.0)))
  }

  /** The cluster after its member list has become `ms`. */
  function Admitted(log: Log, c: Cluster, ms: seq<Member>, mean: Vector, now: int): Cluster {
    var sessions, days := |SessionsOf(log, ms)|, |DaysOf(log, ms)|;
    c.(centroid := mean, memberCount := |ms|, sessionCount := sessions, dayCount := days, lastSeenAt := now,
       status := if c.status == Forming && !Suppressed(c, now) && IsRipe(sessions, days) then Ripe else c.status)
  }

  function Joined(log: Log, db: Db, i: nat, r: Request, cosine: real): Db
    requires i < |db.clusters| && |db.clusters[i].centroid| == |r.embedding|
  {
    var c := db.clusters[i];
    var members := AddMember(db.members, Member(c.id, r.episode, r.now, cosine));
    var mean := MeanOf(c.centroid, c.memberCount, r.embedding);
    db.(clusters := db.clusters[i := Admitted(log, c, MembersOf(members, c.id), mean, r.now)], members := members)
  }

  /** One call's effect: the k-th candidate, the nearest, is joined if it is
      near enough, and otherwise a cluster is founded. */
  ghost predicate Step(sqrt: real -> real, log: Log, before: Db, r: Request, after: Db, out: Outcome)
    requires IsSquareRoot(sqrt)
  {
    if r.episode !in log.episodes then out == UnknownEpisode && after == before
    else
      var cs := Candidates(before, r.model);
      if SomeNear(sqrt, r.embedding, cs, r.threshold) then
        exists k :: JoinsNearest(sqrt, log, before, r, after, out, cs, k)
      else
        out == Outcome(r.newId, Forming, 1.0, true) && after == Founded(Signed(before, r), r)
  }

  ghost predicate JoinsNearest(sqrt: real -> real, log: Log, before: Db, r: Request, after: Db, out: Outcome,
                               cs: seq<Candidate>, k: nat)
    requires IsSquareRoot(sqrt)
  {
    && Nearest(sqrt, r.embedding, cs, k) && Find(before.clusters, cs[k].id).Some?
    && var i := Find(before.clusters, cs[k].id).value;
       var cosine := CosineOf(sqrt, r.embedding, cs[k].centroid);
       && |before.clusters[i].centroid| == |r.embedding|
       && after == Joined(log, Signed(before, r), i, r, cosine)
       && out == Outcome(cs[k].id, after.clusters[i].status, cosine, false)
  }

  ghost predicate UniqueIds(clusters: seq<Cluster>) {
    forall i, j :: 0 <= i < j < |clusters| ==> clusters[i].id != clusters[j].id
  }

  /** A candidate is an open row of the cluster table. */
  ghost predicate FromTable(clusters: seq<Cluster>, model: string, c: Candidate) {
    exists x :: x in clusters && Open(x, model) && x.id == c.id && x.centroid == c.centroid
  }

  lemma {:induction false} EligibleFromTable(listed: seq<Cluster>, model: string)
    ensures forall c :: c in Eligible(listed, model) ==> FromTable(listed, model, c)
  {
    if listed != [] {
      var init, last := listed[..|listed| - 1], listed[|listed| - 1];
      assert listed == init + [last];
      EligibleFromTable(init, model);
      forall c | c in Eligible(listed, model) ensures FromTable(listed, model, c) {
        if c in Eligible(init, model) {
          var x :| x in init && Open(x, model) && x.id == c.id && x.centroid == c.centroid;
          assert x in listed;
        }
      }
    }
  }

  lemma {:induction false} InsertKeeps(sorted: seq<Cluster>, c: Cluster)
    ensures forall x :: x in InsertByTime(sorted, c) <==> x in sorted || x == c
  {
    if !(sorted == [] || sorted[|sorted| - 1].lastSeenAt >= c.lastSeenAt) {
      InsertKeeps(sorted[..|sorted| - 1], c);
      assert sorted == sorted[..|sorted| - 1] + [sorted[|sorted| - 1]];
    }
  }

  lemma {:induction false} NewestFirstKeeps(clusters: seq<Cluster>)
    ensures forall x :: x in NewestFirst(clusters) <==> x in clusters
  {
    if clusters != [] {
      var init, last := clusters[..|clusters| - 1], clusters[|clusters| - 1];
      assert clusters == init + [last];
      NewestFirstKeeps(init);
      InsertKeeps(NewestFirst(init), last);
    }
  }

  /** Every candidate is an open cluster of the table, with its own centroid. */
  lemma CandidatesFromTable(db: Db, model: string)
    requires UniqueIds(db.clusters)
    ensures forall k :: 0 <= k < |Candidates(db, model)| ==>
              && Find(db.clusters, Candidates(db, model)[k].id).Some?
              && var c := db.clusters[Find(db.clusters, Candidates(db, model)[k].id).value];
                 Open(c, model) && c.centroid == Candidates(db, model)[k].centroid
  {
    var listed := Listed(db.clusters, LIST_LIMIT);
    EligibleFromTable(listed, model);
    NewestFirstKeeps(db.clusters);
    var cs := Candidates(db, model);
    forall k | 0 <= k < |cs|
      ensures Find(db.clusters, cs[k].id).Some?
      ensures var c := db.clusters[Find(db.clusters, cs[k].id).value];
              Open(c, model) && c.centroid == cs[k].centroid
    {
      assert cs[k] in cs && FromTable(listed, model, cs[k]);
      var x :| x in listed && Open(x, model) && x.id == cs[k].id && x.centroid == cs[k].centroid;
      assert x in NewestFirst(db.clusters);
      var i :| 0 <= i < |db.clusters| && db.clusters[i] == x;
    }
  }

  // ----- the store -----

  class ClusterStore {
    var signatures: map<string, Signature>
    var clusters: seq<Cluster>
    var members: seq<Member>

    constructor ()
      ensures State() == Db(map[], [], [])
    {
      signatures, clusters, members := map[], [], [];
    }

    function State(): Db
      reads this
    {
      Db(signatures, clusters, members)
    }

    method RecomputeStats(log: Log, id: string) returns (count: nat, sessions: nat, days: nat)
      ensures var ms := MembersOf(members, id);
              count == |ms| && sessions == |SessionsOf(log, ms)| && days == |DaysOf(log, ms)|
    {
      var ms := MembersOf(members, id);
      var ss: set<string>, ds: set<int> := {}, {};
      for k := 0 to |ms|
        invariant ss == SessionsOf(log, ms[..k]) && ds == DaysOf(log, ms[..k])
      {
        assert ms[..k + 1] == ms[..k] + [ms[k]];
        if ms[k].episode in log.episodes {
          var e := log.episodes[ms[k].episode];
          ss, ds := ss + {e.session}, ds + {DayOf(log, e)};
        }
      }
      assert ms[..|ms|] == ms;
      count, sessions, days := |ms|, |ss|, |ds|;
    }

    method ClusterEpisode(sqrt: real -> real, log: Log, r: Request) returns (out: Outcome)
      requires IsSquareRoot(sqrt) && UniqueIds(clusters)
      modifies this
      ensures Step(sqrt, log, old(State()), r, State(), out)
    {
      if r.episode !in log.episodes { return UnknownEpisode; }
      CandidatesFromTable(State(), r.model);
      var candidates := Candidates(State(), r.model);
      signatures := signatures[r.episode := Signature(r.embedding, r.model, r.key, r.now)];
      var result, k := AssignToCluster(sqrt, r.embedding, candidates, r.threshold);
      if result.NewCluster? {
        clusters := clusters + [Cluster(r.newId, r.embedding, r.model, 1, 1, 1, r.now, r.now, Forming, None)];
        members := AddMember(members, Member(r.newId, r.episode, r.now, 1.0));
        return Outcome(r.newId, Forming, 1.0, true);
      }
      var i := Find(clusters, result.id).value;
      Admit(log, r, i, result.cosine);
      out := Outcome(result.id, clusters[i].status, result.cosine, false);
      assert JoinsNearest(sqrt, log, old(State()), r, State(), out, candidates, k);
    }

    method Admit(log: Log, r: Request, i: nat, cosine: real)
      requires i < |clusters| && |clusters[i].centroid| == |r.embedding|
      modifies this
      ensures State() == Joined(log, old(State()), i, r, cosine)
    {
      var c := clusters[i];
      var mean := UpdateCentroidIncremental(c.centroid, c.memberCount, r.embedding);
      members := AddMember(members, Member(c.id, r.episode, r.now, cosine));
      var count, sessions, days := RecomputeStats(log, c.id);
      clusters := clusters[i := c.(centroid := mean.value, memberCount := count, sessionCount := sessions,
                                   dayCount := days, lastSeenAt := r.now)];
      if c.status == Forming {
        var ripe := EvaluateThreshold(sessions, days, c.suppressedUntil, r.now);
        if ripe { clusters := clusters[i := clusters[i].(status := Ripe)]; }
      }
    }
  }

  method EvaluateThreshold(sessions: nat, days: nat, suppressedUntil: Option<int>, now: int) returns (ripe: bool)
    ensures ripe <==> (suppressedUntil.None? || now >= suppressedUntil.value) && sessions >= 3 && days >= 2
  {
    if suppressedUntil.Some? && now < suppressedUntil.value { return false; }
    if sessions < MIN_SESSIONS { return false; }
    if days < MIN_DAYS { return false; }
    return true;
  }
}
