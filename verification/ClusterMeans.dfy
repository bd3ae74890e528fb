/** When the stored counts and centroids are exact: which calls keep every
    cluster's centroid the mean of its members' recorded embeddings. */
module ClusterMeans {
  import opened Ir
  import opened Similarity
  import opened Clusters
  import opened ClusterTheory

  // ----- sums of embeddings -----

  function Component(signatures: map<string, Signature>, episode: string, d: nat): real {
    if episode in signatures && d < |signatures[episode].embedding| then signatures[episode].embedding[d] else 0.0
  }

  function SumAt(signatures: map<string, Signature>, ms: seq<Member>, d: nat): real {
    if ms == [] then 0.0
    else SumAt(signatures, ms[..|ms| - 1], d) + Component(signatures, ms[|ms| - 1].episode, d)
  }

  lemma SumAppend(signatures: map<string, Signature>, ms: seq<Member>, m: Member, d: nat)
    ensures SumAt(signatures, ms + [m], d) == SumAt(signatures, ms, d) + Component(signatures, m.episode, d)
  {
    assert (ms + [m])[..|ms|] == ms;
  }

  /** Signing an episode that is no member changes no sum. */
  lemma {:induction false} SumFrame(signatures: map<string, Signature>, ms: seq<Member>, episode: string,
                                    s: Signature, d: nat)
    requires forall m :: m in ms ==> m.episode != episode
    ensures SumAt(signatures[episode := s], ms, d) == SumAt(signatures, ms, d)
  {
    if ms != [] {
      assert ms[|ms| - 1] in ms;
      SumFrame(signatures, ms[..|ms| - 1], episode, s, d);
    }
  }

  /** Signing again an episode that is a member once replaces its summand. */
  lemma {:induction false} SumReplaced(signatures: map<string, Signature>, ms: seq<Member>, k: nat, s: Signature, d: nat)
    requires k < |ms| && (forall j :: 0 <= j < |ms| && j != k ==> ms[j].episode != ms[k].episode)
    ensures var e := ms[k].episode;
      SumAt(signatures[e := s], ms, d)
      == SumAt(signatures, ms, d) - Component(signatures, e, d) + Component(signatures[e := s], e, d)
  {
    var n := |ms| - 1;
    if k < n {
      SumReplaced(signatures, ms[..n], k, s, d);
    } else {
      forall m | m in ms[..n] ensures m.episode != ms[k].episode {
        var j :| 0 <= j < n && ms[j] == m;
      }
      SumFrame(signatures, ms[..n], ms[k].episode, s, d);
    }
  }

  // ----- balanced clusters -----

  /** All members were embedded by the cluster's model, in its dimension; the
      count is theirs and the centroid is their exact mean. */
  ghost predicate Balanced(signatures: map<string, Signature>, c: Cluster, ms: seq<Member>) {
    && c.memberCount == |ms| > 0
    && (forall m :: m in ms ==> SameSpace(signatures, c, m))
    && Centered(signatures, c.centroid, c.memberCount as real, ms)
  }

  ghost predicate Centered(signatures: map<string, Signature>, centroid: Vector, n: real, ms: seq<Member>) {
    forall d :: 0 <= d < |centroid| ==> centroid[d] * n == SumAt(signatures, ms, d)
  }

  predicate SameSpace(signatures: map<string, Signature>, c: Cluster, m: Member) {
    m.episode in signatures && signatures[m.episode].model == c.model
    && |signatures[m.episode].embedding| == |c.centroid|
  }

  ghost predicate AllBalanced(db: Db) {
    forall i :: 0 <= i < |db.clusters| ==>
      Balanced(db.signatures, db.clusters[i], MembersOf(db.members, db.clusters[i].id))
  }

  lemma FounderBalanced(signatures: map<string, Signature>, c: Cluster, m: Member)
    requires SameSpace(signatures, c, m) && c.memberCount == 1 && c.centroid == signatures[m.episode].embedding
    ensures Balanced(signatures, c, [m])
  {
    forall d | 0 <= d < |c.centroid| ensures SumAt(signatures, [m], d) == c.centroid[d] {
      SumAppend(signatures, [], m, d);
    }
  }

  function SignatureOf(r: Request): Signature {
    Signature(r.embedding, r.model, r.key, r.now)
  }

  // ----- a cluster the call does not touch -----

  lemma NotHeldStaysBalanced(signatures: map<string, Signature>, c: Cluster, ms: seq<Member>, episode: string, s: Signature)
    requires Balanced(signatures, c, ms) && forall m :: m in ms ==> m.episode != episode
    ensures Balanced(signatures[episode := s], c, ms)
  {
    forall m | m in ms ensures SameSpace(signatures[episode := s], c, m) { assert SameSpace(signatures, c, m); }
    forall d | 0 <= d < |c.centroid|
      ensures c.centroid[d] * c.memberCount as real == SumAt(signatures[episode := s], ms, d)
    {
      SumFrame(signatures, ms, episode, s, d);
    }
  }

  /** Signing a member again leaves its cluster balanced exactly if neither its
      embedding nor its model changes. */
  lemma ResignedIff(signatures: map<string, Signature>, c: Cluster, ms: seq<Member>, k: nat, s: Signature)
    requires Balanced(signatures, c, ms) && EpisodesOnce(ms) && k < |ms|
    ensures ms[k].episode in signatures
    ensures var was := signatures[ms[k].episode];
      Balanced(signatures[ms[k].episode := s], c, ms) <==> s.embedding == was.embedding && s.model == was.model
  {
    var e := ms[k].episode;
    assert SameSpace(signatures, c, ms[k]);
    var was, signed := signatures[e], signatures[e := s];
    forall m | m in ms ensures SameSpace(signed, c, m) <==> m.episode != e || SameSpace(signed, c, ms[k]) {
      assert SameSpace(signatures, c, m);
    }
    if SameSpace(signed, c, ms[k]) {
      forall d | 0 <= d < |c.centroid|
        ensures c.centroid[d] * c.memberCount as real == SumAt(signed, ms, d) <==> s.embedding[d] == was.embedding[d]
      {
        SumReplaced(signatures, ms, k, s, d);
      }
      assert s.embedding == was.embedding <==> forall d :: 0 <= d < |c.centroid| ==> s.embedding[d] == was.embedding[d];
    } else {
      assert ms[k] in ms;
    }
  }

  // ----- the cluster the call joins -----

  lemma AdmittedSum(signatures: map<string, Signature>, ms: seq<Member>, m: Member, s: Signature, d: nat)
    requires (forall x :: x in ms ==> x.episode != m.episode) && d < |s.embedding|
    ensures SumAt(signatures[m.episode := s], ms + [m], d) == SumAt(signatures, ms, d) + s.embedding[d]
  {
    SumFrame(signatures, ms, m.episode, s, d);
    SumAppend(signatures[m.episode := s], ms, m, d);
  }

  /** Admission of a member that is not there yet keeps the mean exact. */
  lemma AdmissionBalances(log: Log, signatures: map<string, Signature>, c: Cluster, ms: seq<Member>, r: Request, m: Member)
    requires Balanced(signatures, c, ms) && m.episode == r.episode && forall x :: x in ms ==> x.episode != r.episode
    requires |c.centroid| == |r.embedding| && c.model == r.model
    ensures Balanced(signatures[r.episode := SignatureOf(r)],
                     Admitted(log, c, ms + [m], MeanOf(c.centroid, c.memberCount, r.embedding), r.now), ms + [m])
  {
    var s := SignatureOf(r);
    var signed := signatures[r.episode := s];
    var mean := MeanOf(c.centroid, c.memberCount, r.embedding);
    var after := Admitted(log, c, ms + [m], mean, r.now);
    forall x | x in ms + [m] ensures SameSpace(signed, after, x) {
      if x != m { assert SameSpace(signatures, c, x); }
    }
    forall d | 0 <= d < |mean| ensures mean[d] * after.memberCount as real == SumAt(signed, ms + [m], d) {
      AdmittedSum(signatures, ms, m, s, d);
      var at := MeanAt(c.centroid, c.memberCount, r.embedding, d);
      assert after.memberCount as real == c.memberCount as real + 1.0;
    }
  }

  /** Admitting a member that is already there: the list is the same, the
      centroid moves, and is the mean exactly if the embedding recorded before
      is the mean the update computes. */
  lemma ReadmissionIff(log: Log, signatures: map<string, Signature>, c: Cluster, ms: seq<Member>, k: nat, r: Request)
    requires Balanced(signatures, c, ms) && EpisodesOnce(ms) && k < |ms| && ms[k].episode == r.episode
    requires |c.centroid| == |r.embedding| && c.model == r.model
    ensures r.episode in signatures
    ensures var mean := MeanOf(c.centroid, c.memberCount, r.embedding);
            Balanced(signatures[r.episode := SignatureOf(r)], Admitted(log, c, ms, mean, r.now), ms)
            <==> signatures[r.episode].embedding == mean
  {
    assert SameSpace(signatures, c, ms[k]);
    var signed := signatures[r.episode := SignatureOf(r)];
    var mean := MeanOf(c.centroid, c.memberCount, r.embedding);
    var after := Admitted(log, c, ms, mean, r.now);
    forall m | m in ms ensures SameSpace(signed, after, m) { assert SameSpace(signatures, c, m); }
    ReadmittedCentered(signatures, c.centroid, ms, k, SignatureOf(r));
  }

  lemma ReadmittedCentered(signatures: map<string, Signature>, centroid: Vector, ms: seq<Member>, k: nat, s: Signature)
    requires Centered(signatures, centroid, |ms| as real, ms) && EpisodesOnce(ms)
    requires k < |ms| && ms[k].episode in signatures
    requires |centroid| == |s.embedding| == |signatures[ms[k].episode].embedding|
    ensures var mean := MeanOf(centroid, |ms|, s.embedding);
            Centered(signatures[ms[k].episode := s], mean, |ms| as real, ms)
            <==> signatures[ms[k].episode].embedding == mean
  {
    var mean := MeanOf(centroid, |ms|, s.embedding);
    var was, signed := signatures[ms[k].episode].embedding, signatures[ms[k].episode := s];
    forall d | 0 <= d < |mean|
      ensures mean[d] * |ms| as real == SumAt(signed, ms, d) <==> was[d] == mean[d]
    {
      var at := MeanAt(centroid, |ms|, s.embedding, d);
      ReadmittedSum(signatures, ms, k, s, d, centroid[d], |ms| as real, at);
    }
    if Centered(signed, mean, |ms| as real, ms) {
      assert forall d :: 0 <= d < |mean| ==> was[d] == mean[d];
    }
  }

  lemma ReadmittedSum(signatures: map<string, Signature>, ms: seq<Member>, k: nat, s: Signature, d: nat,
                      c: real, n: real, mean: real)
    requires EpisodesOnce(ms) && k < |ms| && ms[k].episode in signatures
    requires d < |s.embedding| == |signatures[ms[k].episode].embedding|
    requires c * n == SumAt(signatures, ms, d) && mean * (n + 1.0) == c * n + s.embedding[d]
    ensures mean * n == SumAt(signatures[ms[k].episode := s], ms, d) <==> signatures[ms[k].episode].embedding[d] == mean
  {
    SumReplaced(signatures, ms, k, s, d);
    RejoinArithmetic(mean, c, n, s.embedding[d], signatures[ms[k].episode].embedding[d]);
  }

  lemma MeanAt(centroid: Vector, count: nat, e: Vector, d: nat) returns (m: real)
    requires |centroid| == |e| && d < |e|
    ensures m == MeanOf(centroid, count, e)[d]
    ensures m * (count as real + 1.0) == centroid[d] * count as real + e[d]
  {
    m := MeanOf(centroid, count, e)[d];
    MeanAdds(centroid, count, e);
  }

  lemma RejoinArithmetic(mean: real, c: real, n: real, e: real, was: real)
    requires mean * (n + 1.0) == c * n + e
    ensures mean * n == c * n - was + e <==> was == mean
  {
    assert mean * (n + 1.0) == mean * n + mean;
  }

  // ----- one call -----

  /** The call would record for the episode what is recorded already. */
  predicate RecordsTheSame(db: Db, r: Request) {
    && r.episode in db.signatures
    && db.signatures[r.episode].embedding == r.embedding && db.signatures[r.episode].model == r.model
  }

  /** The embedding recorded for the episode is the mean that joining the
      cluster computes. */
  predicate RecordIsTheMean(db: Db, r: Request, c: Cluster) {
    && r.episode in db.signatures && |c.centroid| == |r.embedding|
    && db.signatures[r.episode].embedding == MeanOf(c.centroid, c.memberCount, r.embedding)
  }

  /** What the call asks of cluster `j` when it joins cluster `target`, or
      founds one: nothing if the episode is no member of it. */
  predicate RowFits(db: Db, r: Request, target: Option<nat>, j: nat)
    requires j < |db.clusters|
  {
    HasMember(db.members, db.clusters[j].id, r.episode) ==>
      if target == Some(j) then RecordIsTheMean(db, r, db.clusters[j]) else RecordsTheSame(db, r)
  }

  predicate RowsFit(db: Db, r: Request, target: Option<nat>) {
    forall j :: 0 <= j < |db.clusters| ==> RowFits(db, r, target, j)
  }

  ghost predicate RowBalanced(db: Db, j: nat)
    requires j < |db.clusters|
  {
    Balanced(db.signatures, db.clusters[j], MembersOf(db.members, db.clusters[j].id))
  }

  /** A cluster other than the one joined or founded. */
  lemma OtherRow(db: Db, r: Request, after: Db, m: Member, j: nat, target: Option<nat>)
    requires Keyed(db) && AllBalanced(db) && j < |db.clusters| <= |after.clusters| && target != Some(j)
    requires after.clusters[j] == db.clusters[j] && m.cluster != db.clusters[j].id
    requires after.members == AddMember(db.members, m) && after.signatures == db.signatures[r.episode := SignatureOf(r)]
    ensures RowBalanced(after, j) <==> RowFits(db, r, target, j)
  {
    var c := db.clusters[j];
    var ms := MembersOf(db.members, c.id);
    assert RowBalanced(db, j);
    MembersAppend(db.members, m, c.id);
    HeldMeaning(db.members, c.id, r.episode);
    MembersOnce(db.members, c.id);
    if k :| 0 <= k < |ms| && ms[k].episode == r.episode {
      ResignedIff(db.signatures, c, ms, k, SignatureOf(r));
    } else {
      NotHeldStaysBalanced(db.signatures, c, ms, r.episode, SignatureOf(r));
    }
  }

  /** The cluster joined. */
  lemma JoinedRowIff(log: Log, db: Db, i: nat, r: Request, cosine: real)
    requires Keyed(db) && AllBalanced(db) && i < |db.clusters|
    requires |db.clusters[i].centroid| == |r.embedding| && db.clusters[i].model == r.model
    ensures RowBalanced(Joined(log, Signed(db, r), i, r, cosine), i) <==> RowFits(db, r, Some(i), i)
  {
    var c := db.clusters[i];
    var m := Member(c.id, r.episode, r.now, cosine);
    var ms := MembersOf(db.members, c.id);
    assert RowBalanced(db, i);
    MembersAppend(db.members, m, c.id);
    HeldMeaning(db.members, c.id, r.episode);
    MembersOnce(db.members, c.id);
    if k :| 0 <= k < |ms| && ms[k].episode == r.episode {
      ReadmissionIff(log, db.signatures, c, ms, k, r);
    } else {
      AdmissionBalances(log, db.signatures, c, ms, r, m);
    }
  }

  lemma JoinBalancedIff(log: Log, db: Db, i: nat, r: Request, cosine: real)
    requires Keyed(db) && AllBalanced(db) && i < |db.clusters|
    requires |db.clusters[i].centroid| == |r.embedding| && db.clusters[i].model == r.model
    ensures AllBalanced(Joined(log, Signed(db, r), i, r, cosine)) <==> RowsFit(db, r, Some(i))
  {
    var after := Joined(log, Signed(db, r), i, r, cosine);
    var m := Member(db.clusters[i].id, r.episode, r.now, cosine);
    forall j | 0 <= j < |db.clusters| ensures RowBalanced(after, j) <==> RowFits(db, r, Some(i), j) {
      if j == i {
        JoinedRowIff(log, db, i, r, cosine);
      } else {
        assert db.clusters[j].id != db.clusters[i].id;
        OtherRow(db, r, after, m, j, Some(i));
      }
    }
    RowsBalanced(after);
  }

  lemma RowsBalanced(db: Db)
    ensures AllBalanced(db) <==> forall j :: 0 <= j < |db.clusters| ==> RowBalanced(db, j)
  {
    if AllBalanced(db) {
      forall j | 0 <= j < |db.clusters| ensures RowBalanced(db, j) { }
    }
    if forall j :: 0 <= j < |db.clusters| ==> RowBalanced(db, j) {
      forall j | 0 <= j < |db.clusters|
        ensures Balanced(db.signatures, db.clusters[j], MembersOf(db.members, db.clusters[j].id))
      {
        assert RowBalanced(db, j);
      }
    }
  }

  lemma FoundingBalancedIff(db: Db, r: Request)
    requires Keyed(db) && AllBalanced(db) && Find(db.clusters, r.newId).None?
    ensures AllBalanced(Founded(Signed(db, r), r)) <==> RowsFit(db, r, None)
  {
    var after := Founded(Signed(db, r), r);
    var m := Member(r.newId, r.episode, r.now, 1.0);
    var n := |db.clusters|;
    NoMembersYet(db, r.newId);
    HeldMeaning(db.members, r.newId, r.episode);
    MembersAppend(db.members, m, r.newId);
    FounderBalanced(after.signatures, after.clusters[n], m);
    assert RowBalanced(after, n);
    forall j | 0 <= j < n ensures RowBalanced(after, j) <==> RowFits(db, r, None, j) {
      OtherRow(db, r, after, m, j, None);
    }
    RowsBalanced(after);
  }

  /** The candidate a call joins: the nearest, if near enough. */
  ghost predicate Chosen(sqrt: real -> real, cs: seq<Candidate>, r: Request, k: nat)
    requires IsSquareRoot(sqrt)
  {
    Nearest(sqrt, r.embedding, cs, k) && CosineOf(sqrt, r.embedding, cs[k].centroid) >= r.threshold
  }

  /** The row of the cluster a call joins, or none if it founds one. */
  ghost function TargetRow(sqrt: real -> real, db: Db, r: Request): Option<nat>
    requires IsSquareRoot(sqrt)
  {
    var cs := Candidates(db, r.model);
    if exists k: nat :: Chosen(sqrt, cs, r, k)
    then
      var k: nat :| Chosen(sqrt, cs, r, k);
      Find(db.clusters, cs[k].id)
    else None
  }

  /** What can be seen before the call: the episode is unknown, or each cluster
      that holds it already, if any, fits. */
  ghost predicate KeepsMeans(sqrt: real -> real, log: Log, db: Db, r: Request)
    requires IsSquareRoot(sqrt)
  {
    r.episode in log.episodes ==> RowsFit(db, r, TargetRow(sqrt, db, r))
  }

  lemma NearestIsOne(sqrt: real -> real, e: Vector, cs: seq<Candidate>, k: nat, l: nat)
    requires IsSquareRoot(sqrt) && Nearest(sqrt, e, cs, k) && Nearest(sqrt, e, cs, l)
    ensures k == l
  {
  }

  lemma TargetIs(sqrt: real -> real, db: Db, r: Request, k: nat)
    requires IsSquareRoot(sqrt)
    requires SomeNear(sqrt, r.embedding, Candidates(db, r.model), r.threshold)
    requires Nearest(sqrt, r.embedding, Candidates(db, r.model), k)
    ensures TargetRow(sqrt, db, r) == Find(db.clusters, Candidates(db, r.model)[k].id)
  {
    var cs := Candidates(db, r.model);
    assert Chosen(sqrt, cs, r, k);
    forall l: nat | Chosen(sqrt, cs, r, l) ensures l == k { NearestIsOne(sqrt, r.embedding, cs, k, l); }
  }

  /** Main result. A call that finds every cluster balanced leaves every cluster
      balanced exactly if each cluster that holds the episode already fits: the
      one joined, if the embedding on record is the mean computed; any other,
      if the embedding and the model on record are the new ones. */
  lemma StepBalancedIff(sqrt: real -> real, log: Log, before: Db, r: Request, after: Db, out: Outcome)
    requires IsSquareRoot(sqrt) && Step(sqrt, log, before, r, after, out)
    requires Keyed(before) && AllBalanced(before) && Find(before.clusters, r.newId).None?
    ensures AllBalanced(after) <==> KeepsMeans(sqrt, log, before, r)
  {
    if r.episode in log.episodes {
      var cs := Candidates(before, r.model);
      if SomeNear(sqrt, r.embedding, cs, r.threshold) {
        var k: nat :| JoinsNearest(sqrt, log, before, r, after, out, cs, k);
        JoinedRow(sqrt, log, before, r, after, out, k);
        TargetIs(sqrt, before, r, k);
        JoinBalancedIff(log, before, Find(before.clusters, cs[k].id).value, r, CosineOf(sqrt, r.embedding, cs[k].centroid));
      } else {
        FoundingBalancedIff(before, r);
      }
    }
  }

  /** One call with an episode never signed before keeps every cluster
      balanced. */
  lemma StepKeepsBalance(sqrt: real -> real, log: Log, before: Db, r: Request, after: Db, out: Outcome)
    requires IsSquareRoot(sqrt) && Step(sqrt, log, before, r, after, out)
    requires Keyed(before) && AllBalanced(before)
    requires r.episode !in before.signatures && Find(before.clusters, r.newId).None?
    ensures AllBalanced(after)
  {
    forall j | 0 <= j < |before.clusters| ensures !HasMember(before.members, before.clusters[j].id, r.episode) {
      forall i | 0 <= i < |before.members| ensures before.members[i].episode != r.episode {
        assert before.members[i] in before.members;
      }
    }
    StepBalancedIff(sqrt, log, before, r, after, out);
  }

  // ----- whole runs -----

  /** In every run, repeated episodes or not, the centroids are exact up to a
      point exactly if every call until then fits. */
  lemma {:induction false} MeansHoldIff(sqrt: real -> real, log: Log, dbs: seq<Db>, rs: seq<Request>, outs: seq<Outcome>, n: nat)
    requires IsSquareRoot(sqrt) && Run(sqrt, log, dbs, rs, outs) && n <= |rs|
    ensures (forall m :: 0 <= m <= n ==> AllBalanced(dbs[m]))
            <==> forall m :: 0 <= m < n ==> KeepsMeans(sqrt, log, dbs[m], rs[m])
  {
    if n > 0 {
      MeansHoldIff(sqrt, log, dbs, rs, outs, n - 1);
      assert Step(sqrt, log, dbs[n - 1], rs[n - 1], dbs[n - 1 + 1], outs[n - 1]);
      RunKeepsKeys(sqrt, log, dbs, rs, outs, n - 1);
      if AllBalanced(dbs[n - 1]) { StepBalancedIff(sqrt, log, dbs[n - 1], rs[n - 1], dbs[n], outs[n - 1]); }
    }
  }

  /** When each episode is clustered once, then after every call of every run
      each cluster's count is the number of its members and its centroid times
      that count is the sum of their embeddings. */
  lemma {:induction false} CentroidsAreMeans(sqrt: real -> real, log: Log, dbs: seq<Db>, rs: seq<Request>, outs: seq<Outcome>, n: nat)
    requires IsSquareRoot(sqrt) && Run(sqrt, log, dbs, rs, outs) && DistinctEpisodes(rs) && n <= |rs|
    ensures AllBalanced(dbs[n])
  {
    if n > 0 {
      CentroidsAreMeans(sqrt, log, dbs, rs, outs, n - 1);
      RunKeepsKeys(sqrt, log, dbs, rs, outs, n - 1);
      assert Step(sqrt, log, dbs[n - 1], rs[n - 1], dbs[n - 1 + 1], outs[n - 1]);
      StepKeepsBalance(sqrt, log, dbs[n - 1], rs[n - 1], dbs[n], outs[n - 1]);
    }
  }
}
