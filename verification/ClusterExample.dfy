/** Runs in which an episode is clustered a second time with another embedding
    and a centroid is the mean of its members no longer: by joining the cluster
    that holds it, and by founding another one. */
module ClusterExample {
  import opened Ir
  import opened Similarity
  import opened Clusters
  import opened ClusterTheory
  import opened ClusterMeans

  const LOG := Log(map["x" := Episode("s", 0)], map["s" := 0])
  const EMPTY := Db(map[], [], [])

  function Call(embedding: Vector, newId: string): Request {
    Request("x", embedding, "m", "k", 0.5, 0, newId)
  }

  /** The tables after a first call with this embedding. */
  function First(v: Vector): Db {
    Founded(Signed(EMPTY, Call(v, "a")), Call(v, "a"))
  }

  lemma FirstStep(sqrt: real -> real, v: Vector)
    requires IsSquareRoot(sqrt)
    ensures Step(sqrt, LOG, EMPTY, Call(v, "a"), First(v), Outcome("a", Forming, 1.0, true))
    ensures Keyed(First(v)) && AllBalanced(First(v))
  {
    assert Candidates(EMPTY, "m") == [];
    assert Step(sqrt, LOG, EMPTY, Call(v, "a"), First(v), Outcome("a", Forming, 1.0, true));
    StepKeepsKeys(sqrt, LOG, EMPTY, Call(v, "a"), First(v), Outcome("a", Forming, 1.0, true));
    StepKeepsBalance(sqrt, LOG, EMPTY, Call(v, "a"), First(v), Outcome("a", Forming, 1.0, true));
  }

  lemma OneCandidate(v: Vector)
    ensures Candidates(First(v), "m") == [Candidate("a", v)]
    ensures Find(First(v).clusters, "a") == Some(0) && HasMember(First(v).members, "a", "x")
  {
    var c := Cluster("a", v, "m", 1, 1, 1, 0, 0, Forming, None);
    assert First(v).clusters == [c];
    assert NewestFirst([c]) == [c];
    assert Eligible([c], "m") == [Candidate("a", v)];
    assert First(v).members[0] == Member("a", "x", 0, 1.0);
  }

  lemma OneDimension(x: real, y: real)
    ensures Dot([x], [y]) == x * y
  {
    assert [x][..0] == [] && [y][..0] == [];
  }

  lemma TwoDimensions(x: real, x': real, y: real, y': real)
    ensures Dot([x, x'], [y, y']) == x * y + x' * y'
  {
    assert [x, x'][..1] == [x] && [y, y'][..1] == [y];
    OneDimension(x, y);
  }

  lemma CosineOfOneAndThree(sqrt: real -> real)
    requires IsSquareRoot(sqrt)
    ensures CosineOf(sqrt, [3.0], [1.0]) == 1.0
  {
    OneDimension(3.0, 1.0);
    OneDimension(3.0, 3.0);
    OneDimension(1.0, 1.0);
    SameSquare(sqrt(9.0), 3.0);
  }

  function Rejoined(): Db {
    Joined(LOG, Signed(First([1.0]), Call([3.0], "b")), 0, Call([3.0], "b"), 1.0)
  }

  lemma ThreeIsNear(sqrt: real -> real)
    requires IsSquareRoot(sqrt)
    ensures var cs := [Candidate("a", [1.0])];
      SomeNear(sqrt, [3.0], cs, 0.5) && Nearest(sqrt, [3.0], cs, 0)
  {
    var cs := [Candidate("a", [1.0])];
    CosineOfOneAndThree(sqrt);
    assert Comparable([3.0], cs[0]);
  }

  lemma RejoinStep(sqrt: real -> real)
    requires IsSquareRoot(sqrt)
    ensures Step(sqrt, LOG, First([1.0]), Call([3.0], "b"), Rejoined(), RejoinOutcome())
    ensures TargetRow(sqrt, First([1.0]), Call([3.0], "b")) == Some(0)
  {
    var db, r, cs := First([1.0]), Call([3.0], "b"), [Candidate("a", [1.0])];
    OneCandidate([1.0]);
    CosineOfOneAndThree(sqrt);
    ThreeIsNear(sqrt);
    assert Candidates(db, r.model) == cs;
    assert JoinsNearest(sqrt, LOG, db, r, Rejoined(), RejoinOutcome(), cs, 0);
    TargetIs(sqrt, db, r, 0);
  }

  function RejoinOutcome(): Outcome {
    Outcome("a", Rejoined().clusters[0].status, 1.0, false)
  }

  lemma TwoCalls(sqrt: real -> real, r: Request, s: Request, d: Db, e: Db, o: Outcome, p: Outcome)
    requires IsSquareRoot(sqrt) && Step(sqrt, LOG, EMPTY, r, d, o) && Step(sqrt, LOG, d, s, e, p)
    requires Find(d.clusters, s.newId).None?
    ensures Run(sqrt, LOG, [EMPTY, d, e], [r, s], [o, p])
  {
  }

  lemma DoesNotFit(v: Vector, w: Vector, target: Option<nat>)
    requires |v| == |w| && v != (if target == Some(0) then MeanOf(v, 1, w) else w)
    ensures !RowsFit(First(v), Call(w, "b"), target) && Find(First(v).clusters, "b").None?
  {
    OneCandidate(v);
    assert First(v).clusters[0] == Cluster("a", v, "m", 1, 1, 1, 0, 0, Forming, None);
    assert First(v).signatures["x"].embedding == v;
    assert !RowFits(First(v), Call(w, "b"), target, 0);
  }

  /** Joining again the cluster that holds the episode. */
  lemma RejoiningBreaksTheMean(sqrt: real -> real)
    requires IsSquareRoot(sqrt)
    ensures Run(sqrt, LOG, [EMPTY, First([1.0]), Rejoined()], [Call([1.0], "a"), Call([3.0], "b")],
                [Outcome("a", Forming, 1.0, true), RejoinOutcome()])
    ensures AllBalanced(First([1.0])) && !AllBalanced(Rejoined())
  {
    FirstStep(sqrt, [1.0]);
    RejoinStep(sqrt);
    assert MeanOf([1.0], 1, [3.0])[0] == 2.0;
    DoesNotFit([1.0], [3.0], Some(0));
    TwoCalls(sqrt, Call([1.0], "a"), Call([3.0], "b"), First([1.0]), Rejoined(), Outcome("a", Forming, 1.0, true), RejoinOutcome());
    StepBalancedIff(sqrt, LOG, First([1.0]), Call([3.0], "b"), Rejoined(), RejoinOutcome());
  }

  function Refounded(): Db {
    Founded(Signed(First([1.0, 0.0]), Call([0.0, 1.0], "b")), Call([0.0, 1.0], "b"))
  }

  lemma AxesDoNotFit()
    ensures !RowsFit(First([1.0, 0.0]), Call([0.0, 1.0], "b"), None) && Find(First([1.0, 0.0]).clusters, "b").None?
  {
    assert [1.0, 0.0][0] != [0.0, 1.0][0];
    DoesNotFit([1.0, 0.0], [0.0, 1.0], None);
  }

  lemma RefoundStep(sqrt: real -> real)
    requires IsSquareRoot(sqrt)
    ensures Step(sqrt, LOG, First([1.0, 0.0]), Call([0.0, 1.0], "b"), Refounded(), Outcome("b", Forming, 1.0, true))
    ensures TargetRow(sqrt, First([1.0, 0.0]), Call([0.0, 1.0], "b")) == None
  {
    OneCandidate([1.0, 0.0]);
    TwoDimensions(0.0, 1.0, 1.0, 0.0);
    var cs := [Candidate("a", [1.0, 0.0])];
    assert CosineOf(sqrt, [0.0, 1.0], cs[0].centroid) == 0.0;
    assert !SomeNear(sqrt, [0.0, 1.0], cs, 0.5);
  }

  /** Founding another cluster for an episode an old one still holds. */
  lemma RefoundingBreaksTheMean(sqrt: real -> real)
    requires IsSquareRoot(sqrt)
    ensures Run(sqrt, LOG, [EMPTY, First([1.0, 0.0]), Refounded()], [Call([1.0, 0.0], "a"), Call([0.0, 1.0], "b")],
                [Outcome("a", Forming, 1.0, true), Outcome("b", Forming, 1.0, true)])
    ensures AllBalanced(First([1.0, 0.0])) && !AllBalanced(Refounded())
  {
    var o, p := Outcome("a", Forming, 1.0, true), Outcome("b", Forming, 1.0, true);
    FirstStep(sqrt, [1.0, 0.0]);
    RefoundStep(sqrt);
    AxesDoNotFit();
    TwoCalls(sqrt, Call([1.0, 0.0], "a"), Call([0.0, 1.0], "b"), First([1.0, 0.0]), Refounded(), o, p);
    StepBalancedIff(sqrt, LOG, First([1.0, 0.0]), Call([0.0, 1.0], "b"), Refounded(), p);
  }
}
