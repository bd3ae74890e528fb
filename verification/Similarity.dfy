/** Cosine similarity, nearest-cluster assignment and the running mean of a
    cluster, over exact reals. */
module Similarity {
  type Vector = seq<real>

  /** The square root is taken from the platform; only this much is used. */
  ghost predicate IsSquareRoot(sqrt: real -> real) {
    forall x: real :: x > 0.0 ==> sqrt(x) > 0.0 && sqrt(x) * sqrt(x) == x
  }

  datatype Checked<+T> = Fine(value: T) | DimMismatch

  // ----- cosine -----

  function Dot(a: Vector, b: Vector): (r: real)
    requires |a| == |b|
    ensures a == b ==> r >= 0.0
  {
    if a == [] then 0.0 else
      var n := |a| - 1;
      assert a == b ==> a[n] == b[n] && a[n] * b[n] >= 0.0;
      Dot(a[..n], b[..n]) + a[n] * b[n]
  }

  function CosineOf(sqrt: real -> real, a: Vector, b: Vector): real
    requires IsSquareRoot(sqrt) && |a| == |b|
  {
    Ratio(sqrt, Dot(a, b), Dot(a, a), Dot(b, b))
  }

  function Ratio(sqrt: real -> real, dot: real, na: real, nb: real): real
    requires IsSquareRoot(sqrt) && na >= 0.0 && nb >= 0.0
  {
    if na == 0.0 || nb == 0.0 then 0.0 else
      ProductPositive(na, nb);
      dot / sqrt(na * nb)
  }

  lemma ProductNonNegative(x: real, y: real)
    requires x >= 0.0 && y >= 0.0
    ensures x * y >= 0.0
  {
  }

  lemma ProductPositive(x: real, y: real)
    requires x > 0.0 && y > 0.0
    ensures x * y > 0.0
  {
  }

  lemma DotStep(a: Vector, b: Vector, i: nat)
    requires |a| == |b| && i < |a|
    ensures Dot(a[..i + 1], b[..i + 1]) == Dot(a[..i], b[..i]) + a[i] * b[i]
  {
    assert a[..i + 1][..i] == a[..i] && b[..i + 1][..i] == b[..i];
  }

  method Cosine(sqrt: real -> real, a: Vector, b: Vector) returns (r: Checked<real>)
    requires IsSquareRoot(sqrt)
    ensures r == if |a| != |b| then DimMismatch else Fine(CosineOf(sqrt, a, b))
  {
    if |a| != |b| { return DimMismatch; }
    var dot, na, nb := 0.0, 0.0, 0.0;
    for i := 0 to |a|
      invariant dot == Dot(a[..i], b[..i]) && na == Dot(a[..i], a[..i]) && nb == Dot(b[..i], b[..i])
    {
      DotStep(a, b, i);
      DotStep(a, a, i);
      DotStep(b, b, i);
      dot := dot + a[i] * b[i];
      na := na + a[i] * a[i];
      nb := nb + b[i] * b[i];
    }
    assert a[..|a|] == a && b[..|b|] == b;
    return Fine(Ratio(sqrt, dot, na, nb));
  }

  /** One step of the inequality: with D * D <= A * B for the shorter vectors. */
  lemma CrossTerm(A: real, B: real, D: real, x: real, y: real)
    requires A >= 0.0 && B >= 0.0 && D * D <= A * B
    ensures 2.0 * D * (x * y) <= A * (y * y) + B * (x * x)
  {
    if A == 0.0 {
      ProductNonNegative(B, x * x);
      if D != 0.0 { ProductPositive(if D > 0.0 then D else -D, if D > 0.0 then D else -D); }
    } else {
      var gap := A * (y * y) + B * (x * x) - 2.0 * D * (x * y);
      var square := (A * y - D * x) * (A * y - D * x);
      var rest := (A * B - D * D) * (x * x);
      GapIdentity(A, B, D, x, y);
      ProductNonNegative(A * B - D * D, x * x);
      var t := A * y - D * x;
      ProductNonNegative(if t >= 0.0 then t else -t, if t >= 0.0 then t else -t);
      assert square >= 0.0;
      assert A * gap == square + rest;
      NonNegativeFactor(A, gap);
    }
  }

  lemma GapIdentity(A: real, B: real, D: real, x: real, y: real)
    ensures A * (A * (y * y) + B * (x * x) - 2.0 * D * (x * y))
            == (A * y - D * x) * (A * y - D * x) + (A * B - D * D) * (x * x)
  {
  }

  lemma NonNegativeFactor(a: real, g: real)
    requires a > 0.0 && a * g >= 0.0
    ensures g >= 0.0
  {
  }

  /** The Cauchy-Schwarz inequality. */
  lemma {:induction false} CauchySchwarz(a: Vector, b: Vector)
    requires |a| == |b|
    ensures Dot(a, b) * Dot(a, b) <= Dot(a, a) * Dot(b, b)
  {
    if a != [] {
      var n := |a| - 1;
      var A, B, D := Dot(a[..n], a[..n]), Dot(b[..n], b[..n]), Dot(a[..n], b[..n]);
      var x, y := a[n], b[n];
      CauchySchwarz(a[..n], b[..n]);
      CrossTerm(A, B, D, x, y);
      ExpandSquare(D, x, y);
      ExpandProduct(A, B, x, y);
    }
  }

  lemma ExpandSquare(D: real, x: real, y: real)
    ensures (D + x * y) * (D + x * y) == D * D + 2.0 * D * (x * y) + (x * x) * (y * y)
  {
  }

  lemma ExpandProduct(A: real, B: real, x: real, y: real)
    ensures (A + x * x) * (B + y * y) == A * B + (A * (y * y) + B * (x * x)) + (x * x) * (y * y)
  {
  }

  lemma RootOrder(d: real, s: real)
    requires s > 0.0 && d * d <= s * s
    ensures -1.0 <= d / s <= 1.0
  {
    var q := d / s;
    Divided(d, s);
    assert (q * q - 1.0) * (s * s) == d * d - s * s;
    if q > 1.0 || q < -1.0 {
      ProductPositive(if q > 1.0 then q - 1.0 else -1.0 - q, if q > 1.0 then q + 1.0 else 1.0 - q);
      ProductPositive(q * q - 1.0, s * s);
    }
  }

  lemma {:induction false} DotSymmetric(a: Vector, b: Vector)
    requires |a| == |b|
    ensures Dot(a, b) == Dot(b, a)
  {
    if a != [] { DotSymmetric(a[..|a| - 1], b[..|b| - 1]); }
  }

  /** The dot product moves with each component by the other's, and is 0 for a
      vector of zeros. */
  lemma {:induction false} DotMeaning(a: Vector, b: Vector, i: nat, x: real)
    requires |a| == |b| && i < |a|
    ensures Dot(a[i := x], b) == Dot(a, b) + (x - a[i]) * b[i]
  {
    var n := |a| - 1;
    if i < n {
      assert a[i := x][..n] == a[..n][i := x];
      DotMeaning(a[..n], b[..n], i, x);
    } else {
      assert a[i := x][..n] == a[..n];
      Distribute(x, a[n], b[n]);
    }
  }

  lemma Distribute(x: real, y: real, z: real)
    ensures x * z == y * z + (x - y) * z
  {
  }

  lemma {:induction false} DotZero(a: Vector, b: Vector)
    requires |a| == |b| && forall i :: 0 <= i < |a| ==> a[i] == 0.0
    ensures Dot(a, b) == 0.0
  {
    if a != [] { DotZero(a[..|a| - 1], b[..|b| - 1]); }
  }

  /** Cosine times the root of the squared norms' product is the dot product; it
      is 0 if either norm is. */
  lemma CosineMeaning(sqrt: real -> real, a: Vector, b: Vector)
    requires IsSquareRoot(sqrt) && |a| == |b|
    ensures IsRatio(sqrt, Dot(a, b), Dot(a, a), Dot(b, b), CosineOf(sqrt, a, b))
  {
    RatioMeaning(sqrt, Dot(a, b), Dot(a, a), Dot(b, b));
  }

  predicate IsRatio(sqrt: real -> real, dot: real, na: real, nb: real, r: real) {
    if na == 0.0 || nb == 0.0 then r == 0.0 else r * sqrt(na * nb) == dot
  }

  lemma RatioMeaning(sqrt: real -> real, dot: real, na: real, nb: real)
    requires IsSquareRoot(sqrt) && na >= 0.0 && nb >= 0.0
    ensures IsRatio(sqrt, dot, na, nb, Ratio(sqrt, dot, na, nb))
  {
    if na != 0.0 && nb != 0.0 {
      ProductPositive(na, nb);
      Divided(dot, sqrt(na * nb));
    }
  }

  /** Cosine stays within -1 and 1 and is symmetric. */
  lemma CosineRange(sqrt: real -> real, a: Vector, b: Vector)
    requires IsSquareRoot(sqrt) && |a| == |b|
    ensures -1.0 <= CosineOf(sqrt, a, b) <= 1.0
    ensures CosineOf(sqrt, a, b) == CosineOf(sqrt, b, a)
  {
    CauchySchwarz(a, b);
    RatioRange(sqrt, Dot(a, b), Dot(a, a), Dot(b, b));
    DotSymmetric(a, b);
  }

  /** A vector that is not zero has cosine 1 with itself, as is stored for the
      first member of a cluster. */
  lemma SelfCosine(sqrt: real -> real, a: Vector)
    requires IsSquareRoot(sqrt) && Dot(a, a) != 0.0
    ensures CosineOf(sqrt, a, a) == 1.0
  {
    var n := Dot(a, a);
    assert n * n <= n * n;
    RatioRange(sqrt, n, n, n);
  }

  lemma RatioRange(sqrt: real -> real, dot: real, na: real, nb: real)
    requires IsSquareRoot(sqrt) && na >= 0.0 && nb >= 0.0 && dot * dot <= na * nb
    ensures -1.0 <= Ratio(sqrt, dot, na, nb) <= 1.0
    ensures Ratio(sqrt, dot, na, nb) == Ratio(sqrt, dot, nb, na)
    ensures dot == na == nb && na != 0.0 ==> Ratio(sqrt, dot, na, nb) == 1.0
  {
    if na != 0.0 && nb != 0.0 {
      var p := na * nb;
      ProductPositive(na, nb);
      assert p == nb * na;
      var s := sqrt(p);
      RootOrder(dot, s);
      if dot == na == nb { SameSquare(s, na); }
    }
  }

  lemma SameSquare(s: real, x: real)
    requires s > 0.0 && x > 0.0 && s * s == x * x
    ensures s == x
  {
    assert (s - x) * (s + x) == 0.0;
  }

  // ----- assignment -----

  datatype Candidate = Candidate(id: string, centroid: Vector)

  datatype Assignment = Existing(id: string, cosine: real) | NewCluster

  predicate Comparable(e: Vector, c: Candidate) {
    |c.centroid| == |e|
  }

  /** The nearest comparable candidate, the first of equals. */
  ghost predicate Nearest(sqrt: real -> real, e: Vector, candidates: seq<Candidate>, k: nat)
    requires IsSquareRoot(sqrt)
  {
    && k < |candidates| && Comparable(e, candidates[k])
    && (forall j :: 0 <= j < |candidates| && Comparable(e, candidates[j]) ==>
          && CosineOf(sqrt, e, candidates[j].centroid) <= CosineOf(sqrt, e, candidates[k].centroid)
          && (j < k ==> CosineOf(sqrt, e, candidates[j].centroid) < CosineOf(sqrt, e, candidates[k].centroid)))
  }

  /** Some candidate is near enough. */
  ghost predicate SomeNear(sqrt: real -> real, e: Vector, candidates: seq<Candidate>, threshold: real)
    requires IsSquareRoot(sqrt)
  {
    exists j :: 0 <= j < |candidates| && Comparable(e, candidates[j])
                && CosineOf(sqrt, e, candidates[j].centroid) >= threshold
  }

  /** The choice among the first `i` candidates. */
  ghost predicate BestOf(sqrt: real -> real, e: Vector, candidates: seq<Candidate>, i: nat, best: Assignment, k: nat)
    requires IsSquareRoot(sqrt) && i <= |candidates|
  {
    match best
    case NewCluster => forall j :: 0 <= j < i ==> !Comparable(e, candidates[j])
    case Existing(id, cosine) =>
      Nearest(sqrt, e, candidates[..i], k) && id == candidates[k].id
      && cosine == CosineOf(sqrt, e, candidates[k].centroid)
  }

  lemma BestStays(sqrt: real -> real, e: Vector, candidates: seq<Candidate>, i: nat, best: Assignment, k: nat)
    requires IsSquareRoot(sqrt) && i < |candidates| && BestOf(sqrt, e, candidates, i, best, k)
    requires Comparable(e, candidates[i]) ==>
      best.Existing? && CosineOf(sqrt, e, candidates[i].centroid) <= best.cosine
    ensures BestOf(sqrt, e, candidates, i + 1, best, k)
  {
    assert candidates[..i + 1] == candidates[..i] + [candidates[i]];
  }

  lemma BestMoves(sqrt: real -> real, e: Vector, candidates: seq<Candidate>, i: nat, best: Assignment, k: nat)
    requires IsSquareRoot(sqrt) && i < |candidates| && BestOf(sqrt, e, candidates, i, best, k)
    requires Comparable(e, candidates[i])
    requires best.Existing? ==> best.cosine < CosineOf(sqrt, e, candidates[i].centroid)
    ensures BestOf(sqrt, e, candidates, i + 1,
                   Existing(candidates[i].id, CosineOf(sqrt, e, candidates[i].centroid)), i)
  {
    assert candidates[..i + 1] == candidates[..i] + [candidates[i]];
    assert forall j :: 0 <= j < i ==> candidates[..i][j] == candidates[j];
  }

  lemma BestDecides(sqrt: real -> real, e: Vector, candidates: seq<Candidate>, threshold: real, best: Assignment, k: nat)
    requires IsSquareRoot(sqrt) && BestOf(sqrt, e, candidates, |candidates|, best, k)
    ensures best.Existing? ==> Nearest(sqrt, e, candidates, k)
    ensures SomeNear(sqrt, e, candidates, threshold) <==> best.Existing? && best.cosine >= threshold
  {
    assert candidates[..|candidates|] == candidates;
  }

  method AssignToCluster(sqrt: real -> real, e: Vector, candidates: seq<Candidate>, threshold: real)
      returns (r: Assignment, ghost k: nat)
    requires IsSquareRoot(sqrt)
    ensures r.Existing? <==> SomeNear(sqrt, e, candidates, threshold)
    ensures r.Existing? ==> Nearest(sqrt, e, candidates, k) && r.id == candidates[k].id
                            && r.cosine == CosineOf(sqrt, e, candidates[k].centroid) >= threshold
  {
    var best := NewCluster;
    k := 0;
    for i := 0 to |candidates|
      invariant BestOf(sqrt, e, candidates, i, best, k)
    {
      if |candidates[i].centroid| != |e| {
        BestStays(sqrt, e, candidates, i, best, k);
        continue;
      }
      var sim := Cosine(sqrt, e, candidates[i].centroid);
      if best.NewCluster? || sim.value > best.cosine {
        BestMoves(sqrt, e, candidates, i, best, k);
        best, k := Existing(candidates[i].id, sim.value), i;
      } else {
        BestStays(sqrt, e, candidates, i, best, k);
      }
    }
    BestDecides(sqrt, e, candidates, threshold, best, k);
    if best.Existing? && best.cosine >= threshold { return best, k; }
    return NewCluster, k;
  }

  // ----- running mean -----

  /** `r` is the mean once `e` joins `count` vectors of mean `centroid`. */
  ghost predicate RunningMean(centroid: Vector, count: nat, e: Vector, r: Vector) {
    && |r| == |centroid| == |e|
    && (forall i :: 0 <= i < |r| ==> r[i] * (count as real + 1.0) == centroid[i] * count as real + e[i])
  }

  function MeanOf(centroid: Vector, count: nat, e: Vector): (r: Vector)
    requires |centroid| == |e|
    ensures |r| == |centroid|
  {
    seq(|centroid|, i requires 0 <= i < |centroid| =>
      (centroid[i] * count as real + e[i]) / (count + 1) as real)
  }

  /** Weighted by the new count, the new mean is the old one, weighted by the
      old count, plus the new vector. */
  lemma MeanAdds(centroid: Vector, count: nat, e: Vector)
    requires |centroid| == |e|
    ensures RunningMean(centroid, count, e, MeanOf(centroid, count, e))
  {
    var r := MeanOf(centroid, count, e);
    forall i | 0 <= i < |r| ensures r[i] * (count as real + 1.0) == centroid[i] * count as real + e[i] {
      assert (count + 1) as real == count as real + 1.0;
      Divided(centroid[i] * count as real + e[i], (count + 1) as real);
    }
  }

  method UpdateCentroidIncremental(centroid: Vector, count: nat, e: Vector) returns (r: Checked<Vector>)
    ensures r.DimMismatch? <==> |centroid| != |e|
    ensures r.Fine? ==> r.value == MeanOf(centroid, count, e)
  {
    if |centroid| != |e| { return DimMismatch; }
    var out := new real[|centroid|];
    var n := (count + 1) as real;
    for i := 0 to |centroid|
      invariant forall j :: 0 <= j < i ==> out[j] == MeanOf(centroid, count, e)[j]
    {
      out[i] := (centroid[i] * count as real + e[i]) / n;
    }
    assert out[..] == MeanOf(centroid, count, e);
    return Fine(out[..]);
  }

  lemma Divided(x: real, n: real)
    requires n > 0.0
    ensures (x / n) * n == x
  {
  }
}
