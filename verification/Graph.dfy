/** Directed graphs over names, given by their edge set: paths, reachability,
    cycles, and the finite-chain argument that turns "every node has a
    predecessor" into a cycle. */
module Graph {
  import opened Sets

  type Edge = (string, string)

  ghost predicate IsPath(edges: set<Edge>, p: seq<string>) {
    |p| > 0 && forall i :: 0 <= i < |p| - 1 ==> (p[i], p[i + 1]) in edges
  }

  ghost predicate PathFromTo(edges: set<Edge>, p: seq<string>, a: string, b: string) {
    IsPath(edges, p) && p[0] == a && p[|p| - 1] == b
  }

  /** `b` can be reached from `a` in zero or more steps. */
  ghost predicate Reaches(edges: set<Edge>, a: string, b: string) {
    exists p :: PathFromTo(edges, p, a, b)
  }

  /** `b` can be reached from `a` in one or more steps. */
  ghost predicate ReachesPlus(edges: set<Edge>, a: string, b: string) {
    exists p :: PathFromTo(edges, p, a, b) && |p| >= 2
  }

  ghost predicate Acyclic(edges: set<Edge>) {
    forall a :: !ReachesPlus(edges, a, a)
  }

  ghost predicate Closed(edges: set<Edge>, s: set<string>) {
    forall e :: e in edges && e.0 in s ==> e.1 in s
  }

  lemma ReachesSelf(edges: set<Edge>, a: string)
    ensures Reaches(edges, a, a)
  {
    assert PathFromTo(edges, [a], a, a);
  }

  lemma EdgeReaches(edges: set<Edge>, a: string, b: string)
    requires (a, b) in edges
    ensures ReachesPlus(edges, a, b)
  {
    assert PathFromTo(edges, [a, b], a, b);
  }

  lemma PlusReaches(edges: set<Edge>, a: string, b: string)
    requires ReachesPlus(edges, a, b)
    ensures Reaches(edges, a, b)
  {
  }

  lemma ReachesIsSelfOrPlus(edges: set<Edge>, a: string, b: string)
    requires Reaches(edges, a, b) && a != b
    ensures ReachesPlus(edges, a, b)
  {
    var p :| PathFromTo(edges, p, a, b);
    assert |p| >= 2;
  }

  lemma Compose(edges: set<Edge>, p: seq<string>, q: seq<string>, a: string, b: string, c: string)
    requires PathFromTo(edges, p, a, b) && PathFromTo(edges, q, b, c)
    ensures PathFromTo(edges, p + q[1..], a, c)
  {
    var r := p + q[1..];
    forall i | 0 <= i < |r| - 1 ensures (r[i], r[i + 1]) in edges {
      if i >= |p| - 1 {
        var j := i - (|p| - 1);
        assert (q[j], q[j + 1]) in edges;
      }
    }
  }

  lemma StepThenReach(edges: set<Edge>, a: string, b: string, c: string)
    requires (a, b) in edges && Reaches(edges, b, c)
    ensures ReachesPlus(edges, a, c)
  {
    var q :| PathFromTo(edges, q, b, c);
    assert PathFromTo(edges, [a, b], a, b);
    Compose(edges, [a, b], q, a, b, c);
  }

  lemma ReachThenStep(edges: set<Edge>, a: string, b: string, c: string)
    requires Reaches(edges, a, b) && (b, c) in edges
    ensures ReachesPlus(edges, a, c)
  {
    var p :| PathFromTo(edges, p, a, b);
    assert PathFromTo(edges, [b, c], b, c);
    Compose(edges, p, [b, c], a, b, c);
  }

  /** The last edge of a path of one or more steps. */
  lemma LastStep(edges: set<Edge>, a: string, c: string) returns (b: string)
    requires ReachesPlus(edges, a, c)
    ensures Reaches(edges, a, b) && (b, c) in edges
  {
    var p :| PathFromTo(edges, p, a, c) && |p| >= 2;
    b := p[|p| - 2];
    assert PathFromTo(edges, p[..|p| - 1], a, b);
    assert (p[|p| - 2], p[|p| - 2 + 1]) in edges;
  }

  /** The first edge of a path of one or more steps. */
  lemma FirstStep(edges: set<Edge>, a: string, c: string) returns (b: string)
    requires ReachesPlus(edges, a, c)
    ensures (a, b) in edges && Reaches(edges, b, c)
  {
    var p :| PathFromTo(edges, p, a, c) && |p| >= 2;
    b := p[1];
    assert (p[0], p[0 + 1]) in edges;
    var q := p[1..];
    forall i | 0 <= i < |q| - 1 ensures (q[i], q[i + 1]) in edges {
      assert (p[i + 1], p[i + 1 + 1]) in edges;
    }
    assert PathFromTo(edges, q, b, c);
  }

  /** A forward-closed set holds everything reachable from its members. */
  lemma {:induction false} ClosedHoldsReachable(edges: set<Edge>, s: set<string>, p: seq<string>)
    requires Closed(edges, s) && IsPath(edges, p) && p[0] in s
    ensures p[|p| - 1] in s
    decreases |p|
  {
    if |p| > 1 {
      var q := p[..|p| - 1];
      ClosedHoldsReachable(edges, s, q);
      assert (p[|p| - 2], p[|p| - 2 + 1]) in edges;
    }
  }

  lemma ClosedContains(edges: set<Edge>, s: set<string>, a: string, b: string)
    requires Closed(edges, s) && a in s && Reaches(edges, a, b)
    ensures b in s
  {
    var p :| PathFromTo(edges, p, a, b);
    ClosedHoldsReachable(edges, s, p);
  }

  lemma Prepend(edges: set<Edge>, m: string, p: seq<string>)
    requires IsPath(edges, p) && (m, p[0]) in edges
    ensures IsPath(edges, [m] + p)
  {
    var q := [m] + p;
    forall i | 0 <= i < |q| - 1 ensures (q[i], q[i + 1]) in edges {
      if i > 0 { assert (p[i - 1], p[i - 1 + 1]) in edges; }
    }
  }

  lemma PathPrefix(edges: set<Edge>, p: seq<string>, n: nat)
    requires IsPath(edges, p) && 0 < n <= |p|
    ensures IsPath(edges, p[..n])
  {
    forall i | 0 <= i < n - 1 ensures (p[..n][i], p[..n][i + 1]) in edges {
      assert (p[i], p[i + 1]) in edges;
    }
  }

  function Elems(s: seq<string>): set<string> {
    set x | x in s
  }

  ghost predicate HasPredecessor(edges: set<Edge>, nodes: set<string>, n: string) {
    exists m :: m in nodes && (m, n) in edges
  }

  ghost predicate EveryHasPredecessor(edges: set<Edge>, nodes: set<string>) {
    forall n {:trigger HasPredecessor(edges, nodes, n)} :: n in nodes ==> HasPredecessor(edges, nodes, n)
  }

  /** Stepping back onto the walk closes a cycle. */
  lemma CloseTheLoop(edges: set<Edge>, m: string, chain: seq<string>, k: nat)
    requires IsPath(edges, chain) && (m, chain[0]) in edges
    requires k < |chain| && chain[k] == m
    ensures ReachesPlus(edges, m, m) && Reaches(edges, m, chain[|chain| - 1])
  {
    var longer := [m] + chain;
    Prepend(edges, m, chain);
    PathPrefix(edges, longer, k + 2);
    assert PathFromTo(edges, longer[..k + 2], m, m);
    assert PathFromTo(edges, longer, m, chain[|chain| - 1]);
  }

  lemma LongerWalk(nodes: set<string>, m: string, chain: seq<string>)
    requires m in nodes && m !in chain && Elems(chain) <= nodes
    ensures Elems([m] + chain) <= nodes
    ensures |nodes - Elems([m] + chain)| < |nodes - Elems(chain)|
  {
    assert Elems([m] + chain) == Elems(chain) + {m};
    assert m in nodes - Elems(chain);
    SmallerSet(nodes - Elems([m] + chain), nodes - Elems(chain));
  }

  /** In a finite set where every member has a predecessor in the set, every
      member is reached from a node on a cycle. `chain` is the backward walk
      made so far, ending in the member asked about. */
  lemma {:induction false} BackwardChase(edges: set<Edge>, nodes: set<string>, chain: seq<string>) returns (c: string)
    requires EveryHasPredecessor(edges, nodes)
    requires IsPath(edges, chain) && Elems(chain) <= nodes
    ensures c in nodes && ReachesPlus(edges, c, c) && Reaches(edges, c, chain[|chain| - 1])
    decreases |nodes - Elems(chain)|
  {
    assert chain[0] in Elems(chain);
    assert HasPredecessor(edges, nodes, chain[0]);
    var m :| m in nodes && (m, chain[0]) in edges;
    if k :| 0 <= k < |chain| && chain[k] == m {
      CloseTheLoop(edges, m, chain, k);
      c := m;
    } else {
      Prepend(edges, m, chain);
      LongerWalk(nodes, m, chain);
      c := BackwardChase(edges, nodes, [m] + chain);
      assert ([m] + chain)[|chain|] == chain[|chain| - 1];
    }
  }
}
