/** Kahn's topological sort as the divergence finder runs it: in-degrees count
    parallel wires, and the ready queue is kept sorted by a tie-break order. */
module Kahn {
  import opened Ir
  import opened Sets
  import opened Graph

  // ----- specification -----

  function ArcSet(arcs: seq<Edge>): set<Edge> {
    set a | a in arcs
  }

  /** Position in the tie-break order. */
  function IndexOf(tie: seq<string>, n: string): (k: nat)
    requires n in tie
    ensures k < |tie| && tie[k] == n
  {
    if tie[0] == n then 0 else 1 + IndexOf(tie[1..], n)
  }

  /** `n` may come next: it is not placed and everything before it is. */
  predicate Ready(arcs: seq<Edge>, placed: seq<string>, n: string) {
    n !in placed && forall k :: 0 <= k < |arcs| && arcs[k].1 == n ==> arcs[k].0 in placed
  }

  /** The tie-break-smallest ready node after `placed`. */
  ghost predicate SmallestReady(tie: seq<string>, arcs: seq<Edge>, placed: seq<string>, n: string) {
    && n in tie && Ready(arcs, placed, n)
    && forall m :: m in tie && Ready(arcs, placed, m) ==> IndexOf(tie, n) <= IndexOf(tie, m)
  }

  /** A sequence each element of which is ready where it stands. */
  ghost predicate Topological(tie: seq<string>, arcs: seq<Edge>, order: seq<string>) {
    forall k :: 0 <= k < |order| ==> order[k] in tie && Ready(arcs, order[..k], order[k])
  }

  /** Always the smallest ready node. */
  ghost predicate GreedySoFar(tie: seq<string>, arcs: seq<Edge>, order: seq<string>) {
    forall k :: 0 <= k < |order| ==> SmallestReady(tie, arcs, order[..k], order[k])
  }

  /** The greedy order: always the smallest ready node, until none is ready. */
  ghost predicate Greedy(tie: seq<string>, arcs: seq<Edge>, order: seq<string>) {
    GreedySoFar(tie, arcs, order) && forall m :: m in tie ==> !Ready(arcs, order, m)
  }

  ghost predicate ArcsWithin(arcs: seq<Edge>, tie: seq<string>) {
    forall k :: 0 <= k < |arcs| ==> arcs[k].0 in tie && arcs[k].1 in tie
  }

  // ----- in-degrees -----

  /** Arcs into `n` from nodes that are not placed yet, with multiplicity. */
  function Pending(arcs: seq<Edge>, placed: seq<string>, n: string): nat {
    if arcs == [] then 0
    else
      var a := arcs[|arcs| - 1];
      Pending(arcs[..|arcs| - 1], placed, n) + if a.1 == n && a.0 !in placed then 1 else 0
  }

  /** The targets of the arcs out of `u`, with multiplicity. */
  function Targets(arcs: seq<Edge>, u: string): seq<string> {
    if arcs == [] then []
    else
      var a := arcs[|arcs| - 1];
      Targets(arcs[..|arcs| - 1], u) + if a.0 == u then [a.1] else []
  }

  lemma {:induction false} PendingZero(arcs: seq<Edge>, placed: seq<string>, n: string)
    ensures Pending(arcs, placed, n) == 0 <==> forall k :: 0 <= k < |arcs| && arcs[k].1 == n ==> arcs[k].0 in placed
  {
    if arcs != [] {
      var init := arcs[..|arcs| - 1];
      PendingZero(init, placed, n);
      assert forall k :: 0 <= k < |init| ==> init[k] == arcs[k];
    }
  }

  /** Placing `u` releases as many arcs into `n` as lead there from `u`. */
  lemma {:induction false} PlacingReleases(arcs: seq<Edge>, placed: seq<string>, u: string, n: string)
    requires u !in placed
    ensures Pending(arcs, placed, n) == Pending(arcs, placed + [u], n) + multiset(Targets(arcs, u))[n]
  {
    if arcs != [] {
      var a := arcs[|arcs| - 1];
      PlacingReleases(arcs[..|arcs| - 1], placed, u, n);
      assert a.0 in placed + [u] <==> a.0 in placed || a.0 == u;
    }
  }

  lemma {:induction false} TargetsAreArcs(arcs: seq<Edge>, u: string, t: string)
    requires t in Targets(arcs, u)
    ensures (u, t) in arcs
  {
    var init := arcs[..|arcs| - 1];
    assert arcs == init + [arcs[|arcs| - 1]];
    if t in Targets(init, u) { TargetsAreArcs(init, u, t); }
  }

  // ----- the algorithm -----

  /** In-degrees and adjacency lists are those of the arcs. */
  predicate ArcsCounted(tie: seq<string>, arcs: seq<Edge>, inDegree: map<string, int>, adjacency: map<string, seq<string>>) {
    forall n :: n in tie ==>
      n in inDegree && n in adjacency && inDegree[n] == Pending(arcs, [], n) && adjacency[n] == Targets(arcs, n)
  }

  lemma CountOne(tie: seq<string>, arcs: seq<Edge>, k: nat, inDegree: map<string, int>, adjacency: map<string, seq<string>>)
    requires k < |arcs| && arcs[k].0 in tie && arcs[k].1 in tie && ArcsCounted(tie, arcs[..k], inDegree, adjacency)
    ensures var (from, to) := arcs[k];
      ArcsCounted(tie, arcs[..k + 1], inDegree[to := inDegree[to] + 1], adjacency[from := adjacency[from] + [to]])
  {
    assert arcs[..k + 1][..k] == arcs[..k];
  }

  method CountArcs(tie: seq<string>, arcs: seq<Edge>) returns (inDegree: map<string, int>, adjacency: map<string, seq<string>>)
    requires ArcsWithin(arcs, tie)
    ensures ArcsCounted(tie, arcs, inDegree, adjacency)
  {
    inDegree, adjacency := map n | n in tie :: 0, map n | n in tie :: [];
    for k := 0 to |arcs|
      invariant ArcsCounted(tie, arcs[..k], inDegree, adjacency)
    {
      var (from, to) := arcs[k];
      CountOne(tie, arcs, k, inDegree, adjacency);
      adjacency := adjacency[from := adjacency[from] + [to]];
      inDegree := inDegree[to := inDegree[to] + 1];
    }
    assert arcs[..|arcs|] == arcs;
  }

  ghost predicate SortedByTie(tie: seq<string>, queue: seq<string>) {
    && (forall i :: 0 <= i < |queue| ==> queue[i] in tie)
    && forall i, j :: 0 <= i < j < |queue| ==> IndexOf(tie, queue[i]) < IndexOf(tie, queue[j])
  }

  lemma IndexDistinct(tie: seq<string>, a: string, b: string)
    requires a in tie && b in tie && a != b
    ensures IndexOf(tie, a) != IndexOf(tie, b)
  {
  }

  ghost predicate Increasing(s: seq<int>) {
    forall i, j :: 0 <= i < j < |s| ==> s[i] < s[j]
  }

  lemma InsertIncreasing(left: seq<int>, x: int, right: seq<int>)
    requires Increasing(left + right)
    requires forall i :: 0 <= i < |left| ==> left[i] < x
    requires right != [] ==> x < right[0]
    ensures Increasing(left + [x] + right)
  {
    var q := left + right;
    assert forall i :: 0 <= i < |left| ==> left[i] == q[i];
    assert forall i :: 0 <= i < |right| ==> right[i] == q[|left| + i];
    assert Increasing(right);
  }

  function Ranks(tie: seq<string>, queue: seq<string>): (r: seq<int>)
    requires forall i :: 0 <= i < |queue| ==> queue[i] in tie
    ensures |r| == |queue| && forall i :: 0 <= i < |queue| ==> r[i] == IndexOf(tie, queue[i])
  {
    seq(|queue|, i requires 0 <= i < |queue| => IndexOf(tie, queue[i]))
  }

  lemma SortedInsert(tie: seq<string>, queue: seq<string>, at: nat, n: string)
    requires SortedByTie(tie, queue) && n in tie && at <= |queue|
    requires forall i :: 0 <= i < at ==> IndexOf(tie, queue[i]) < IndexOf(tie, n)
    requires at < |queue| ==> IndexOf(tie, n) < IndexOf(tie, queue[at])
    ensures SortedByTie(tie, queue[..at] + [n] + queue[at..])
  {
    var r, ranks := queue[..at] + [n] + queue[at..], Ranks(tie, queue);
    assert ranks == ranks[..at] + ranks[at..];
    InsertIncreasing(ranks[..at], IndexOf(tie, n), ranks[at..]);
    var inserted := ranks[..at] + [IndexOf(tie, n)] + ranks[at..];
    forall i | 0 <= i < |r| ensures r[i] in tie && IndexOf(tie, r[i]) == inserted[i] {
      InsertedAt(tie, queue, at, n, i);
    }
    forall i, j | 0 <= i < j < |r| ensures IndexOf(tie, r[i]) < IndexOf(tie, r[j]) {
      assert inserted[i] < inserted[j];
    }
  }

  lemma InsertedAt(tie: seq<string>, queue: seq<string>, at: nat, n: string, i: nat)
    requires (forall k :: 0 <= k < |queue| ==> queue[k] in tie) && n in tie && at <= |queue| && i <= |queue|
    ensures var r, ranks := queue[..at] + [n] + queue[at..], Ranks(tie, queue);
      && r[i] == (if i < at then queue[i] else if i == at then n else queue[i - 1])
      && r[i] in tie && IndexOf(tie, r[i]) == (ranks[..at] + [IndexOf(tie, n)] + ranks[at..])[i]
  {
  }

  /** Insert before the first queued node with a larger index, or at the end. */
  method InsertSorted(tie: seq<string>, queue: seq<string>, n: string) returns (r: seq<string>)
    requires SortedByTie(tie, queue) && n in tie && n !in queue
    ensures SortedByTie(tie, r)
    ensures forall x :: x in r <==> x in queue || x == n
  {
    var insertAt := 0;
    while insertAt < |queue| && IndexOf(tie, queue[insertAt]) <= IndexOf(tie, n)
      invariant insertAt <= |queue|
      invariant forall j :: 0 <= j < insertAt ==> IndexOf(tie, queue[j]) < IndexOf(tie, n)
    {
      IndexDistinct(tie, queue[insertAt], n);
      insertAt := insertAt + 1;
    }
    r := queue[..insertAt] + [n] + queue[insertAt..];
    assert queue == queue[..insertAt] + queue[insertAt..];
    SortedInsert(tie, queue, insertAt, n);
  }

  /** The queue holds exactly the unplaced nodes whose count is zero. */
  ghost predicate QueueIsReady(tie: seq<string>, inDegree: map<string, int>, order: seq<string>, queue: seq<string>) {
    && (forall n :: n in tie ==> n in inDegree)
    && forall n :: n in queue <==> n in tie && n !in order && inDegree[n] == 0
  }

  /** The counts are the pending arcs, plus those still to be released from
      the node just placed. */
  ghost predicate CountsPending(tie: seq<string>, arcs: seq<Edge>, inDegree: map<string, int>, order: seq<string>, left: seq<string>) {
    forall n :: n in tie ==> n in inDegree && inDegree[n] == Pending(arcs, order, n) + multiset(left)[n]
  }

  /** Release the arcs out of the node placed last. */
  method Release(tie: seq<string>, ghost arcs: seq<Edge>, ghost order: seq<string>, inDegree0: map<string, int>,
                 queue0: seq<string>, targets: seq<string>)
    returns (inDegree: map<string, int>, queue: seq<string>)
    requires CountsPending(tie, arcs, inDegree0, order, targets) && QueueIsReady(tie, inDegree0, order, queue0)
    requires SortedByTie(tie, queue0)
    requires forall t :: t in targets ==> t in tie && t !in order
    ensures CountsPending(tie, arcs, inDegree, order, []) && QueueIsReady(tie, inDegree, order, queue)
    ensures SortedByTie(tie, queue)
  {
    inDegree, queue := inDegree0, queue0;
    for j := 0 to |targets|
      invariant CountsPending(tie, arcs, inDegree, order, targets[j..]) && QueueIsReady(tie, inDegree, order, queue)
      invariant SortedByTie(tie, queue)
    {
      var next := targets[j];
      assert targets[j..] == [next] + targets[j + 1..];
      assert next in targets;
      var d := inDegree[next] - 1;
      inDegree := inDegree[next := d];
      if d == 0 { queue := InsertSorted(tie, queue, next); }
    }
    assert targets[|targets|..] == [];
  }

  /** Nodes whose count is zero, in tie-break order. */
  method InitialQueue(tie: seq<string>, inDegree: map<string, int>) returns (queue: seq<string>)
    requires Distinct(tie) && forall n :: n in tie ==> n in inDegree
    ensures QueueIsReady(tie, inDegree, [], queue) && SortedByTie(tie, queue)
  {
    queue := [];
    for k := 0 to |tie|
      invariant forall n :: n in queue <==> n in tie[..k] && inDegree[n] == 0
      invariant SortedByTie(tie, queue) && forall i :: 0 <= i < |queue| ==> IndexOf(tie, queue[i]) < k
    {
      assert tie[..k + 1] == tie[..k] + [tie[k]];
      assert IndexOf(tie, tie[k]) == k;
      if inDegree[tie[k]] == 0 { queue := queue + [tie[k]]; }
    }
    assert tie[..|tie|] == tie;
  }

  lemma HeadIsSmallest(tie: seq<string>, arcs: seq<Edge>, inDegree: map<string, int>, order: seq<string>, queue: seq<string>)
    requires CountsPending(tie, arcs, inDegree, order, []) && QueueIsReady(tie, inDegree, order, queue)
    requires SortedByTie(tie, queue) && queue != []
    ensures SmallestReady(tie, arcs, order, queue[0])
  {
    assert queue[0] in queue;
    PendingZero(arcs, order, queue[0]);
    forall m | m in tie && Ready(arcs, order, m) ensures IndexOf(tie, queue[0]) <= IndexOf(tie, m) {
      PendingZero(arcs, order, m);
      assert m in queue;
    }
  }

  /** The target of an arc from an unplaced node is not placed either. */
  lemma NotPlacedYet(tie: seq<string>, arcs: seq<Edge>, order: seq<string>, k: nat)
    requires Topological(tie, arcs, order) && k < |arcs| && arcs[k].0 !in order
    ensures arcs[k].1 !in order
  {
    forall j | 0 <= j < |order| ensures order[j] != arcs[k].1 {
      assert Ready(arcs, order[..j], order[j]);
      assert arcs[k].0 !in order[..j];
    }
  }

  lemma PlaceHead(tie: seq<string>, arcs: seq<Edge>, inDegree: map<string, int>, order: seq<string>, queue: seq<string>)
    requires ArcsWithin(arcs, tie)
    requires CountsPending(tie, arcs, inDegree, order, []) && QueueIsReady(tie, inDegree, order, queue)
    requires SortedByTie(tie, queue) && queue != [] && Topological(tie, arcs, order)
    ensures var cur := queue[0]; var targets := Targets(arcs, cur);
      && CountsPending(tie, arcs, inDegree, order + [cur], targets)
      && QueueIsReady(tie, inDegree, order + [cur], queue[1..])
      && forall t :: t in targets ==> t in tie && t !in order + [cur]
  {
    var cur := queue[0];
    assert queue[0] in queue;
    PendingZero(arcs, order, cur);
    forall n | n in tie ensures inDegree[n] == Pending(arcs, order + [cur], n) + multiset(Targets(arcs, cur))[n] {
      PlacingReleases(arcs, order, cur, n);
    }
    forall n ensures n in queue[1..] <==> n in queue && n != cur {
      if n in queue && n != cur {
        var i :| 0 <= i < |queue| && queue[i] == n;
        assert queue[1..][i - 1] == n;
      }
      if n in queue[1..] {
        var i :| 0 <= i < |queue[1..]| && queue[1..][i] == n;
        assert queue[i + 1] == n;
      }
    }
    forall t | t in Targets(arcs, cur) ensures t in tie && t !in order + [cur] {
      TargetsAreArcs(arcs, cur, t);
      var k :| 0 <= k < |arcs| && arcs[k] == (cur, t);
      NotPlacedYet(tie, arcs, order, k);
    }
  }

  lemma GreedyIsTopological(tie: seq<string>, arcs: seq<Edge>, order: seq<string>)
    requires GreedySoFar(tie, arcs, order)
    ensures Topological(tie, arcs, order)
  {
  }

  lemma {:induction false} TopologicalIsDistinct(tie: seq<string>, arcs: seq<Edge>, order: seq<string>)
    requires Topological(tie, arcs, order)
    ensures Distinct(order) && forall k :: 0 <= k < |order| ==> order[k] in tie
  {
    forall i, j | 0 <= i < j < |order| ensures order[i] != order[j] {
      assert Ready(arcs, order[..j], order[j]);
      assert order[..j][i] == order[i];
    }
  }

  /** The source of the arc stands before its target. */
  predicate SourceEarlier(order: seq<string>, arc: Edge) {
    forall j :: 0 <= j < |order| && order[j] == arc.1 ==> arc.0 in order[..j]
  }

  /** A sequence is topological exactly if it holds known nodes, each once, and
      the source of every arc into one of them stands earlier. */
  lemma TopologicalMeaning(tie: seq<string>, arcs: seq<Edge>, order: seq<string>)
    ensures Topological(tie, arcs, order) <==>
              Distinct(order) && (forall k :: 0 <= k < |order| ==> order[k] in tie)
              && forall k :: 0 <= k < |arcs| ==> SourceEarlier(order, arcs[k])
  {
    if Topological(tie, arcs, order) {
      TopologicalIsDistinct(tie, arcs, order);
      forall k, j | 0 <= k < |arcs| && 0 <= j < |order| && order[j] == arcs[k].1 ensures arcs[k].0 in order[..j] {
        assert Ready(arcs, order[..j], order[j]);
      }
    }
    if Distinct(order) && forall k :: 0 <= k < |arcs| ==> SourceEarlier(order, arcs[k]) {
      forall j | 0 <= j < |order| ensures Ready(arcs, order[..j], order[j]) {
        forall k | 0 <= k < |arcs| && arcs[k].1 == order[j] ensures arcs[k].0 in order[..j] {
          assert SourceEarlier(order, arcs[k]);
        }
      }
    }
  }

  lemma DistinctWithin(order: seq<string>, tie: seq<string>)
    requires Distinct(order) && forall k :: 0 <= k < |order| ==> order[k] in tie
    ensures |order| <= |Elems(tie)|
  {
    DistinctSize(order);
    SubsetSize(Elems(order), Elems(tie));
  }

  lemma {:induction false} DistinctSize(s: seq<string>)
    requires Distinct(s)
    ensures |Elems(s)| == |s|
  {
    if s != [] {
      var init, last := s[..|s| - 1], s[|s| - 1];
      DistinctSize(init);
      assert s == init + [last];
      assert Elems(s) == Elems(init) + {last};
      assert last !in Elems(init);
    }
  }

  /** Kahn's loop produces the greedy topological order. */
  method TopoOrder(tie: seq<string>, arcs: seq<Edge>) returns (order: seq<string>)
    requires Distinct(tie) && ArcsWithin(arcs, tie)
    ensures Greedy(tie, arcs, order)
  {
    var inDegree, adjacency := CountArcs(tie, arcs);
    var queue := InitialQueue(tie, inDegree);
    order := [];
    while queue != []
      invariant GreedySoFar(tie, arcs, order)
      invariant CountsPending(tie, arcs, inDegree, order, []) && QueueIsReady(tie, inDegree, order, queue)
      invariant SortedByTie(tie, queue)
      decreases |Elems(tie)| - |order|
    {
      HeadIsSmallest(tie, arcs, inDegree, order, queue);
      GreedyIsTopological(tie, arcs, order);
      PlaceHead(tie, arcs, inDegree, order, queue);
      var cur := queue[0];
      ghost var before := order;
      order := order + [cur];
      assert GreedySoFar(tie, arcs, order) by {
        forall k | 0 <= k < |order| ensures SmallestReady(tie, arcs, order[..k], order[k]) {
          if k < |before| { assert order[..k] == before[..k]; } else { assert order[..k] == before; }
        }
      }
      GreedyIsTopological(tie, arcs, order);
      TopologicalIsDistinct(tie, arcs, order);
      DistinctWithin(order, tie);
      inDegree, queue := Release(tie, arcs, order, inDegree, queue[1..], adjacency[cur]);
    }
    forall m | m in tie ensures !Ready(arcs, order, m) {
      PendingZero(arcs, order, m);
      assert m !in queue;
    }
  }

  // ----- what the greedy order is -----

  /** Everything on a path into a placed node is placed, and strictly earlier. */
  lemma {:induction false} AncestorsPlacedEarlier(tie: seq<string>, arcs: seq<Edge>, order: seq<string>, p: seq<string>, k: nat)
    returns (j: nat)
    requires Topological(tie, arcs, order) && IsPath(ArcSet(arcs), p) && k < |order| && order[k] == p[|p| - 1]
    ensures j < |order| && order[j] == p[0] && j + |p| - 1 <= k
    decreases |p|
  {
    if |p| == 1 {
      j := k;
    } else {
      assert (p[|p| - 2], p[|p| - 2 + 1]) in ArcSet(arcs);
      var a :| 0 <= a < |arcs| && arcs[a] == (p[|p| - 2], p[|p| - 1]);
      assert Ready(arcs, order[..k], order[k]);
      var i :| 0 <= i < k && order[..k][i] == p[|p| - 2];
      PathPrefix(ArcSet(arcs), p, |p| - 1);
      j := AncestorsPlacedEarlier(tie, arcs, order, p[..|p| - 1], i);
    }
  }

  lemma NoRepeat(order: seq<string>, i: nat, j: nat)
    requires Distinct(order) && i < |order| && j < |order| && order[i] == order[j]
    ensures i == j
  {
  }

  ghost predicate BehindCycle(edges: set<Edge>, n: string) {
    exists c :: ReachesPlus(edges, c, c) && Reaches(edges, c, n)
  }

  /** The greedy order holds exactly the nodes no cycle leads to. */
  lemma PlacedIffNotBehindCycle(tie: seq<string>, arcs: seq<Edge>, order: seq<string>, n: string)
    requires ArcsWithin(arcs, tie) && Greedy(tie, arcs, order) && n in tie
    ensures n in order <==> !BehindCycle(ArcSet(arcs), n)
  {
    var edges := ArcSet(arcs);
    GreedyIsTopological(tie, arcs, order);
    TopologicalIsDistinct(tie, arcs, order);
    if n in order && BehindCycle(edges, n) {
      var k :| 0 <= k < |order| && order[k] == n;
      var c :| ReachesPlus(edges, c, c) && Reaches(edges, c, n);
      var p :| PathFromTo(edges, p, c, n);
      var i := AncestorsPlacedEarlier(tie, arcs, order, p, k);
      var q :| PathFromTo(edges, q, c, c) && |q| >= 2;
      var j := AncestorsPlacedEarlier(tie, arcs, order, q, i);
      NoRepeat(order, i, j);
      assert false;
    }
    if n !in order {
      var nodes := set m | m in tie && m !in order;
      forall m | m in nodes ensures HasPredecessor(edges, nodes, m) {
        assert !Ready(arcs, order, m);
        var a :| 0 <= a < |arcs| && arcs[a].1 == m && arcs[a].0 !in order;
        assert arcs[a].0 in nodes && (arcs[a].0, m) in edges;
      }
      assert IsPath(edges, [n]) && Elems([n]) <= nodes;
      var c := BackwardChase(edges, nodes, [n]);
    }
  }

  lemma ReadyDependsOnPrefix(arcs: seq<Edge>, p: seq<string>, q: seq<string>, n: string)
    requires p == q && Ready(arcs, p, n)
    ensures Ready(arcs, q, n)
  {
  }

  /** The length of the longest common prefix. */
  function Agreement(p: seq<string>, q: seq<string>): (k: nat)
    ensures k <= |p| && k <= |q| && p[..k] == q[..k]
    ensures k < |p| && k < |q| ==> p[k] != q[k]
  {
    if p == [] || q == [] || p[0] != q[0] then 0
    else
      var k := Agreement(p[1..], q[1..]);
      assert p[..k + 1] == [p[0]] + p[1..][..k];
      assert q[..k + 1] == [q[0]] + q[1..][..k];
      k + 1
  }

  /** Of all topological sequences the greedy order is the least: any other
      one is a prefix of it, or has a larger node at the first difference. */
  lemma GreedyIsLeast(tie: seq<string>, arcs: seq<Edge>, order: seq<string>, other: seq<string>)
    requires Greedy(tie, arcs, order) && Topological(tie, arcs, other)
    ensures var k := Agreement(order, other);
      k == |other| || (k < |order| && order[k] in tie && other[k] in tie && IndexOf(tie, order[k]) < IndexOf(tie, other[k]))
  {
    var k := Agreement(order, other);
    if k < |other| {
      assert Ready(arcs, other[..k], other[k]);
      ReadyDependsOnPrefix(arcs, other[..k], order[..k], other[k]);
      assert order[..|order|] == order;
      assert k != |order|;
      assert SmallestReady(tie, arcs, order[..k], order[k]);
      IndexDistinct(tie, order[k], other[k]);
    }
  }
}
