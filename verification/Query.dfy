/**
 Bounded breadth-first search over a code graph
 (crates/workflow-code-intel/src/query.rs:47-170).
 */
module GraphQuery {

  type NodeId = nat
  type EdgeId = nat

  datatype Edge = Edge(id: EdgeId, source: NodeId, target: NodeId)

  datatype Direction = Incoming | Outgoing

  datatype TraversalResult = TraversalResult(edges: seq<EdgeId>, nodes: seq<NodeId>, truncated: bool)

  function From(e: Edge, d: Direction): NodeId { if d.Outgoing? then e.source else e.target }

  function Onto(e: Edge, d: Direction): NodeId { if d.Outgoing? then e.target else e.source }

  // ---- walks

  /** `x` is reached from one of `roots` by `k` edges. */
  ghost predicate Walk(edges: seq<Edge>, d: Direction, roots: set<NodeId>, x: NodeId, k: nat)
    decreases k
  {
    if k == 0 then x in roots
    else exists e :: e in edges && Onto(e, d) == x && Walk(edges, d, roots, From(e, d), k - 1)
  }

  ghost predicate Reachable(edges: seq<Edge>, d: Direction, roots: set<NodeId>, x: NodeId) {
    exists k: nat :: Walk(edges, d, roots, x, k)
  }

  /** `nodes` and the `ids` between them follow edges of the graph. */
  ghost predicate IsPath(edges: seq<Edge>, nodes: seq<NodeId>, ids: seq<EdgeId>) {
    && |nodes| == |ids| + 1
    && forall i :: 0 <= i < |ids| ==> Edge(ids[i], nodes[i], nodes[i + 1]) in edges
  }

  /** A path is a walk of the same length. */
  lemma {:induction false} PathIsWalk(edges: seq<Edge>, nodes: seq<NodeId>, ids: seq<EdgeId>)
    requires IsPath(edges, nodes, ids)
    ensures Walk(edges, Outgoing, {nodes[0]}, nodes[|ids|], |ids|)
    decreases |ids|
  {
    var n := |ids|;
    if n > 0 {
      var nodes', ids' := nodes[..n], ids[..n - 1];
      assert IsPath(edges, nodes', ids') by {
        forall i | 0 <= i < n - 1 ensures Edge(ids'[i], nodes'[i], nodes'[i + 1]) in edges {
          assert Edge(ids[i], nodes[i], nodes[i + 1]) in edges;
        }
      }
      PathIsWalk(edges, nodes', ids');
      var last := Edge(ids[n - 1], nodes[n - 1], nodes[n]);
      assert last in edges && From(last, Outgoing) == nodes'[n - 1];
    }
  }

  // ---- adjacency

  type Adjacency = map<NodeId, seq<(EdgeId, NodeId)>>

  predicate Below(p: (EdgeId, NodeId), q: (EdgeId, NodeId)) {
    p.0 < q.0 || (p.0 == q.0 && p.1 <= q.1)
  }

  ghost predicate Sorted(s: seq<(EdgeId, NodeId)>) {
    forall i, j :: 0 <= i < j < |s| ==> Below(s[i], s[j])
  }

  /** What leaves `n`, in the order of the edges. */
  function Leaving(edges: seq<Edge>, d: Direction, n: NodeId): seq<(EdgeId, NodeId)> {
    if edges == [] then []
    else
      var e := edges[|edges| - 1];
      Leaving(edges[..|edges| - 1], d, n) + if From(e, d) == n then [(e.id, Onto(e, d))] else []
  }

  lemma {:induction false} LeavingIsEdges(edges: seq<Edge>, d: Direction, n: NodeId, p: (EdgeId, NodeId))
    ensures p in Leaving(edges, d, n) <==> exists e :: e in edges && From(e, d) == n && p == (e.id, Onto(e, d))
    decreases |edges|
  {
    if edges != [] {
      var init, e := edges[..|edges| - 1], edges[|edges| - 1];
      LeavingIsEdges(init, d, n, p);
      assert edges == init + [e];
    }
  }

  function Successors(adjacency: Adjacency, n: NodeId): seq<(EdgeId, NodeId)> {
    if n in adjacency then adjacency[n] else []
  }

  /** Sorted insertion, the step by which each list is put in order. */
  function Inserted(s: seq<(EdgeId, NodeId)>, p: (EdgeId, NodeId)): seq<(EdgeId, NodeId)> {
    if s == [] then [p]
    else if Below(s[|s| - 1], p) then s + [p]
    else Inserted(s[..|s| - 1], p) + [s[|s| - 1]]
  }

  lemma {:induction false} InsertedIsAll(s: seq<(EdgeId, NodeId)>, p: (EdgeId, NodeId))
    ensures multiset(Inserted(s, p)) == multiset(s) + multiset{p}
  {
    if s != [] {
      var init, last := s[..|s| - 1], s[|s| - 1];
      assert s == init + [last];
      InsertedIsAll(init, p);
    }
  }

  lemma {:induction false} InsertedIsSorted(s: seq<(EdgeId, NodeId)>, p: (EdgeId, NodeId))
    requires Sorted(s)
    ensures Sorted(Inserted(s, p))
  {
    if s != [] && !Below(s[|s| - 1], p) {
      var init, last := s[..|s| - 1], s[|s| - 1];
      var rest := Inserted(init, p);
      InsertedIsSorted(init, p);
      InsertedIsAll(init, p);
      forall i | 0 <= i < |rest| ensures Below(rest[i], last) {
        assert rest[i] in multiset(rest);
        assert rest[i] == p || rest[i] in init;
      }
    }
  }

  /** The list of `n` is what leaves `n`, sorted. */
  ghost predicate Lists(adjacency: Adjacency, edges: seq<Edge>, d: Direction, n: NodeId) {
    Sorted(Successors(adjacency, n)) && multiset(Successors(adjacency, n)) == multiset(Leaving(edges, d, n))
  }

  lemma ListsExtend(adjacency: Adjacency, edges: seq<Edge>, d: Direction, e: Edge, after: Adjacency, n: NodeId)
    requires Lists(adjacency, edges, d, n)
    requires after == adjacency[From(e, d) := Inserted(Successors(adjacency, From(e, d)), (e.id, Onto(e, d)))]
    ensures Lists(after, edges + [e], d, n)
  {
    var p, before, left := (e.id, Onto(e, d)), Successors(adjacency, n), Leaving(edges, d, n);
    assert (edges + [e])[..|edges|] == edges;
    if n == From(e, d) {
      assert Leaving(edges + [e], d, n) == left + [p];
      assert Successors(after, n) == Inserted(before, p);
      InsertedIsAll(before, p);
      InsertedIsSorted(before, p);
      assert multiset(left + [p]) == multiset(left) + multiset{p};
    } else {
      assert Leaving(edges + [e], d, n) == left + [];
      assert left + [] == left;
      assert Successors(after, n) == before;
    }
  }

  /** `adjacency`: for every node its outgoing edges, sorted. */
  method BuildAdjacency(edges: seq<Edge>, d: Direction) returns (result: Adjacency)
    ensures forall n :: Lists(result, edges, d, n)
  {
    result := map[];
    for i := 0 to |edges|
      invariant forall n :: Lists(result, edges[..i], d, n)
    {
      var e := edges[i];
      ghost var was := result;
      result := result[From(e, d) := Inserted(Successors(result, From(e, d)), (e.id, Onto(e, d)))];
      ghost var next := edges[..i + 1];
      assert next == edges[..i] + [e];
      forall n ensures Lists(result, next, d, n) {
        ListsExtend(was, edges[..i], d, e, result, n);
      }
    }
    assert edges[..|edges|] == edges;
  }

  /** The lists contain exactly the edges of the graph. */
  lemma ListedIsEdge(adjacency: Adjacency, edges: seq<Edge>, d: Direction, n: NodeId, p: (EdgeId, NodeId))
    requires Lists(adjacency, edges, d, n)
    ensures p in Successors(adjacency, n) <==> exists e :: e in edges && From(e, d) == n && p == (e.id, Onto(e, d))
  {
    LeavingIsEdges(edges, d, n, p);
    assert p in Successors(adjacency, n) <==> p in multiset(Successors(adjacency, n));
    assert p in Leaving(edges, d, n) <==> p in multiset(Leaving(edges, d, n));
  }

  // ---- the search

  datatype Request = Request(edges: seq<Edge>, direction: Direction, roots: set<NodeId>, maxDepth: nat)

  type Queue = seq<(NodeId, nat)>

  ghost predicate Queued(queue: Queue, x: NodeId) {
    exists i :: 0 <= i < |queue| && queue[i].0 == x
  }

  /** The queue holds found nodes at their distance, nearest first, within one level. */
  ghost predicate Levels(dist: map<NodeId, nat>, queue: Queue) {
    && (forall i :: 0 <= i < |queue| ==> queue[i].0 in dist && dist[queue[i].0] == queue[i].1)
    && (forall i, j :: 0 <= i < j < |queue| ==> queue[i].1 <= queue[j].1 <= queue[i].1 + 1)
    && (forall i, j :: 0 <= i < j < |queue| ==> queue[i].0 != queue[j].0)
  }

  /** Every found node is found at its true distance from the roots. */
  ghost predicate Exact(q: Request, dist: map<NodeId, nat>) {
    && (forall x :: x in q.roots ==> x in dist)
    && (forall x :: x in dist ==> Walk(q.edges, q.direction, q.roots, x, dist[x]))
    && (forall x, k: nat :: x in dist && Walk(q.edges, q.direction, q.roots, x, k) ==> dist[x] <= k)
  }

  /** All successors of `x` have been found, at most one step further. */
  ghost predicate Expanded(q: Request, dist: map<NodeId, nat>, x: NodeId)
    requires x in dist
  {
    forall e :: e in q.edges && From(e, q.direction) == x ==>
      Onto(e, q.direction) in dist && dist[Onto(e, q.direction)] <= dist[x] + 1
  }

  /** Every found node off the queue and within the depth limit is expanded. */
  ghost predicate Closed(q: Request, dist: map<NodeId, nat>, queue: Queue) {
    forall x :: x in dist && !Queued(queue, x) && dist[x] < q.maxDepth ==> Expanded(q, dist, x)
  }

  /** As far as the queue has come, the search has missed nothing. */
  lemma {:induction false} NothingMissed(q: Request, dist: map<NodeId, nat>, queue: Queue, x: NodeId, k: nat)
    requires Exact(q, dist) && Levels(dist, queue) && Closed(q, dist, queue)
    requires Walk(q.edges, q.direction, q.roots, x, k) && k <= q.maxDepth && (queue == [] || k <= queue[0].1)
    ensures x in dist
    decreases k
  {
    if k > 0 {
      var e :| e in q.edges && Onto(e, q.direction) == x
          && Walk(q.edges, q.direction, q.roots, From(e, q.direction), k - 1);
      var z := From(e, q.direction);
      NothingMissed(q, dist, queue, z, k - 1);
      assert dist[z] <= k - 1;
      assert !Queued(queue, z);
      assert Expanded(q, dist, z);
    }
  }

  /** A successor that has not been found yet is one step further than the node in hand. */
  lemma NewIsExact(q: Request, dist: map<NodeId, nat>, queue: Queue, e: Edge)
    requires Exact(q, dist) && Levels(dist, queue) && Closed(q, dist, queue)
    requires queue != [] && queue[0].1 < q.maxDepth
    requires e in q.edges && From(e, q.direction) == queue[0].0 && Onto(e, q.direction) !in dist
    ensures Exact(q, dist[Onto(e, q.direction) := queue[0].1 + 1])
  {
    var x, depth := Onto(e, q.direction), queue[0].1;
    assert Walk(q.edges, q.direction, q.roots, x, depth + 1);
    forall k: nat | Walk(q.edges, q.direction, q.roots, x, k) ensures depth + 1 <= k {
      if k <= depth { NothingMissed(q, dist, queue, x, k); }
    }
  }

  lemma NewIsInOrder(dist: map<NodeId, nat>, queue: Queue, x: NodeId)
    requires Levels(dist, queue) && queue != [] && x !in dist
    ensures Levels(dist[x := queue[0].1 + 1], queue + [(x, queue[0].1 + 1)])
  {
  }

  lemma StaysExpanded(q: Request, dist: map<NodeId, nat>, x: NodeId, k: nat, y: NodeId)
    requires x !in dist && y in dist && Expanded(q, dist, y)
    ensures Expanded(q, dist[x := k], y)
  {
  }

  /** Appending a newly found node keeps the queue in order and the closure. */
  lemma NewIsQueued(q: Request, dist: map<NodeId, nat>, queue: Queue, x: NodeId)
    requires Levels(dist, queue) && Closed(q, dist, queue) && queue != [] && x !in dist
    ensures var dist', queue' := dist[x := queue[0].1 + 1], queue + [(x, queue[0].1 + 1)];
            Levels(dist', queue') && Closed(q, dist', queue')
  {
    NewIsInOrder(dist, queue, x);
    hide Levels, Expanded;
    var dist', queue' := dist[x := queue[0].1 + 1], queue + [(x, queue[0].1 + 1)];
    assert queue'[|queue|].0 == x;
    assert forall i :: 0 <= i < |queue| ==> queue'[i] == queue[i];
    forall y | y in dist' && !Queued(queue', y) && dist'[y] < q.maxDepth ensures Expanded(q, dist', y) {
      assert y in dist && !Queued(queue, y);
      StaysExpanded(q, dist, x, queue[0].1 + 1, y);
    }
  }

  /** Dropping the expanded, or too deep, head keeps everything. */
  lemma HeadIsDone(q: Request, dist: map<NodeId, nat>, queue: Queue)
    requires Levels(dist, queue) && Closed(q, dist, queue) && queue != []
    requires queue[0].1 < q.maxDepth ==> Expanded(q, dist, queue[0].0)
    ensures Levels(dist, queue[1..]) && Closed(q, dist, queue[1..])
  {
    assert forall i :: 1 <= i < |queue| ==> queue[1..][i - 1] == queue[i];
    forall y | y in dist && !Queued(queue[1..], y) && dist[y] < q.maxDepth ensures Expanded(q, dist, y) {
      assert y == queue[0].0 || !Queued(queue, y);
    }
  }

  /** An exhausted search that no limit cut short has found every reachable node. */
  lemma {:induction false} AllFound(q: Request, dist: map<NodeId, nat>, x: NodeId, k: nat)
    requires Exact(q, dist) && Closed(q, dist, [])
    requires forall y :: y in dist ==> dist[y] < q.maxDepth
    requires Walk(q.edges, q.direction, q.roots, x, k)
    ensures x in dist
    decreases k
  {
    if k > 0 {
      var e :| e in q.edges && Onto(e, q.direction) == x
          && Walk(q.edges, q.direction, q.roots, From(e, q.direction), k - 1);
      AllFound(q, dist, From(e, q.direction), k - 1);
      assert Expanded(q, dist, From(e, q.direction));
    }
  }

  // ---- why a search was cut short

  /** There are at least `n` reachable nodes. */
  ghost predicate AtLeast(q: Request, n: nat) {
    exists found: set<NodeId> :: |found| >= n && forall x :: x in found ==> Reachable(q.edges, q.direction, q.roots, x)
  }

  /** Some reachable node is at least `maxDepth` steps away. */
  ghost predicate Deep(q: Request) {
    exists x :: Reachable(q.edges, q.direction, q.roots, x)
                && forall k: nat :: Walk(q.edges, q.direction, q.roots, x, k) ==> q.maxDepth <= k
  }

  lemma FoundAreReachable(q: Request, dist: map<NodeId, nat>, n: nat)
    requires Exact(q, dist) && |dist.Keys| >= n
    ensures AtLeast(q, n)
  {
    assert forall x :: x in dist.Keys ==> Walk(q.edges, q.direction, q.roots, x, dist[x]);
  }

  lemma DeepNode(q: Request, dist: map<NodeId, nat>, x: NodeId)
    requires Exact(q, dist) && x in dist && dist[x] >= q.maxDepth
    ensures Deep(q)
  {
    assert Walk(q.edges, q.direction, q.roots, x, dist[x]);
    assert Reachable(q.edges, q.direction, q.roots, x);
  }

  // ---- path reconstruction

  type Parents = map<NodeId, (NodeId, EdgeId)>

  /** Every found node but the source has a parent one step nearer, along a real edge. */
  ghost predicate Tree(q: Request, dist: map<NodeId, nat>, source: NodeId, previous: Parents) {
    && (source in dist && dist[source] == 0)
    && forall x :: x in dist && x != source ==>
         && x in previous
         && Edge(previous[x].1, previous[x].0, x) in q.edges
         && previous[x].0 in dist && dist[x] == dist[previous[x].0] + 1
  }

  function Reversed<A>(s: seq<A>): (r: seq<A>)
    ensures |r| == |s| && forall i :: 0 <= i < |s| ==> r[i] == s[|s| - 1 - i]
  {
    if s == [] then [] else Reversed(s[1..]) + [s[0]]
  }

  /** `nodes` and the `ids` between them follow edges of the graph backwards. */
  ghost predicate IsPathBack(edges: seq<Edge>, nodes: seq<NodeId>, ids: seq<EdgeId>) {
    && |nodes| == |ids| + 1
    && forall i :: 0 <= i < |ids| ==> Edge(ids[i], nodes[i + 1], nodes[i]) in edges
  }

  lemma OneStepBack(edges: seq<Edge>, nodes: seq<NodeId>, ids: seq<EdgeId>, n: NodeId, id: EdgeId)
    requires IsPathBack(edges, nodes, ids) && Edge(id, n, nodes[|ids|]) in edges
    ensures IsPathBack(edges, nodes + [n], ids + [id])
  {
  }

  lemma NoStepBack(edges: seq<Edge>, n: NodeId)
    ensures IsPathBack(edges, [n], [])
  {
  }

  lemma BackIsForth(edges: seq<Edge>, nodes: seq<NodeId>, ids: seq<EdgeId>)
    requires IsPathBack(edges, nodes, ids)
    ensures IsPath(edges, Reversed(nodes), Reversed(ids)) && |nodes| == |ids| + 1
    ensures Reversed(nodes)[0] == nodes[|ids|] && Reversed(nodes)[|ids|] == nodes[0]
  {
    var forwards, back := Reversed(nodes), Reversed(ids);
    forall i | 0 <= i < |back| ensures Edge(back[i], forwards[i], forwards[i + 1]) in edges {
      var k := |ids| - 1 - i;
      assert Edge(ids[k], nodes[k + 1], nodes[k]) in edges;
    }
  }

  /** `reconstruct`: follows the parents back from the target. */
  method Reconstruct(source: NodeId, target: NodeId, previous: Parents, truncated: bool, ghost q: Request,
                     ghost dist: map<NodeId, nat>)
    returns (r: TraversalResult)
    requires Tree(q, dist, source, previous) && target in dist
    ensures r.truncated == truncated && IsPath(q.edges, r.nodes, r.edges) && |r.edges| == dist[target]
    ensures r.nodes[0] == source && r.nodes[|r.edges|] == target
  {
    hide IsPath, IsPathBack, Reversed;
    var at := target;
    var nodes, edges := [target], [];
    NoStepBack(q.edges, target);
    while at != source
      invariant at in dist && |edges| == dist[target] - dist[at]
      invariant |nodes| == |edges| + 1 && IsPathBack(q.edges, nodes, edges) && nodes[0] == target
      invariant nodes[|edges|] == at
      decreases dist[at]
    {
      var (parent, edge) := previous[at];
      OneStepBack(q.edges, nodes, edges, parent, edge);
      edges, nodes, at := edges + [edge], nodes + [parent], parent;
    }
    BackIsForth(q.edges, nodes, edges);
    r := TraversalResult(Reversed(edges), Reversed(nodes), truncated);
  }

  // ---- shortest path

  function Max(a: nat, b: nat): (m: nat)
    ensures a <= m && b <= m && (m == a || m == b)
  {
    if a >= b then a else b
  }

  /** Every node a search can find. */
  function Universe(q: Request): set<NodeId> {
    q.roots + set e | e in q.edges :: Onto(e, q.direction)
  }

  /** What holds between two calls of `pop_front`; `full` says that the node limit has
      ended an expansion. */
  ghost predicate Searching(q: Request, limit: nat, dist: map<NodeId, nat>, queue: Queue, truncated: bool, full: bool) {
    && Exact(q, dist) && Levels(dist, queue) && dist.Keys <= Universe(q)
    && (full || Closed(q, dist, queue))
    && (full ==> |dist.Keys| >= limit && truncated)
    && (!truncated ==> forall x :: x in dist && !Queued(queue, x) ==> dist[x] < q.maxDepth)
    && (truncated && !full ==> Deep(q) && forall i :: 0 <= i < |queue| ==> queue[i].1 >= q.maxDepth)
    && Shallow(q, dist, queue) && (full ==> NoneNearer(q, dist))
  }

  /** Nothing found lies beyond the depth limit, or more than a step beyond the head of the queue. */
  ghost predicate Shallow(q: Request, dist: map<NodeId, nat>, queue: Queue) {
    forall x :: x in dist ==> dist[x] <= q.maxDepth && (queue != [] ==> dist[x] <= queue[0].1 + 1)
  }

  /** What has not been found is no nearer than anything found. */
  ghost predicate NoneNearer(q: Request, dist: map<NodeId, nat>) {
    forall x, k: nat :: x !in dist && Walk(q.edges, q.direction, q.roots, x, k) ==>
        forall y :: y in dist ==> dist[y] <= k
  }

  lemma MissedIsFar(q: Request, dist: map<NodeId, nat>, queue: Queue)
    requires Exact(q, dist) && Levels(dist, queue) && Closed(q, dist, queue) && Shallow(q, dist, queue)
    ensures NoneNearer(q, dist)
  {
    forall x, k: nat | x !in dist && Walk(q.edges, q.direction, q.roots, x, k)
      ensures forall y :: y in dist ==> dist[y] <= k {
      if k <= q.maxDepth && (queue == [] || k <= queue[0].1) { NothingMissed(q, dist, queue, x, k); }
    }
  }

  lemma PoppedShallow(q: Request, dist: map<NodeId, nat>, queue: Queue)
    requires Shallow(q, dist, queue) && Levels(dist, queue) && queue != []
    ensures Shallow(q, dist, queue[1..])
  {
  }

  lemma TooDeep(q: Request, limit: nat, dist: map<NodeId, nat>, queue: Queue, truncated: bool, full: bool)
    requires Searching(q, limit, dist, queue, truncated, full) && queue != [] && queue[0].1 >= q.maxDepth
    ensures Searching(q, limit, dist, queue[1..], true, full)
  {
    DeepNode(q, dist, queue[0].0);
    if !full { HeadIsDone(q, dist, queue); }
    PoppedShallow(q, dist, queue);
    hide NoneNearer;
  }

  lemma Found(q: Request, limit: nat, dist: map<NodeId, nat>, queue: Queue, truncated: bool, full: bool, e: Edge)
    requires Searching(q, limit, dist, queue, truncated, full) && !full && queue != [] && queue[0].1 < q.maxDepth
    requires e in q.edges && From(e, q.direction) == queue[0].0 && Onto(e, q.direction) !in dist
    ensures var x := Onto(e, q.direction);
            Searching(q, limit, dist[x := queue[0].1 + 1], queue + [(x, queue[0].1 + 1)], truncated, full)
  {
    hide NoneNearer, Closed, Walk;
    var x := Onto(e, q.direction);
    NewIsExact(q, dist, queue, e);
    NewIsQueued(q, dist, queue, x);
    var queue' := queue + [(x, queue[0].1 + 1)];
    assert queue'[|queue|].0 == x;
    assert forall i :: 0 <= i < |queue| ==> queue'[i] == queue[i];
  }

  lemma LimitReached(q: Request, limit: nat, dist: map<NodeId, nat>, queue: Queue, truncated: bool, full: bool)
    requires Searching(q, limit, dist, queue, truncated, full) && queue != [] && |dist.Keys| >= limit
    ensures Searching(q, limit, dist, queue[1..], true, true)
  {
    if !full { MissedIsFar(q, dist, queue); }
    PoppedShallow(q, dist, queue);
    hide NoneNearer, Exact, Shallow;
  }

  lemma HeadExpanded(q: Request, limit: nat, dist: map<NodeId, nat>, queue: Queue, truncated: bool, full: bool)
    requires Searching(q, limit, dist, queue, truncated, full) && queue != [] && queue[0].1 < q.maxDepth
    requires full || Expanded(q, dist, queue[0].0)
    ensures Searching(q, limit, dist, queue[1..], truncated, full)
  {
    if !full { HeadIsDone(q, dist, queue); }
    PoppedShallow(q, dist, queue);
    hide NoneNearer, Exact, Shallow;
    assert forall i :: 1 <= i < |queue| ==> queue[1..][i - 1] == queue[i];
    forall x | !truncated && x in dist && !Queued(queue[1..], x) ensures dist[x] < q.maxDepth {
      assert x == queue[0].0 || !Queued(queue, x);
    }
  }

  /** What an exhausted queue means. */
  lemma SearchOver(q: Request, limit: nat, dist: map<NodeId, nat>, truncated: bool, full: bool)
    requires Searching(q, limit, dist, [], truncated, full)
    ensures forall x :: x in dist ==> Reachable(q.edges, q.direction, q.roots, x)
    ensures !truncated ==> forall x :: Reachable(q.edges, q.direction, q.roots, x) ==> x in dist
    ensures truncated ==> AtLeast(q, limit) || Deep(q)
    ensures AtLeast(q, limit)
              || forall x, k: nat :: k <= q.maxDepth && Walk(q.edges, q.direction, q.roots, x, k) ==> x in dist
  {
    if full { FoundAreReachable(q, dist, limit); }
    forall x | x in dist ensures Reachable(q.edges, q.direction, q.roots, x) {
      assert Walk(q.edges, q.direction, q.roots, x, dist[x]);
    }
    forall x, k: nat | !full && k <= q.maxDepth && Walk(q.edges, q.direction, q.roots, x, k) ensures x in dist {
      NothingMissed(q, dist, [], x, k);
    }
    forall x | !truncated && Reachable(q.edges, q.direction, q.roots, x) ensures x in dist {
      var k: nat :| Walk(q.edges, q.direction, q.roots, x, k);
      assert forall y :: y in dist ==> !Queued([], y);
      AllFound(q, dist, x, k);
    }
  }

  /** A node all of whose listed successors have been looked at is expanded. */
  lemma ListDone(q: Request, adjacency: Adjacency, dist: map<NodeId, nat>, x: NodeId)
    requires x in dist && Lists(adjacency, q.edges, q.direction, x)
    requires forall p :: p in Successors(adjacency, x) ==> p.1 in dist && dist[p.1] <= dist[x] + 1
    ensures Expanded(q, dist, x)
  {
    forall e | e in q.edges && From(e, q.direction) == x
      ensures Onto(e, q.direction) in dist && dist[Onto(e, q.direction)] <= dist[x] + 1
    {
      ListedIsEdge(adjacency, q.edges, q.direction, x, (e.id, Onto(e, q.direction)));
    }
  }

  /** The node in hand is found, and while it is within the depth limit only the node
      limit can have cut the search short. */
  lemma InHand(q: Request, limit: nat, dist: map<NodeId, nat>, node: NodeId, depth: nat, queue: Queue, truncated: bool,
               full: bool)
    requires Searching(q, limit, dist, [(node, depth)] + queue, truncated, full) && depth < q.maxDepth
    ensures node in dist && dist[node] == depth && (truncated ==> full)
    ensures Exact(q, dist) && dist.Keys <= Universe(q)
  {
    assert ([(node, depth)] + queue)[0] == (node, depth);
  }

  /** A listed successor that is new: the search goes on with it found and queued. */
  lemma FoundNext(q: Request, limit: nat, dist: map<NodeId, nat>, node: NodeId, depth: nat, queue: Queue,
                  truncated: bool, full: bool,
                  adjacency: Adjacency, edge: EdgeId, next: NodeId)
    requires Searching(q, limit, dist, [(node, depth)] + queue, truncated, full) && !full && depth < q.maxDepth
    requires Lists(adjacency, q.edges, q.direction, node) && (edge, next) in Successors(adjacency, node)
    requires next !in dist
    ensures Searching(q, limit, dist[next := depth + 1], [(node, depth)] + (queue + [(next, depth + 1)]), truncated,
              full)
    ensures exists e :: e in q.edges && e.id == edge && From(e, q.direction) == node && Onto(e, q.direction) == next
  {
    hide Searching, Lists, Successors, From, Onto;
    ListedIsEdge(adjacency, q.edges, q.direction, node, (edge, next));
    var e :| e in q.edges && From(e, q.direction) == node && (edge, next) == (e.id, Onto(e, q.direction));
    assert ([(node, depth)] + queue)[0] == (node, depth);
    Found(q, limit, dist, [(node, depth)] + queue, truncated, full, e);
    assert [(node, depth)] + queue + [(next, depth + 1)] == [(node, depth)] + (queue + [(next, depth + 1)]);
  }

  /** A listed successor that was found before is at most one step further. */
  lemma KnownNext(q: Request, limit: nat, dist: map<NodeId, nat>, node: NodeId, depth: nat, queue: Queue,
                  truncated: bool, full: bool,
                  adjacency: Adjacency, edge: EdgeId, next: NodeId)
    requires Searching(q, limit, dist, [(node, depth)] + queue, truncated, full)
    requires Lists(adjacency, q.edges, q.direction, node) && (edge, next) in Successors(adjacency, node) && next in dist
    ensures dist[next] <= depth + 1
  {
    ListedIsEdge(adjacency, q.edges, q.direction, node, (edge, next));
    assert ([(node, depth)] + queue)[0] == (node, depth);
    assert Walk(q.edges, q.direction, q.roots, next, depth + 1);
  }

  lemma TreeGrows(q: Request, dist: map<NodeId, nat>, source: NodeId, previous: Parents, node: NodeId, edge: EdgeId,
                  next: NodeId)
    requires Tree(q, dist, source, previous) && node in dist && next !in dist && q.direction == Outgoing
    requires exists e :: e in q.edges && e.id == edge && From(e, q.direction) == node && Onto(e, q.direction) == next
    ensures Tree(q, dist[next := dist[node] + 1], source, previous[next := (node, edge)])
  {
  }

  /** The loop over the successors of `node`, up to the target or the node limit. */
  method Advance(node: NodeId, depth: nat, list: seq<(EdgeId, NodeId)>, target: NodeId, limit: nat,
                 queue0: Queue, visited0: set<NodeId>, previous0: Parents, truncated0: bool,
                 ghost q: Request, ghost source: NodeId, ghost adjacency: Adjacency, ghost dist0: map<NodeId, nat>,
                     ghost full0: bool)
    returns (found: bool, queue: Queue, visited: set<NodeId>, previous: Parents, truncated: bool,
        ghost dist: map<NodeId, nat>, ghost full: bool)
    requires Searching(q, limit, dist0, [(node, depth)] + queue0, truncated0, full0) && depth < q.maxDepth
    requires q.direction == Outgoing && Tree(q, dist0, source, previous0) && visited0 == dist0.Keys
    requires target !in visited0
    requires Lists(adjacency, q.edges, Outgoing, node) && list == Successors(adjacency, node)
    ensures Exact(q, dist) && Tree(q, dist, source, previous) && visited == dist.Keys
    ensures visited0 <= visited <= Universe(q)
    ensures found <==> target in visited
    ensures found ==> !truncated && |visited| <= limit && dist[target] <= q.maxDepth && AllNearer(q, dist, dist[target])
    ensures !found ==> Searching(q, limit, dist, queue, truncated, full)
    ensures visited == visited0 ==> queue == queue0
  {
    hide *;
    found, queue, visited, previous, truncated := false, queue0, visited0, previous0, truncated0;
    dist, full := dist0, full0;
    InHand(q, limit, dist, node, depth, queue, truncated, full);
    var i := 0;
    while i < |list|
      invariant 0 <= i <= |list| && visited0 <= visited == dist.Keys && target !in visited
      invariant visited == visited0 ==> queue == queue0
      invariant Searching(q, limit, dist, [(node, depth)] + queue, truncated, full) && Tree(q, dist, source, previous)
      invariant truncated ==> full
      invariant node in dist && dist[node] == depth
      invariant forall k :: 0 <= k < i ==> list[k].1 in dist && dist[list[k].1] <= depth + 1
    {
      InHand(q, limit, dist, node, depth, queue, truncated, full);
      var (edge, next) := list[i];
      if |visited| >= limit {
        LimitReached(q, limit, dist, [(node, depth)] + queue, truncated, full);
        assert ([(node, depth)] + queue)[1..] == queue;
        truncated, full := true, true;
        return;
      }
      if next !in visited {
        WithinLimit(q, limit, dist, [(node, depth)] + queue, truncated, full);
        FoundNext(q, limit, dist, node, depth, queue, truncated, full, adjacency, edge, next);
        TreeGrows(q, dist, source, previous, node, edge, next);
        visited, previous, dist := visited + {next}, previous[next := (node, edge)], dist[next := depth + 1];
        queue := queue + [(next, depth + 1)];
        InHand(q, limit, dist, node, depth, queue, truncated, full);
        if next == target {
          NearerFound(q, limit, dist, [(node, depth)] + queue, truncated, full);
          found := true;
          return;
        }
      } else {
        KnownNext(q, limit, dist, node, depth, queue, truncated, full, adjacency, edge, next);
      }
      i := i + 1;
    }
    InHand(q, limit, dist, node, depth, queue, truncated, full);
    ListDone(q, adjacency, dist, node);
    HeadExpanded(q, limit, dist, [(node, depth)] + queue, truncated, full);
    assert ([(node, depth)] + queue)[1..] == queue;
  }

  lemma WithinLimit(q: Request, limit: nat, dist: map<NodeId, nat>, queue: Queue, truncated: bool, full: bool)
    requires Searching(q, limit, dist, queue, truncated, full) && |dist.Keys| < limit
    ensures !full
  {
  }

  lemma IsNearest(q: Request, dist: map<NodeId, nat>, x: NodeId)
    requires Exact(q, dist) && x in dist
    ensures forall k: nat :: Walk(q.edges, q.direction, q.roots, x, k) ==> dist[x] <= k
  {
  }

  lemma SearchStarts(q: Request, limit: nat, dist: map<NodeId, nat>, queue: Queue)
    requires dist.Keys == q.roots && (forall x :: x in dist ==> dist[x] == 0 && Queued(queue, x))
    requires forall i :: 0 <= i < |queue| ==> queue[i].1 == 0 && queue[i].0 in dist
    requires forall i, j :: 0 <= i < j < |queue| ==> queue[i].0 != queue[j].0
    ensures Searching(q, limit, dist, queue, false, false)
  {
  }

  /** `x` is reached in no more steps than `target`. */
  ghost predicate NoFarther(q: Request, x: NodeId, target: NodeId) {
    && Reachable(q.edges, q.direction, q.roots, x)
    && forall k: nat :: Walk(q.edges, q.direction, q.roots, target, k) ==>
         exists j: nat :: j <= k && Walk(q.edges, q.direction, q.roots, x, j)
  }

  /** There are `n` other nodes no farther than `target`. */
  ghost predicate Crowded(q: Request, n: nat, target: NodeId) {
    exists found: set<NodeId> :: |found| >= n && target !in found && forall x :: x in found ==> NoFarther(q, x, target)
  }

  /** `x` is reached in fewer than `n` steps. */
  ghost predicate Within(q: Request, x: NodeId, n: nat) {
    exists k: nat :: k < n && Walk(q.edges, q.direction, q.roots, x, k)
  }

  /** Fewer than `limit` nodes are nearer than `n` steps. */
  ghost predicate FewNearer(q: Request, n: nat, limit: nat) {
    forall found: set<NodeId> :: (forall x :: x in found ==> Within(q, x, n)) ==> |found| < limit
  }

  /** What `shortest_path` promises. */
  ghost predicate IsShortestPath(edges: seq<Edge>, source: NodeId, target: NodeId, maxDepth: nat, maxVisited: nat,
                                 r: TraversalResult) {
    var q, limit := Request(edges, Outgoing, {source}, maxDepth), Max(maxVisited, 1);
    // A nonempty answer is a real path, no walk is shorter, and it is never marked truncated.
    && (r.nodes != [] ==>
          && IsPath(edges, r.nodes, r.edges) && r.nodes[0] == source && r.nodes[|r.edges|] == target && !r.truncated
          && (forall k: nat :: Walk(edges, Outgoing, {source}, target, k) ==> |r.edges| <= k)
          // It keeps both limits.
          && |r.edges| <= maxDepth && FewNearer(q, |r.edges|, limit))
    // An empty answer that is not truncated means that there is no path.
    && (r.nodes == [] && !r.truncated ==> !Reachable(edges, Outgoing, {source}, target))
    // A path within the depth limit is only missed when enough other nodes are no farther.
    && (r.nodes == [] ==>
          r.edges == [] && (Crowded(q, limit, target) || !Within(q, target, maxDepth + 1)))
    // Truncation has one of two reasons.
    && (r.truncated ==> AtLeast(q, limit) || Deep(q))
    && (r.nodes == [] && !AtLeast(q, limit) && Deep(q) ==> r.truncated)
  }

  /** Everything nearer than `n` steps has been found. */
  ghost predicate AllNearer(q: Request, dist: map<NodeId, nat>, n: nat) {
    forall x, k: nat :: k < n && Walk(q.edges, q.direction, q.roots, x, k) ==> x in dist
  }

  lemma NearerFound(q: Request, limit: nat, dist: map<NodeId, nat>, queue: Queue, truncated: bool, full: bool)
    requires Searching(q, limit, dist, queue, truncated, full) && !full && queue != [] && queue[0].1 < q.maxDepth
    ensures AllNearer(q, dist, queue[0].1 + 1)
  {
    forall x, k: nat | k < queue[0].1 + 1 && Walk(q.edges, q.direction, q.roots, x, k) ensures x in dist {
      NothingMissed(q, dist, queue, x, k);
    }
  }

  /** With everything nearer found within the limit, few nodes are nearer. */
  lemma FewAreNearer(q: Request, dist: map<NodeId, nat>, target: NodeId, limit: nat)
    requires Exact(q, dist) && target in dist && |dist.Keys| <= limit && AllNearer(q, dist, dist[target])
    ensures FewNearer(q, dist[target], limit)
  {
    forall found: set<NodeId> | forall x :: x in found ==> Within(q, x, dist[target]) ensures |found| < limit {
      assert found <= dist.Keys - {target} by {
        forall x | x in found ensures x in dist && x != target {
          assert Within(q, x, dist[target]);
        }
      }
      FewerElements(found, dist.Keys - {target});
    }
  }

  lemma FewerElements(s: set<NodeId>, t: set<NodeId>)
    requires s <= t
    ensures |s| <= |t|
  {
    assert t == s + (t - s);
  }

  lemma NoPathFound(edges: seq<Edge>, source: NodeId, target: NodeId, maxDepth: nat, maxVisited: nat,
                    dist: map<NodeId, nat>, truncated: bool, full: bool)
    requires Searching(Request(edges, Outgoing, {source}, maxDepth), Max(maxVisited, 1), dist, [], truncated, full)
    requires target !in dist
    ensures IsShortestPath(edges, source, target, maxDepth, maxVisited, TraversalResult([], [], truncated))
  {
    var q, limit := Request(edges, Outgoing, {source}, maxDepth), Max(maxVisited, 1);
    SearchOver(q, limit, dist, truncated, full);
    if full {
      FoundAreNoFarther(q, dist, target);
      assert Crowded(q, limit, target);
    } else if Within(q, target, maxDepth + 1) {
      var k: nat :| k < maxDepth + 1 && Walk(q.edges, q.direction, q.roots, target, k);
      NothingMissed(q, dist, [], target, k);
    }
    if !truncated && Deep(q) { NotDeep(q, limit, dist, truncated, full); }
  }

  lemma FoundAreNoFarther(q: Request, dist: map<NodeId, nat>, target: NodeId)
    requires Exact(q, dist) && NoneNearer(q, dist) && target !in dist
    ensures forall x :: x in dist.Keys ==> NoFarther(q, x, target)
  {
    forall x | x in dist.Keys ensures NoFarther(q, x, target) {
      assert Walk(q.edges, q.direction, q.roots, x, dist[x]);
    }
  }

  /** A search that nothing cut short has seen no node at the depth limit. */
  lemma NotDeep(q: Request, limit: nat, dist: map<NodeId, nat>, truncated: bool, full: bool)
    requires Searching(q, limit, dist, [], truncated, full) && !truncated
    ensures !Deep(q)
  {
    SearchOver(q, limit, dist, truncated, full);
    forall x | Reachable(q.edges, q.direction, q.roots, x)
      ensures exists k: nat :: Walk(q.edges, q.direction, q.roots, x, k) && k < q.maxDepth {
      assert x in dist && !Queued([], x);
      assert Walk(q.edges, q.direction, q.roots, x, dist[x]);
    }
  }

  lemma PathFound(edges: seq<Edge>, source: NodeId, target: NodeId, maxDepth: nat, maxVisited: nat,
                  dist: map<NodeId, nat>, r: TraversalResult)
    requires Exact(Request(edges, Outgoing, {source}, maxDepth), dist) && target in dist && |r.edges| == dist[target]
    requires IsPath(edges, r.nodes, r.edges) && r.nodes[0] == source && r.nodes[|r.edges|] == target && !r.truncated
    requires dist[target] <= maxDepth && |dist.Keys| <= Max(maxVisited, 1)
    requires AllNearer(Request(edges, Outgoing, {source}, maxDepth), dist, dist[target])
    ensures IsShortestPath(edges, source, target, maxDepth, maxVisited, r)
  {
    IsNearest(Request(edges, Outgoing, {source}, maxDepth), dist, target);
    FewAreNearer(Request(edges, Outgoing, {source}, maxDepth), dist, target, Max(maxVisited, 1));
  }

  lemma NoneWithin(q: Request, x: NodeId)
    ensures !Within(q, x, 0)
  {
  }

  lemma NoneNearest(q: Request, found: set<NodeId>)
    requires forall x :: x in found ==> Within(q, x, 0)
    ensures found == {}
  {
    forall x ensures x !in found {
      NoneWithin(q, x);
    }
  }

  lemma SamePoint(edges: seq<Edge>, source: NodeId, maxDepth: nat, maxVisited: nat)
    ensures IsShortestPath(edges, source, source, maxDepth, maxVisited, TraversalResult([], [source], false))
  {
    var q := Request(edges, Outgoing, {source}, maxDepth);
    forall found: set<NodeId> | forall x :: x in found ==> Within(q, x, 0) ensures |found| < Max(maxVisited, 1) {
      NoneNearest(q, found);
    }
  }

  lemma SourceOnly(q: Request, limit: nat, source: NodeId)
    requires q.roots == {source}
    ensures Searching(q, limit, map[source := 0], [(source, 0)], false, false)
    ensures Tree(q, map[source := 0], source, map[])
  {
    var queue: Queue := [(source, 0)];
    assert queue[0].0 == source;
    SearchStarts(q, limit, map[source := 0], queue);
  }

  /** `shortest_path`. */
  method ShortestPath(edges: seq<Edge>, source: NodeId, target: NodeId, maxDepth: nat, maxVisited: nat)
    returns (r: TraversalResult)
    ensures IsShortestPath(edges, source, target, maxDepth, maxVisited, r)
  {
    hide *;
    if source == target {
      SamePoint(edges, source, maxDepth, maxVisited);
      return TraversalResult([], [source], false);
    }
    var adjacency := BuildAdjacency(edges, Outgoing);
    ghost var q := Request(edges, Outgoing, {source}, maxDepth);
    var queue: Queue := [(source, 0)];
    var visited := {source};
    var previous: Parents := map[];
    var limit := Max(maxVisited, 1);
    var truncated := false;
    ghost var dist: map<NodeId, nat> := map[source := 0];
    ghost var full := false;
    SourceOnly(q, limit, source);
    while queue != []
      invariant visited == dist.Keys && target !in visited
      invariant Searching(q, limit, dist, queue, truncated, full) && Tree(q, dist, source, previous)
      decreases Universe(q) - visited, |queue|
    {
      var (node, depth) := queue[0];
      if depth >= maxDepth {
        TooDeep(q, limit, dist, queue, truncated, full);
        truncated, queue := true, queue[1..];
        continue;
      }
      assert [(node, depth)] + queue[1..] == queue;
      var found;
      found, queue, visited, previous, truncated, dist, full :=
        Advance(node, depth, Successors(adjacency, node), target, limit, queue[1..], visited, previous, truncated, q,
            source, adjacency, dist, full);
      if found {
        r := Reconstruct(source, target, previous, truncated, q, dist);
        PathFound(edges, source, target, maxDepth, maxVisited, dist, r);
        return;
      }
    }
    NoPathFound(edges, source, target, maxDepth, maxVisited, dist, truncated, full);
    r := TraversalResult([], [], truncated);
  }

  /** No path of the graph is shorter than the one found. */
  lemma ShortestAmongPaths(edges: seq<Edge>, nodes: seq<NodeId>, ids: seq<EdgeId>, length: nat)
    requires IsPath(edges, nodes, ids)
    requires forall k: nat :: Walk(edges, Outgoing, {nodes[0]}, nodes[|ids|], k) ==> length <= k
    ensures length <= |ids|
  {
    PathIsWalk(edges, nodes, ids);
  }

  // ---- impact

  /** Edges and nodes come back as ascending lists; only their contents matter. */
  datatype Impact = Impact(edges: set<EdgeId>, nodes: set<NodeId>, truncated: bool)

  /** The edges with one of these ids. */
  function Chosen(edges: seq<Edge>, ids: set<EdgeId>): seq<Edge> {
    if edges == [] then []
    else
      Chosen(edges[..|edges| - 1], ids) + if edges[|edges| - 1].id in ids then [edges[|edges| - 1]] else []
  }

  lemma {:induction false} ChosenIs(edges: seq<Edge>, ids: set<EdgeId>, e: Edge)
    ensures e in Chosen(edges, ids) <==> e in edges && e.id in ids
    decreases |edges|
  {
    if edges != [] {
      assert edges == edges[..|edges| - 1] + [edges[|edges| - 1]];
      ChosenIs(edges[..|edges| - 1], ids, e);
    }
  }

  /** `x` is reached within the depth limit along the edges returned. */
  ghost predicate Linked(q: Request, ids: set<EdgeId>, x: NodeId) {
    exists k: nat :: k <= q.maxDepth && Walk(Chosen(q.edges, ids), q.direction, q.roots, x, k)
  }

  /** `y` is at least two steps farther than `n`. */
  ghost predicate Beyond(q: Request, y: NodeId, n: nat) {
    forall k: nat :: Walk(q.edges, q.direction, q.roots, y, k) ==> n + 2 <= k
  }

  /** What `impact` promises for `limit` nodes at most. */
  ghost predicate IsImpact(q: Request, limit: nat, r: Impact) {
    && q.roots <= r.nodes && |r.nodes| <= limit
    && Traceable(q, r) && (!r.truncated ==> Complete(q, r)) && (|r.nodes| == limit || WithinDepth(q, r))
    && Nearest(q, r)
    && (r.truncated ==> |r.nodes| == limit || Deep(q)) && (Deep(q) ==> r.truncated || |r.nodes| == limit)
  }

  /** The edges returned lead from the roots to every node returned, and leave only
      nodes within the depth limit. */
  ghost predicate Traceable(q: Request, r: Impact) {
    && (forall x :: x in r.nodes ==> Linked(q, r.edges, x))
    && (forall id :: id in r.edges ==> Crosses(q, r.nodes, id))
  }

  /** The whole closure and every edge leaving one of its nodes. */
  ghost predicate Complete(q: Request, r: Impact) {
    && (forall x :: Reachable(q.edges, q.direction, q.roots, x) ==> x in r.nodes)
    && (forall e :: e in q.edges && From(e, q.direction) in r.nodes ==> e.id in r.edges)
  }

  /** Every node within the depth limit, and every edge that leaves one before it. */
  ghost predicate WithinDepth(q: Request, r: Impact) {
    && (forall x :: Within(q, x, q.maxDepth + 1) ==> x in r.nodes)
    && (forall e :: e in q.edges && Within(q, From(e, q.direction), q.maxDepth) ==> e.id in r.edges)
  }

  /** The nodes are the nearest ones, and edges are missed only at the two farthest levels. */
  ghost predicate Nearest(q: Request, r: Impact) {
    && (forall x, y :: x !in r.nodes && y in r.nodes ==> NoFarther(q, y, x))
    && (forall e, k: nat, y ::
          e in q.edges && Walk(q.edges, q.direction, q.roots, From(e, q.direction), k) && y in r.nodes
          && Beyond(q, y, k) ==>
            e.id in r.edges)
  }

  /** `id` is an edge between two of the nodes, and the first is within the depth limit. */
  ghost predicate Crosses(q: Request, nodes: set<NodeId>, id: EdgeId) {
    exists e :: e in q.edges && e.id == id && From(e, q.direction) in nodes && Onto(e, q.direction) in nodes
                && Within(q, From(e, q.direction), q.maxDepth)
  }

  /** The edges collected lead to every node found, by as many steps as its distance. */
  ghost predicate Traced(q: Request, dist: map<NodeId, nat>, ids: set<EdgeId>) {
    forall x :: x in dist ==> Walk(Chosen(q.edges, ids), q.direction, q.roots, x, dist[x])
  }

  lemma {:induction false} WalkOnMore(edges: seq<Edge>, more: seq<Edge>, d: Direction, roots: set<NodeId>, x: NodeId,
                                      k: nat)
    requires Walk(edges, d, roots, x, k) && forall e :: e in edges ==> e in more
    ensures Walk(more, d, roots, x, k)
    decreases k
  {
    if k > 0 {
      var e :| e in edges && Onto(e, d) == x && Walk(edges, d, roots, From(e, d), k - 1);
      WalkOnMore(edges, more, d, roots, From(e, d), k - 1);
    }
  }

  lemma TracedMore(q: Request, dist: map<NodeId, nat>, ids: set<EdgeId>, edge: EdgeId)
    requires Traced(q, dist, ids)
    ensures Traced(q, dist, ids + {edge})
  {
    forall e ensures e in Chosen(q.edges, ids) ==> e in Chosen(q.edges, ids + {edge}) {
      ChosenIs(q.edges, ids, e);
      ChosenIs(q.edges, ids + {edge}, e);
    }
    forall x | x in dist ensures Walk(Chosen(q.edges, ids + {edge}), q.direction, q.roots, x, dist[x]) {
      WalkOnMore(Chosen(q.edges, ids), Chosen(q.edges, ids + {edge}), q.direction, q.roots, x, dist[x]);
    }
  }

  lemma TracedNext(q: Request, dist: map<NodeId, nat>, ids: set<EdgeId>, node: NodeId, edge: EdgeId, next: NodeId)
    requires Traced(q, dist, ids) && node in dist && next !in dist
    requires exists e :: e in q.edges && e.id == edge && From(e, q.direction) == node && Onto(e, q.direction) == next
    ensures Traced(q, dist[next := dist[node] + 1], ids + {edge})
  {
    var e :| e in q.edges && e.id == edge && From(e, q.direction) == node && Onto(e, q.direction) == next;
    TracedMore(q, dist, ids, edge);
    ChosenIs(q.edges, ids + {edge}, e);
    assert Walk(Chosen(q.edges, ids + {edge}), q.direction, q.roots, next, dist[node] + 1);
  }

  /** The edges of every node at least two steps nearer than some node found are collected. */
  ghost predicate Inner(q: Request, dist: map<NodeId, nat>, ids: set<EdgeId>) {
    forall e, y ::
      e in q.edges && From(e, q.direction) in dist && y in dist && dist[From(e, q.direction)] + 2 <= dist[y] ==>
        e.id in ids
  }

  /** Found, off the queue, and within the depth limit. */
  ghost predicate Through(q: Request, dist: map<NodeId, nat>, queue: Queue, x: NodeId) {
    x in dist && !Queued(queue, x) && dist[x] < q.maxDepth
  }

  /** The edges of every node that is through have been collected, and only edges between found nodes. */
  ghost predicate Collected(q: Request, dist: map<NodeId, nat>, queue: Queue, ids: set<EdgeId>, full: bool) {
    && (forall id :: id in ids ==> Crosses(q, dist.Keys, id))
    && (full || forall e :: e in q.edges && Through(q, dist, queue, From(e, q.direction)) ==> e.id in ids)
    && (full ==> Inner(q, dist, ids))
  }

  lemma CollectedPop(q: Request, dist: map<NodeId, nat>, queue: Queue, ids: set<EdgeId>, full: bool)
    requires Collected(q, dist, queue, ids, full) && queue != [] && queue[0].0 in dist && dist[queue[0].0] == queue[0].1
    requires full || queue[0].1 >= q.maxDepth
              || forall e :: e in q.edges && From(e, q.direction) == queue[0].0 ==> e.id in ids
    ensures Collected(q, dist, queue[1..], ids, full)
  {
    assert forall i :: 1 <= i < |queue| ==> queue[1..][i - 1] == queue[i];
    forall e | !full && e in q.edges && Through(q, dist, queue[1..], From(e, q.direction)) ensures e.id in ids {
      assert From(e, q.direction) == queue[0].0 || Through(q, dist, queue, From(e, q.direction));
    }
  }

  lemma CollectedFound(q: Request, dist: map<NodeId, nat>, queue: Queue, ids: set<EdgeId>, full: bool, x: NodeId,
                       depth: nat)
    requires Collected(q, dist, queue, ids, full) && x !in dist && !full
    ensures Collected(q, dist[x := depth], queue + [(x, depth)], ids, full)
  {
    var dist', queue' := dist[x := depth], queue + [(x, depth)];
    assert queue'[|queue|].0 == x;
    assert forall i :: 0 <= i < |queue| ==> queue'[i] == queue[i];
    forall id | id in ids ensures Crosses(q, dist'.Keys, id) {
      assert Crosses(q, dist.Keys, id);
    }
    forall e | !full && e in q.edges && Through(q, dist', queue', From(e, q.direction)) ensures e.id in ids {
      assert Through(q, dist, queue, From(e, q.direction));
    }
  }

  lemma CollectedEdge(q: Request, dist: map<NodeId, nat>, queue: Queue, ids: set<EdgeId>, full: bool,
                      adjacency: Adjacency,
                      node: NodeId, edge: EdgeId, next: NodeId)
    requires Collected(q, dist, queue, ids, full) && node in dist && next in dist
    requires Lists(adjacency, q.edges, q.direction, node) && (edge, next) in Successors(adjacency, node)
    requires Exact(q, dist) && dist[node] < q.maxDepth
    ensures Collected(q, dist, queue, ids + {edge}, full)
  {
    assert Within(q, node, q.maxDepth);
    ListedIsEdge(adjacency, q.edges, q.direction, node, (edge, next));
    assert Crosses(q, dist.Keys, edge);
  }

  lemma CollectedFull(q: Request, dist: map<NodeId, nat>, queue: Queue, queue': Queue, ids: set<EdgeId>, full: bool)
    requires Collected(q, dist, queue, ids, full) && Levels(dist, queue) && Shallow(q, dist, queue)
    ensures Collected(q, dist, queue', ids, true)
  {
    forall e, y | !full && e in q.edges && From(e, q.direction) in dist && y in dist
                  && dist[From(e, q.direction)] + 2 <= dist[y]
      ensures e.id in ids {
      assert !Queued(queue, From(e, q.direction)) && Through(q, dist, queue, From(e, q.direction));
    }
  }

  lemma EdgesListed(q: Request, adjacency: Adjacency, node: NodeId, ids: set<EdgeId>)
    requires Lists(adjacency, q.edges, q.direction, node)
    requires forall p :: p in Successors(adjacency, node) ==> p.0 in ids
    ensures forall e :: e in q.edges && From(e, q.direction) == node ==> e.id in ids
  {
    forall e | e in q.edges && From(e, q.direction) == node ensures e.id in ids {
      ListedIsEdge(adjacency, q.edges, q.direction, node, (e.id, Onto(e, q.direction)));
    }
  }

  lemma InnerEdge(q: Request, dist: map<NodeId, nat>, ids: set<EdgeId>, e: Edge, k: nat, y: NodeId)
    requires Exact(q, dist) && Inner(q, dist, ids) && NoneNearer(q, dist) && y in dist && e in q.edges
    requires Walk(q.edges, q.direction, q.roots, From(e, q.direction), k) && Beyond(q, y, k)
    ensures e.id in ids
  {
    assert Walk(q.edges, q.direction, q.roots, y, dist[y]);
    assert From(e, q.direction) in dist;
  }

  /** A search that the node limit did not stop has all nodes and edges within the depth limit. */
  lemma AllWithin(q: Request, dist: map<NodeId, nat>, ids: set<EdgeId>)
    requires Exact(q, dist) && Levels(dist, []) && Closed(q, dist, []) && Collected(q, dist, [], ids, false)
    ensures forall truncated :: WithinDepth(q, Impact(ids, dist.Keys, truncated))
  {
    forall x | Within(q, x, q.maxDepth + 1) ensures x in dist {
      var k: nat :| k < q.maxDepth + 1 && Walk(q.edges, q.direction, q.roots, x, k);
      NothingMissed(q, dist, [], x, k);
    }
    forall e | e in q.edges && Within(q, From(e, q.direction), q.maxDepth) ensures e.id in ids {
      var k: nat :| k < q.maxDepth && Walk(q.edges, q.direction, q.roots, From(e, q.direction), k);
      NothingMissed(q, dist, [], From(e, q.direction), k);
      assert Through(q, dist, [], From(e, q.direction));
    }
  }

  lemma CompleteHere(q: Request, dist: map<NodeId, nat>, ids: set<EdgeId>)
    requires Collected(q, dist, [], ids, false) && forall x :: x in dist ==> dist[x] < q.maxDepth
    requires forall x :: Reachable(q.edges, q.direction, q.roots, x) ==> x in dist
    ensures Complete(q, Impact(ids, dist.Keys, false))
  {
    assert forall x :: x in dist ==> Through(q, dist, [], x);
  }

  lemma TraceableHere(q: Request, dist: map<NodeId, nat>, ids: set<EdgeId>, full: bool, truncated: bool)
    requires Collected(q, dist, [], ids, full) && Traced(q, dist, ids)
              && forall x :: x in dist ==> dist[x] <= q.maxDepth
    ensures Traceable(q, Impact(ids, dist.Keys, truncated))
  {
    forall x | x in dist ensures Linked(q, ids, x) {
      assert Walk(Chosen(q.edges, ids), q.direction, q.roots, x, dist[x]);
    }
  }

  lemma NearestHere(q: Request, dist: map<NodeId, nat>, ids: set<EdgeId>, truncated: bool)
    requires Exact(q, dist) && Inner(q, dist, ids) && NoneNearer(q, dist)
    ensures Nearest(q, Impact(ids, dist.Keys, truncated))
  {
    forall x, y | x !in dist.Keys && y in dist.Keys ensures NoFarther(q, y, x) {
      FoundAreNoFarther(q, dist, x);
    }
    forall e, k: nat, y
      | e in q.edges && Walk(q.edges, q.direction, q.roots, From(e, q.direction), k) && y in dist.Keys
      && Beyond(q, y, k)
      ensures e.id in ids {
      InnerEdge(q, dist, ids, e, k, y);
    }
  }

  lemma ImpactDone(q: Request, limit: nat, dist: map<NodeId, nat>, ids: set<EdgeId>, truncated: bool, full: bool)
    requires Searching(q, limit, dist, [], truncated, full) && Collected(q, dist, [], ids, full) && |dist.Keys| <= limit
    requires Traced(q, dist, ids)
    ensures IsImpact(q, limit, Impact(ids, dist.Keys, truncated))
  {
    var r := Impact(ids, dist.Keys, truncated);
    SearchOver(q, limit, dist, truncated, full);
    if !full {
      CollectedFull(q, dist, [], [], ids, full);
      MissedIsFar(q, dist, []);
      AllWithin(q, dist, ids);
    }
    if !truncated {
      NotDeep(q, limit, dist, truncated, full);
      CompleteHere(q, dist, ids);
    }
    TraceableHere(q, dist, ids, full, truncated);
    NearestHere(q, dist, ids, truncated);
    hide Exact, Closed, Inner, NoneNearer, Deep, Shallow, Collected, Traced, Complete, Traceable, WithinDepth, Nearest;
  }

  /** The loop over the successors of `node`, up to the node limit. */
  method Spread(node: NodeId, depth: nat, list: seq<(EdgeId, NodeId)>, limit: nat,
                queue0: Queue, visited0: set<NodeId>, ids0: set<EdgeId>, truncated0: bool,
                ghost q: Request, ghost adjacency: Adjacency, ghost dist0: map<NodeId, nat>, ghost full0: bool)
    returns (queue: Queue, visited: set<NodeId>, ids: set<EdgeId>, truncated: bool, ghost dist: map<NodeId, nat>,
        ghost full: bool)
    requires Searching(q, limit, dist0, [(node, depth)] + queue0, truncated0, full0) && depth < q.maxDepth
    requires Collected(q, dist0, [(node, depth)] + queue0, ids0, full0) && visited0 == dist0.Keys && |visited0| <= limit
    requires Traced(q, dist0, ids0)
    requires Lists(adjacency, q.edges, q.direction, node) && list == Successors(adjacency, node)
    ensures Searching(q, limit, dist, queue, truncated, full) && Collected(q, dist, queue, ids, full)
    ensures Traced(q, dist, ids)
    ensures visited == dist.Keys && visited0 <= visited <= Universe(q) && |visited| <= limit
    ensures visited == visited0 ==> queue == queue0
  {
    hide *;
    queue, visited, ids, truncated := queue0, visited0, ids0, truncated0;
    dist, full := dist0, full0;
    InHand(q, limit, dist, node, depth, queue, truncated, full);
    var i := 0;
    while i < |list|
      invariant 0 <= i <= |list| && visited0 <= visited == dist.Keys && |visited| <= limit
      invariant visited == visited0 ==> queue == queue0
      invariant Searching(q, limit, dist, [(node, depth)] + queue, truncated, full)
      invariant Collected(q, dist, [(node, depth)] + queue, ids, full) && Traced(q, dist, ids)
      invariant node in dist && dist[node] == depth
      invariant forall k :: 0 <= k < i ==> list[k].1 in dist && dist[list[k].1] <= depth + 1 && list[k].0 in ids
    {
      InHand(q, limit, dist, node, depth, queue, truncated, full);
      var (edge, next) := list[i];
      if |visited| >= limit {
        LimitReached(q, limit, dist, [(node, depth)] + queue, truncated, full);
        SearchIsShallow(q, limit, dist, [(node, depth)] + queue, truncated, full);
        CollectedFull(q, dist, [(node, depth)] + queue, queue, ids, full);
        assert ([(node, depth)] + queue)[1..] == queue;
        truncated, full := true, true;
        return;
      }
      if next !in visited {
        WithinLimit(q, limit, dist, [(node, depth)] + queue, truncated, full);
        FoundNext(q, limit, dist, node, depth, queue, truncated, full, adjacency, edge, next);
        CollectedFound(q, dist, [(node, depth)] + queue, ids, full, next, depth + 1);
        TracedNext(q, dist, ids, node, edge, next);
        assert [(node, depth)] + queue + [(next, depth + 1)] == [(node, depth)] + (queue + [(next, depth + 1)]);
        visited, dist := visited + {next}, dist[next := depth + 1];
        queue := queue + [(next, depth + 1)];
      } else {
        KnownNext(q, limit, dist, node, depth, queue, truncated, full, adjacency, edge, next);
        TracedMore(q, dist, ids, edge);
      }
      InHand(q, limit, dist, node, depth, queue, truncated, full);
      CollectedEdge(q, dist, [(node, depth)] + queue, ids, full, adjacency, node, edge, next);
      ids := ids + {edge};
      i := i + 1;
    }
    InHand(q, limit, dist, node, depth, queue, truncated, full);
    ListDone(q, adjacency, dist, node);
    EdgesListed(q, adjacency, node, ids);
    HeadExpanded(q, limit, dist, [(node, depth)] + queue, truncated, full);
    CollectedPop(q, dist, [(node, depth)] + queue, ids, full);
    assert ([(node, depth)] + queue)[1..] == queue;
  }

  lemma SearchIsShallow(q: Request, limit: nat, dist: map<NodeId, nat>, queue: Queue, truncated: bool, full: bool)
    requires Searching(q, limit, dist, queue, truncated, full)
    ensures Levels(dist, queue) && Shallow(q, dist, queue)
  {
  }

  lemma HeadIsFound(q: Request, limit: nat, dist: map<NodeId, nat>, queue: Queue, truncated: bool, full: bool)
    requires Searching(q, limit, dist, queue, truncated, full) && queue != []
    ensures queue[0].0 in dist && dist[queue[0].0] == queue[0].1
  {
  }

  /** All roots, at distance nought. */
  function AtStart(roots: seq<NodeId>): Queue {
    seq(|roots|, i requires 0 <= i < |roots| => (roots[i], 0))
  }

  lemma RootsOnly(q: Request, limit: nat, roots: seq<NodeId>)
    requires forall i, j :: 0 <= i < j < |roots| ==> roots[i] < roots[j]
    requires q.roots == set x | x in roots
    ensures Searching(q, limit, map x | x in q.roots :: 0, AtStart(roots), false, false)
    ensures Collected(q, map x | x in q.roots :: 0, AtStart(roots), {}, false)
    ensures Traced(q, map x | x in q.roots :: 0, {})
  {
    var dist: map<NodeId, nat> := map x | x in q.roots :: 0;
    var queue := AtStart(roots);
    forall x | x in dist ensures Queued(queue, x) {
      var i :| 0 <= i < |roots| && roots[i] == x;
      assert queue[i].0 == x;
    }
    SearchStarts(q, limit, dist, queue);
  }

  /** `impact`, with the root set given in its ascending order. */
  method ComputeImpact(edges: seq<Edge>, roots: seq<NodeId>, direction: Direction, maxDepth: nat, maxNodes: nat)
    returns (r: Impact)
    requires forall i, j :: 0 <= i < j < |roots| ==> roots[i] < roots[j]
    ensures var rootSet := set x | x in roots;
            IsImpact(Request(edges, direction, rootSet, maxDepth), Max(maxNodes, |rootSet|), r)
  {
    hide *;
    var adjacency := BuildAdjacency(edges, direction);
    var visited := set x | x in roots;
    ghost var q := Request(edges, direction, visited, maxDepth);
    var queue := AtStart(roots);
    var ids: set<EdgeId> := {};
    var limit := Max(maxNodes, |visited|);
    var truncated := false;
    ghost var dist: map<NodeId, nat> := map x | x in q.roots :: 0;
    ghost var full := false;
    RootsOnly(q, limit, roots);
    while queue != []
      invariant visited == dist.Keys && |visited| <= limit
      invariant Searching(q, limit, dist, queue, truncated, full) && Collected(q, dist, queue, ids, full)
      invariant Traced(q, dist, ids)
      decreases Universe(q) - visited, |queue|
    {
      var (node, depth) := queue[0];
      HeadIsFound(q, limit, dist, queue, truncated, full);
      if depth >= maxDepth {
        TooDeep(q, limit, dist, queue, truncated, full);
        CollectedPop(q, dist, queue, ids, full);
        truncated, queue := true, queue[1..];
        continue;
      }
      assert [(node, depth)] + queue[1..] == queue;
      queue, visited, ids, truncated, dist, full :=
        Spread(node, depth, Successors(adjacency, node), limit, queue[1..], visited, ids, truncated, q, adjacency, dist,
            full);
    }
    ImpactDone(q, limit, dist, ids, truncated, full);
    r := Impact(ids, visited, truncated);
  }
}
