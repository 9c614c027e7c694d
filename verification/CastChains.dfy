/** What the search finds when casts to a class need not agree on the pointer. */
module CastChains {
  import opened Options
  import opened CastGraph

  // A chain that arrives at each of its vertices as early as any chain does.
  ghost predicate Direct(g: seq<Vertex>, dyn: ClassId, start: Node, path: seq<Node>) {
    Chain(g, dyn, start, path) && forall i :: 0 <= i < |path| ==> Shortest(g, dyn, start, path[i].vertex, i)
  }

  // The first entry dequeued for each visited vertex, none of them further away
  // than what is left in the queue.
  ghost predicate Reaching(g: seq<Vertex>, dyn: ClassId, start: Node, queue: seq<QueueEntry>,
                           seen: map<ClassId, QueueEntry>) {
    && SortedQueue(queue) && AllReached(g, dyn, start, queue)
    && forall v :: v in seen ==> Earlier(g, dyn, start, queue, v, seen[v])
  }

  ghost predicate Earlier(g: seq<Vertex>, dyn: ClassId, start: Node, queue: seq<QueueEntry>, v: ClassId,
                          x: QueueEntry) {
    x.node.vertex == v && Reached(g, dyn, start, x) && (queue != [] ==> x.distance <= queue[0].distance)
  }

  // One turn of the search.
  lemma ReachOn(g: seq<Vertex>, dyn: ClassId, start: Node, queue: seq<QueueEntry>, seen: map<ClassId, QueueEntry>)
    returns (seen': map<ClassId, QueueEntry>)
    requires Reaching(g, dyn, start, queue, seen) && queue != [] && queue[0].node.vertex < |g|
    ensures var e := queue[0];
            seen'.Keys == seen.Keys + {e.node.vertex}
            && Reaching(g, dyn, start, queue[1..] + Successors(g[e.node.vertex].edges, dyn, e, seen'.Keys), seen')
            && forall v :: v in seen' ==>
                 Reached(g, dyn, start, seen'[v]) && seen'[v].node.vertex == v && seen'[v].distance <= e.distance
  {
    hide Reached, Successors;
    var e := queue[0];
    seen' := if e.node.vertex in seen then seen else seen[e.node.vertex := e];
    assert seen'.Keys == seen.Keys + {e.node.vertex};
    var next := Successors(g[e.node.vertex].edges, dyn, e, seen'.Keys);
    SuccessorsReached(g, dyn, start, e, seen'.Keys);
    QueueSorted(queue, next);
    var queue' := queue[1..] + next;
    if queue' != [] { assert queue'[0] == if |queue| > 1 then queue[1] else next[0]; }
  }

  // No vertex of a direct chain has been visited before the entry that leads to it
  // has been dequeued.
  lemma NotYetVisited(g: seq<Vertex>, dyn: ClassId, start: Node, path: seq<Node>, i: nat, x: QueueEntry)
    requires Direct(g, dyn, start, path) && i + 1 < |path|
    requires Reached(g, dyn, start, x) && x.node.vertex == path[i + 1].vertex
    ensures x.distance > i
  {
    hide Linked, Chain;
    var p :| ReachedBy(g, dyn, start, x, p);
    ShortestHere(g, dyn, start, path[i + 1].vertex, i + 1, p) by { assert Chain(g, dyn, start, p); }
  }

  lemma EndsAtTarget(g: seq<Vertex>, dyn: ClassId, start: Node, path: seq<Node>, i: nat, e: QueueEntry)
    requires Direct(g, dyn, start, path) && i < |path| && e.distance <= i
    requires Reached(g, dyn, start, e) && e.node.vertex == Last(path).vertex
    ensures e.distance == |path| - 1
  {
    hide Linked, Chain;
    var p :| ReachedBy(g, dyn, start, e, p);
    ShortestHere(g, dyn, start, Last(path).vertex, |path| - 1, p) by { assert Chain(g, dyn, start, p); }
  }

  // The next entry of a direct chain is pushed when the one before it is dequeued.
  lemma FollowedOn(g: seq<Vertex>, dyn: ClassId, start: Node, path: seq<Node>, i: nat, visited: set<ClassId>)
    requires Chain(g, dyn, start, path) && i + 1 < |path| && path[i].vertex < |g| && path[i + 1].vertex !in visited
    ensures QueueEntry(path[i + 1], i + 1) in Successors(g[path[i].vertex].edges, dyn, QueueEntry(path[i], i), visited)
  {
    assert Linked(g, dyn, path, i);
    var k :| CastsBy(g, dyn, path[i], path[i + 1], k);
    var edges := g[path[i].vertex].edges;
    SuccessorsComplete(g, dyn, QueueEntry(path[i], i), visited, path[i + 1], k, |edges|);
    assert edges[..|edges|] == edges;
  }

  lemma StillQueued(queue: seq<QueueEntry>, next: seq<QueueEntry>, x: QueueEntry)
    requires x in queue && x != queue[0]
    ensures x in queue[1..] + next
  {
    var k :| 0 <= k < |queue| && queue[k] == x;
    assert queue[1..][k - 1] == x;
  }

  lemma {:induction false} SearchFollows(g: seq<Vertex>, dyn: ClassId, start: Node, target: ClassId,
                                         queue: seq<QueueEntry>, seen: map<ClassId, QueueEntry>, path: seq<Node>,
                                             i: nat)
    requires Searching(g, queue, seen.Keys) && Reaching(g, dyn, start, queue, seen)
    requires Direct(g, dyn, start, path) && Last(path).vertex == target
    requires i < |path| && QueueEntry(path[i], i) in queue
    ensures var hit := Search(g, dyn, target, queue, seen.Keys);
            hit.Some? && hit.value.distance == |path| - 1
    decreases Weight(queue, |g|)
  {
    hide Weight, Searching, Chain, Shortest, Reached, Successors;
    var e, x := queue[0], QueueEntry(path[i], i);
    var k :| 0 <= k < |queue| && queue[k] == x;
    assert e.distance <= i;
    if e.node.vertex == target {
      EndsAtTarget(g, dyn, start, path, i, e);
    } else {
      SearchStep(g, dyn, queue, seen.Keys);
      SearchingHead(g, queue, seen.Keys);
      var seen' := ReachOn(g, dyn, start, queue, seen);
      var next := Successors(g[e.node.vertex].edges, dyn, e, seen'.Keys);
      if e == x {
        if path[i + 1].vertex in seen' { NotYetVisited(g, dyn, start, path, i, seen'[path[i + 1].vertex]); }
        FollowedOn(g, dyn, start, path, i, seen'.Keys);
        SearchFollows(g, dyn, start, target, queue[1..] + next, seen', path, i + 1);
      } else {
        StillQueued(queue, next, x);
        SearchFollows(g, dyn, start, target, queue[1..] + next, seen', path, i);
      }
    }
  }

  /** Without any agreement on the pointer: the end of a chain that arrives at each
      of its vertices as early as possible is found, at the chain's length. */
  lemma UncachedFindsDirect(g: seq<Vertex>, dyn: ClassId, start: Node, target: ClassId, path: seq<Node>)
    requires ValidGraph(g) && start.vertex < |g| && Direct(g, dyn, start, path) && Last(path).vertex == target
    ensures var hit := Uncached(g, dyn, start, target);
            hit.Some? && hit.value.distance == |path| - 1
            && hit.value.node.vertex == target && Reached(g, dyn, start, hit.value)
  {
    hide Shortest, Linked;
    var first := QueueEntry(start, 0);
    assert ReachedBy(g, dyn, start, first, [start]);
    var seen: map<ClassId, QueueEntry> := map[];
    assert seen.Keys == {};
    UncachedStarts(g, dyn, start, target);
    UncachedSound(g, dyn, start, target);
    assert Reaching(g, dyn, start, [first], seen) by { hide Reached; }
    SearchFollows(g, dyn, start, target, [first], seen, path, 0);
  }
}
