/** The graph of casts between registered classes: the breadth-first search for
    a chain of casts, and what it finds. */
module CastGraph {
  import opened Options

  type ClassId = nat

  // Where a subobject lies in its complete object.
  type Offset = x: int | 0 <= x < 0x4000_0000_0000_0000

  // A cast sees the dynamic class of the complete object and where in it the
  // subobject lies; None stands for the null pointer.
  type CastFunction = (ClassId, Offset) -> Option<Offset>

  datatype Edge = Edge(target: ClassId, cast: CastFunction)

  datatype Vertex = Vertex(id: ClassId, edges: seq<Edge>)

  datatype Node = Node(vertex: ClassId, offset: Offset)

  // An entry of the search's queue.
  datatype QueueEntry = QueueEntry(node: Node, distance: nat)

  ghost predicate SortedEdges(edges: seq<Edge>) {
    forall i, j :: 0 <= i < j < |edges| ==> edges[i].target < edges[j].target
  }

  ghost predicate ValidGraph(g: seq<Vertex>) {
    && (forall v :: 0 <= v < |g| ==> g[v].id == v && SortedEdges(g[v].edges))
    && (forall v, i :: 0 <= v < |g| && 0 <= i < |g[v].edges| ==> g[v].edges[i].target < |g|)
  }

  // ---- the search ----

  // The entries pushed for the edges of a vertex: targets not yet visited, casts not null.
  function Successors(edges: seq<Edge>, dyn: ClassId, e: QueueEntry, visited: set<ClassId>): (entries: seq<QueueEntry>)
    ensures |entries| <= |edges|
    ensures forall i :: 0 <= i < |entries| ==>
              entries[i].distance == e.distance + 1 && entries[i].node.vertex !in visited
  {
    if edges == [] then []
    else
      var n := |edges| - 1;
      Successors(edges[..n], dyn, e, visited) + Pushed(edges[n], dyn, e, visited)
  }

  function Pushed(edge: Edge, dyn: ClassId, e: QueueEntry, visited: set<ClassId>): (entries: seq<QueueEntry>)
    ensures |entries| <= 1
    ensures forall i :: 0 <= i < |entries| ==>
              entries[i].distance == e.distance + 1 && entries[i].node.vertex !in visited
  {
    if edge.target in visited then []
    else
      match edge.cast(dyn, e.node.offset)
      case None => []
      case Some(o) => [QueueEntry(Node(edge.target, o), e.distance + 1)]
  }

  // What holds of a search under way: every entry was reached by a chain of
  // distinct vertices that have all been visited.
  ghost predicate Searching(g: seq<Vertex>, queue: seq<QueueEntry>, visited: set<ClassId>) {
    && ValidGraph(g)
    && (forall v :: v in visited ==> v < |g|)
    && (forall i :: 0 <= i < |queue| ==>
          queue[i].node.vertex < |g| && queue[i].distance <= |visited - {queue[i].node.vertex}|)
  }

  function Pow(b: nat, e: nat): (p: nat)
    ensures b > 0 ==> p > 0
  {
    if e == 0 then 1 else b * Pow(b, e - 1)
  }

  // The measure of a queue: an entry far away counts less than all entries it
  // could still be replaced by.
  function Weight(queue: seq<QueueEntry>, n: nat): nat {
    if queue == [] then 0
    else
      var d := queue[0].distance;
      Pow(n + 1, if d <= n then n - d else 0) + Weight(queue[1..], n)
  }

  lemma {:induction false} WeightConcat(a: seq<QueueEntry>, b: seq<QueueEntry>, n: nat)
    ensures Weight(a + b, n) == Weight(a, n) + Weight(b, n)
  {
    if a == [] {
      assert a + b == b;
    } else {
      assert (a + b)[1..] == a[1..] + b;
      WeightConcat(a[1..], b, n);
    }
  }

  lemma {:induction false} WeightSame(a: seq<QueueEntry>, d: nat, n: nat)
    requires d <= n && forall i :: 0 <= i < |a| ==> a[i].distance == d
    ensures Weight(a, n) == |a| * Pow(n + 1, n - d)
  {
    if a != [] { WeightSame(a[1..], d, n); }
  }

  lemma {:induction false} Bounded(s: set<ClassId>, n: nat)
    requires forall x :: x in s ==> x < n
    ensures |s| <= n
    decreases n
  {
    if n > 0 {
      Bounded(s - {n - 1}, n - 1);
      if n - 1 in s { assert |s - {n - 1}| == |s| - 1; } else { assert s - {n - 1} == s; }
    }
  }

  lemma {:induction false} FewEdges(edges: seq<Edge>, n: nat)
    requires SortedEdges(edges) && forall i :: 0 <= i < |edges| ==> edges[i].target < n
    ensures |edges| <= n
    ensures edges != [] ==> |edges| <= edges[|edges| - 1].target + 1
  {
    if edges != [] {
      var k := |edges| - 1;
      assert edges[k].target < n;
      FewEdges(edges[..k], n);
      if k > 0 { assert edges[..k][k - 1].target < edges[k].target; }
    }
  }

  lemma {:induction false} SuccessorTargets(edges: seq<Edge>, dyn: ClassId, e: QueueEntry, visited: set<ClassId>,
                                            n: nat)
    requires forall i :: 0 <= i < |edges| ==> edges[i].target < n
    ensures forall i :: 0 <= i < |Successors(edges, dyn, e, visited)| ==>
              Successors(edges, dyn, e, visited)[i].node.vertex < n
  {
    if edges != [] { SuccessorTargets(edges[..|edges| - 1], dyn, e, visited, n); }
  }

  // What one turn of the search keeps, and why it makes progress.
  lemma {:induction false} SearchStep(g: seq<Vertex>, dyn: ClassId, queue: seq<QueueEntry>, visited: set<ClassId>)
    requires Searching(g, queue, visited) && queue != []
    ensures var e := queue[0];
            var visited' := visited + {e.node.vertex};
            var queue' := queue[1..] + Successors(g[e.node.vertex].edges, dyn, e, visited');
            Searching(g, queue', visited') && Weight(queue', |g|) < Weight(queue, |g|)
  {
    var e, n := queue[0], |g|;
    var v := e.node.vertex;
    var visited' := visited + {v};
    var next := Successors(g[v].edges, dyn, e, visited');
    var queue' := queue[1..] + next;
    SuccessorTargets(g[v].edges, dyn, e, visited', n);
    assert visited' - {v} == visited - {v};
    assert |visited'| == |visited - {v}| + 1;
    assert Searching(g, queue', visited') by {
      forall i | 0 <= i < |queue'|
        ensures queue'[i].node.vertex < n && queue'[i].distance <= |visited' - {queue'[i].node.vertex}|
      {
        EntryKept(queue, next, visited, visited', e, i);
      }
    }
    Bounded(visited', n);
    Progress(g, queue, next, e);
  }

  lemma EntryKept(queue: seq<QueueEntry>, next: seq<QueueEntry>, visited: set<ClassId>, visited': set<ClassId>,
                  e: QueueEntry, i: nat)
    requires queue != [] && e == queue[0] && i < |queue[1..] + next|
    requires visited <= visited' && e.distance + 1 <= |visited'|
    requires forall k :: 0 <= k < |queue| ==> queue[k].distance <= |visited - {queue[k].node.vertex}|
    requires forall k :: 0 <= k < |next| ==> next[k].distance == e.distance + 1 && next[k].node.vertex !in visited'
    ensures var x := (queue[1..] + next)[i];
            x.distance <= |visited' - {x.node.vertex}|
  {
    var x := (queue[1..] + next)[i];
    if i < |queue| - 1 {
      assert x == queue[i + 1];
      Subset(visited - {x.node.vertex}, visited' - {x.node.vertex});
    } else {
      assert x == next[i - (|queue| - 1)];
      assert visited' - {x.node.vertex} == visited';
    }
  }

  lemma {:induction false} Subset(a: set<ClassId>, b: set<ClassId>)
    requires a <= b
    ensures |a| <= |b|
  {
    if a != b {
      var x :| x in b && x !in a;
      Subset(a, b - {x});
    }
  }

  // Replacing an entry by what it pushes lowers the weight.
  lemma {:induction false} Progress(g: seq<Vertex>, queue: seq<QueueEntry>, next: seq<QueueEntry>, e: QueueEntry)
    requires ValidGraph(g) && queue != [] && e == queue[0] && e.node.vertex < |g|
    requires |next| <= |g[e.node.vertex].edges| && (next != [] ==> e.distance + 1 <= |g|)
    requires forall i :: 0 <= i < |next| ==> next[i].distance == e.distance + 1
    requires e.distance <= |g|
    ensures Weight(queue[1..] + next, |g|) < Weight(queue, |g|)
  {
    var n, d := |g|, e.distance;
    WeightConcat(queue[1..], next, n);
    WeightFirst(queue, n);
    hide Weight;
    if next != [] {
      FewEdges(g[e.node.vertex].edges, n);
      WeightSame(next, d + 1, n);
      Replacement(|next|, n, d);
    } else {
      WeightSame(next, 0, n);
    }
  }

  lemma WeightFirst(queue: seq<QueueEntry>, n: nat)
    requires queue != [] && queue[0].distance <= n
    ensures Weight(queue, n) == Pow(n + 1, n - queue[0].distance) + Weight(queue[1..], n)
  {
  }

  // k entries at the next distance weigh less than one at this distance.
  lemma Replacement(k: nat, n: nat, d: nat)
    requires k <= n && d + 1 <= n
    ensures k * Pow(n + 1, n - (d + 1)) < Pow(n + 1, n - d)
  {
    var p := Pow(n + 1, n - (d + 1));
    assert Pow(n + 1, n - d) == (n + 1) * p;
    hide Pow;
    assert k * p <= n * p;
    assert (n + 1) * p == n * p + p;
  }

  // The search without a cache: the entry for the target, if it comes up.
  ghost function Search(g: seq<Vertex>, dyn: ClassId, target: ClassId, queue: seq<QueueEntry>,
                        visited: set<ClassId>): Option<QueueEntry>
    requires Searching(g, queue, visited)
    decreases Weight(queue, |g|)
  {
    if queue == [] then None
    else if queue[0].node.vertex == target then Some(queue[0])
    else
      SearchStep(g, dyn, queue, visited);
      var e := queue[0];
      var visited' := visited + {e.node.vertex};
      Search(g, dyn, target, queue[1..] + Successors(g[e.node.vertex].edges, dyn, e, visited'), visited')
  }

  ghost function Uncached(g: seq<Vertex>, dyn: ClassId, start: Node, target: ClassId): Option<QueueEntry>
    requires ValidGraph(g) && start.vertex < |g|
  {
    Search(g, dyn, target, [QueueEntry(start, 0)], {})
  }

  // ---- what the search finds ----

  // Edge i of a vertex takes node a to node b.
  ghost predicate CastsBy(g: seq<Vertex>, dyn: ClassId, a: Node, b: Node, i: nat) {
    && a.vertex < |g| && i < |g[a.vertex].edges|
    && g[a.vertex].edges[i].target == b.vertex
    && g[a.vertex].edges[i].cast(dyn, a.offset) == Some(b.offset)
  }

  ghost predicate Casts(g: seq<Vertex>, dyn: ClassId, a: Node, b: Node) {
    exists i :: CastsBy(g, dyn, a, b, i)
  }

  // A chain of casts that are not null, from a start node.
  ghost predicate Chain(g: seq<Vertex>, dyn: ClassId, start: Node, path: seq<Node>) {
    && path != [] && path[0] == start
    && forall i :: 0 <= i < |path| - 1 ==> Linked(g, dyn, path, i)
  }

  ghost predicate Linked(g: seq<Vertex>, dyn: ClassId, path: seq<Node>, i: nat)
    requires i + 1 < |path|
  {
    Casts(g, dyn, path[i], path[i + 1])
  }

  function Last(path: seq<Node>): Node
    requires path != []
  {
    path[|path| - 1]
  }

  // A chain of casts to a class.
  ghost predicate LeadsTo(g: seq<Vertex>, dyn: ClassId, start: Node, target: ClassId, path: seq<Node>) {
    Chain(g, dyn, start, path) && Last(path).vertex == target
  }

  ghost predicate ReachedBy(g: seq<Vertex>, dyn: ClassId, start: Node, e: QueueEntry, path: seq<Node>) {
    Chain(g, dyn, start, path) && Last(path) == e.node && |path| == e.distance + 1
  }

  ghost predicate Reached(g: seq<Vertex>, dyn: ClassId, start: Node, e: QueueEntry) {
    exists path :: ReachedBy(g, dyn, start, e, path)
  }

  lemma ReachedOn(g: seq<Vertex>, dyn: ClassId, start: Node, e: QueueEntry, next: Node)
    requires Reached(g, dyn, start, e) && Casts(g, dyn, e.node, next)
    ensures Reached(g, dyn, start, QueueEntry(next, e.distance + 1))
  {
    hide Casts;
    var path :| ReachedBy(g, dyn, start, e, path);
    var longer := path + [next];
    forall i | 0 <= i < |longer| - 1 ensures Linked(g, dyn, longer, i) {
      if i < |path| - 1 { assert Linked(g, dyn, path, i); }
    }
    assert ReachedBy(g, dyn, start, QueueEntry(next, e.distance + 1), longer);
  }

  lemma {:induction false} SuccessorsCast(g: seq<Vertex>, dyn: ClassId, e: QueueEntry, visited: set<ClassId>, n: nat)
    requires e.node.vertex < |g| && n <= |g[e.node.vertex].edges|
    ensures forall x :: x in Successors(g[e.node.vertex].edges[..n], dyn, e, visited) ==> Casts(g, dyn, e.node, x.node)
  {
    if n > 0 {
      SuccessorsCast(g, dyn, e, visited, n - 1);
      var edges := g[e.node.vertex].edges;
      assert edges[..n][..n - 1] == edges[..n - 1] && edges[..n][n - 1] == edges[n - 1];
      forall x | x in Pushed(edges[n - 1], dyn, e, visited) ensures Casts(g, dyn, e.node, x.node) {
        assert CastsBy(g, dyn, e.node, x.node, n - 1);
      }
    }
  }

  /** Soundness: what the search finds is the end of a chain of casts, and its
      distance is the chain's length. */
  lemma {:induction false} SearchSound(g: seq<Vertex>, dyn: ClassId, start: Node, target: ClassId,
                                       queue: seq<QueueEntry>, visited: set<ClassId>)
    requires Searching(g, queue, visited) && forall e :: e in queue ==> Reached(g, dyn, start, e)
    ensures var hit := Search(g, dyn, target, queue, visited);
            hit.Some? ==> hit.value.node.vertex == target && Reached(g, dyn, start, hit.value)
    decreases Weight(queue, |g|)
  {
    hide Reached, Weight, Searching, Casts;
    if queue != [] && queue[0].node.vertex != target {
      var e := queue[0];
      SearchStep(g, dyn, queue, visited);
      assert e.node.vertex < |g| by { SearchingHead(g, queue, visited); }
      var visited' := visited + {e.node.vertex};
      var edges := g[e.node.vertex].edges;
      SuccessorsCast(g, dyn, e, visited', |edges|);
      assert edges[..|edges|] == edges;
      var next := Successors(edges, dyn, e, visited');
      forall x | x in queue[1..] + next ensures Reached(g, dyn, start, x) {
        if x in next {
          SuccessorDistance(edges, dyn, e, visited', x);
          ReachedOn(g, dyn, start, e, x.node);
        }
      }
      SearchSound(g, dyn, start, target, queue[1..] + next, visited');
    }
  }

  lemma SearchingHead(g: seq<Vertex>, queue: seq<QueueEntry>, visited: set<ClassId>)
    requires Searching(g, queue, visited) && queue != []
    ensures queue[0].node.vertex < |g| && ValidGraph(g)
  {
  }

  lemma SuccessorDistance(edges: seq<Edge>, dyn: ClassId, e: QueueEntry, visited: set<ClassId>, x: QueueEntry)
    requires x in Successors(edges, dyn, e, visited)
    ensures x == QueueEntry(x.node, e.distance + 1)
  {
  }

  // All chains of casts from start to a class agree on the pointer.
  ghost predicate Coherent(g: seq<Vertex>, dyn: ClassId, start: Node) {
    forall p, q :: Chain(g, dyn, start, p) && Chain(g, dyn, start, q) && Last(p).vertex == Last(q).vertex ==>
        Last(p) == Last(q)
  }

  ghost predicate SortedQueue(queue: seq<QueueEntry>) {
    forall i, j :: 0 <= i <= j < |queue| ==> queue[i].distance <= queue[j].distance <= queue[0].distance + 1
  }

  ghost predicate AllReached(g: seq<Vertex>, dyn: ClassId, start: Node, queue: seq<QueueEntry>) {
    forall e :: e in queue ==> Reached(g, dyn, start, e)
  }

  // What is known of the first entry dequeued for a visited vertex.
  ghost predicate Settled(g: seq<Vertex>, dyn: ClassId, start: Node, x: QueueEntry, queue: seq<QueueEntry>,
                          visited: set<ClassId>) {
    && Reached(g, dyn, start, x)
    && (queue != [] ==> x.distance <= queue[0].distance)
    && Shortest(g, dyn, start, x.node.vertex, x.distance)
    && Closed(g, dyn, x, queue, visited)
  }

  // The explored part of the graph: the first entry dequeued for each visited vertex.
  ghost predicate Explored(g: seq<Vertex>, dyn: ClassId, start: Node, queue: seq<QueueEntry>,
                           seen: map<ClassId, QueueEntry>) {
    && SortedQueue(queue) && AllReached(g, dyn, start, queue)
    && (start.vertex in seen || QueueEntry(start, 0) in queue)
    && forall v :: v in seen ==> seen[v].node.vertex == v && Settled(g, dyn, start, seen[v], queue, seen.Keys)
  }

  // No chain to the vertex has fewer casts.
  ghost predicate Shortest(g: seq<Vertex>, dyn: ClassId, start: Node, v: ClassId, distance: nat) {
    forall path :: Chain(g, dyn, start, path) && Last(path).vertex == v ==> distance < |path|
  }

  // Every cast from an explored node leads to a visited vertex or to the queue.
  ghost predicate Closed(g: seq<Vertex>, dyn: ClassId, e: QueueEntry, queue: seq<QueueEntry>, visited: set<ClassId>) {
    forall b :: Casts(g, dyn, e.node, b) ==> b.vertex in visited || QueueEntry(b, e.distance + 1) in queue
  }

  lemma ChainPrefix(g: seq<Vertex>, dyn: ClassId, start: Node, path: seq<Node>)
    requires Chain(g, dyn, start, path) && |path| > 1
    ensures Chain(g, dyn, start, path[..|path| - 1]) && Casts(g, dyn, path[|path| - 2], path[|path| - 1])
  {
    hide Casts;
    var front := path[..|path| - 1];
    assert Linked(g, dyn, path, |path| - 2);
    forall i | 0 <= i < |front| - 1 ensures Linked(g, dyn, front, i) {
      assert Linked(g, dyn, path, i);
    }
  }

  /** The frontier: a chain to a vertex not yet visited has an entry in the queue
      that is no further away than the chain is long. */
  lemma {:induction false} Frontier(g: seq<Vertex>, dyn: ClassId, start: Node, queue: seq<QueueEntry>,
                                    seen: map<ClassId, QueueEntry>, path: seq<Node>) returns (e: QueueEntry)
    requires Explored(g, dyn, start, queue, seen) && Coherent(g, dyn, start)
    requires Chain(g, dyn, start, path) && Last(path).vertex !in seen
    ensures e in queue && e.distance < |path|
    decreases |path|
  {
    hide Reached, Shortest, Casts;
    if |path| == 1 {
      e := QueueEntry(start, 0);
    } else {
      ChainPrefix(g, dyn, start, path);
      var front := path[..|path| - 1];
      var v := Last(front).vertex;
      if v in seen {
        assert Settled(g, dyn, start, seen[v], queue, seen.Keys);
        SeenOffset(g, dyn, start, seen[v], front);
        ShortestHere(g, dyn, start, v, seen[v].distance, front);
        assert Closed(g, dyn, seen[v], queue, seen.Keys);
        e := QueueEntry(Last(path), seen[v].distance + 1);
      } else {
        e := Frontier(g, dyn, start, queue, seen, front);
      }
    }
  }

  lemma SeenOffset(g: seq<Vertex>, dyn: ClassId, start: Node, e: QueueEntry, path: seq<Node>)
    requires Coherent(g, dyn, start) && Reached(g, dyn, start, e)
    requires Chain(g, dyn, start, path) && Last(path).vertex == e.node.vertex
    ensures Last(path) == e.node
  {
    hide Casts, Chain;
    var p :| ReachedBy(g, dyn, start, e, p);
  }

  lemma ShortestHere(g: seq<Vertex>, dyn: ClassId, start: Node, v: ClassId, distance: nat, path: seq<Node>)
    requires Shortest(g, dyn, start, v, distance) && Chain(g, dyn, start, path) && Last(path).vertex == v
    ensures distance < |path|
  {
  }

  // The head of the queue is at its shortest distance when its vertex is new.
  lemma {:induction false} HeadIsShortest(g: seq<Vertex>, dyn: ClassId, start: Node, queue: seq<QueueEntry>,
                                          seen: map<ClassId, QueueEntry>)
    requires Explored(g, dyn, start, queue, seen) && Coherent(g, dyn, start) && queue != []
    requires queue[0].node.vertex !in seen
    ensures Shortest(g, dyn, start, queue[0].node.vertex, queue[0].distance)
  {
    hide Reached, Casts, Linked, Coherent;
    var v := queue[0].node.vertex;
    forall path | Chain(g, dyn, start, path) && Last(path).vertex == v ensures queue[0].distance < |path| {
      var e := Frontier(g, dyn, start, queue, seen, path);
      var i :| 0 <= i < |queue| && queue[i] == e;
    }
  }

  lemma {:induction false} SuccessorsComplete(g: seq<Vertex>, dyn: ClassId, e: QueueEntry, visited: set<ClassId>,
                                              b: Node, i: nat, n: nat)
    requires e.node.vertex < |g| && i < n <= |g[e.node.vertex].edges|
    requires CastsBy(g, dyn, e.node, b, i) && b.vertex !in visited
    ensures QueueEntry(b, e.distance + 1) in Successors(g[e.node.vertex].edges[..n], dyn, e, visited)
    decreases n
  {
    var edges := g[e.node.vertex].edges;
    assert edges[..n][..n - 1] == edges[..n - 1] && edges[..n][n - 1] == edges[n - 1];
    if i < n - 1 {
      SuccessorsComplete(g, dyn, e, visited, b, i, n - 1);
    } else {
      assert QueueEntry(b, e.distance + 1) in Pushed(edges[n - 1], dyn, e, visited);
    }
  }

  // The node of an entry is closed once its successors have been pushed.
  lemma ClosedByPushing(g: seq<Vertex>, dyn: ClassId, e: QueueEntry, before: seq<QueueEntry>, visited: set<ClassId>)
    requires e.node.vertex < |g|
    ensures Closed(g, dyn, e, before + Successors(g[e.node.vertex].edges, dyn, e, visited), visited)
  {
    var edges := g[e.node.vertex].edges;
    forall b | Casts(g, dyn, e.node, b) && b.vertex !in visited
      ensures QueueEntry(b, e.distance + 1) in before + Successors(edges, dyn, e, visited)
    {
      var i :| CastsBy(g, dyn, e.node, b, i);
      SuccessorsComplete(g, dyn, e, visited, b, i, |edges|);
      assert edges[..|edges|] == edges;
    }
  }

  lemma StaysClosed(g: seq<Vertex>, dyn: ClassId, x: QueueEntry, queue: seq<QueueEntry>, visited: set<ClassId>,
                    queue': seq<QueueEntry>, visited': set<ClassId>)
    requires Closed(g, dyn, x, queue, visited) && queue != []
    requires visited <= visited' && queue[0].node.vertex in visited'
    requires forall y :: y in queue[1..] ==> y in queue'
    ensures Closed(g, dyn, x, queue', visited')
  {
    forall b | Casts(g, dyn, x.node, b) ensures b.vertex in visited' || QueueEntry(b, x.distance + 1) in queue' {
      if b.vertex !in visited {
        var i :| 0 <= i < |queue| && queue[i] == QueueEntry(b, x.distance + 1);
        if i > 0 { assert queue[1..][i - 1] == queue[i]; }
      }
    }
  }

  // One turn of the search keeps what is known of the explored part.
  lemma ExploreStep(g: seq<Vertex>, dyn: ClassId, start: Node, queue: seq<QueueEntry>, seen: map<ClassId, QueueEntry>)
    returns (seen': map<ClassId, QueueEntry>)
    requires Explored(g, dyn, start, queue, seen) && Coherent(g, dyn, start)
    requires queue != [] && queue[0].node.vertex < |g|
    ensures var e := queue[0];
            var visited' := seen.Keys + {e.node.vertex};
            seen'.Keys == visited'
            && Explored(g, dyn, start, queue[1..] + Successors(g[e.node.vertex].edges, dyn, e, visited'), seen')
  {
    hide *;
    var e := queue[0];
    var v := e.node.vertex;
    var visited' := seen.Keys + {v};
    var next := Successors(g[v].edges, dyn, e, visited');
    var queue' := queue[1..] + next;
    ExploredMeans(g, dyn, start, queue, seen);
    SuccessorsReached(g, dyn, start, e, visited');
    QueueSorted(queue, next);
    StartKept(start, queue, next, seen.Keys);
    if v in seen {
      seen' := seen;
    } else {
      HeadIsShortest(g, dyn, start, queue, seen);
      seen' := seen[v := e];
      HeadSettled(g, dyn, start, queue, visited');
    }
    assert seen'.Keys == visited';
    forall w | w in seen' ensures seen'[w].node.vertex == w && Settled(g, dyn, start, seen'[w], queue', visited') {
      if w in seen { StaysSettled(g, dyn, start, seen[w], queue, seen.Keys, next, visited'); }
    }
    MakeExplored(g, dyn, start, queue', seen');
  }

  lemma ExploredMeans(g: seq<Vertex>, dyn: ClassId, start: Node, queue: seq<QueueEntry>, seen: map<ClassId, QueueEntry>)
    requires Explored(g, dyn, start, queue, seen)
    ensures SortedQueue(queue) && forall x :: x in queue ==> Reached(g, dyn, start, x)
    ensures start.vertex in seen || QueueEntry(start, 0) in queue
    ensures forall v :: v in seen ==> seen[v].node.vertex == v && Settled(g, dyn, start, seen[v], queue, seen.Keys)
  {
    hide SortedQueue, Reached, Settled;
  }

  lemma MakeExplored(g: seq<Vertex>, dyn: ClassId, start: Node, queue: seq<QueueEntry>, seen: map<ClassId, QueueEntry>)
    requires SortedQueue(queue) && forall x :: x in queue ==> Reached(g, dyn, start, x)
    requires start.vertex in seen || QueueEntry(start, 0) in queue
    requires forall v :: v in seen ==> seen[v].node.vertex == v && Settled(g, dyn, start, seen[v], queue, seen.Keys)
    ensures Explored(g, dyn, start, queue, seen)
  {
    hide SortedQueue, Reached, Settled;
  }

  lemma StartKept(start: Node, queue: seq<QueueEntry>, next: seq<QueueEntry>, visited: set<ClassId>)
    requires queue != [] && (start.vertex in visited || QueueEntry(start, 0) in queue)
    ensures start.vertex in visited + {queue[0].node.vertex} || QueueEntry(start, 0) in queue[1..] + next
  {
    if start.vertex !in visited {
      var i :| 0 <= i < |queue| && queue[i] == QueueEntry(start, 0);
      if i > 0 { assert queue[1..][i - 1] == QueueEntry(start, 0); }
    }
  }

  // The vertex of the head is settled once its successors have been pushed.
  lemma HeadSettled(g: seq<Vertex>, dyn: ClassId, start: Node, queue: seq<QueueEntry>, visited: set<ClassId>)
    requires queue != [] && SortedQueue(queue) && Reached(g, dyn, start, queue[0]) && queue[0].node.vertex < |g|
    requires Shortest(g, dyn, start, queue[0].node.vertex, queue[0].distance)
    ensures var e := queue[0];
            Settled(g, dyn, start, e, queue[1..] + Successors(g[e.node.vertex].edges, dyn, e, visited), visited)
  {
    hide Reached, Shortest, Closed;
    ClosedByPushing(g, dyn, queue[0], queue[1..], visited);
  }

  lemma StaysSettled(g: seq<Vertex>, dyn: ClassId, start: Node, x: QueueEntry, queue: seq<QueueEntry>,
                     visited: set<ClassId>,
                     next: seq<QueueEntry>, visited': set<ClassId>)
    requires Settled(g, dyn, start, x, queue, visited) && queue != [] && SortedQueue(queue)
    requires visited' == visited + {queue[0].node.vertex}
    requires forall y :: y in next ==> y.distance == queue[0].distance + 1
    ensures Settled(g, dyn, start, x, queue[1..] + next, visited')
  {
    hide Reached, Shortest, Closed;
    var queue' := queue[1..] + next;
    StaysClosed(g, dyn, x, queue, visited, queue', visited');
    if queue' != [] { assert queue'[0] == (if |queue| > 1 then queue[1] else next[0]); }
  }

  lemma SuccessorsReached(g: seq<Vertex>, dyn: ClassId, start: Node, e: QueueEntry, visited: set<ClassId>)
    requires e.node.vertex < |g| && Reached(g, dyn, start, e)
    ensures forall x :: x in Successors(g[e.node.vertex].edges, dyn, e, visited) ==>
              Reached(g, dyn, start, x) && x.distance == e.distance + 1
  {
    hide Reached, Casts;
    var edges := g[e.node.vertex].edges;
    SuccessorsCast(g, dyn, e, visited, |edges|);
    assert edges[..|edges|] == edges;
    forall x | x in Successors(edges, dyn, e, visited)
      ensures Reached(g, dyn, start, x) && x.distance == e.distance + 1 {
      SuccessorDistance(edges, dyn, e, visited, x);
      ReachedOn(g, dyn, start, e, x.node);
    }
  }

  lemma QueueSorted(queue: seq<QueueEntry>, next: seq<QueueEntry>)
    requires queue != [] && SortedQueue(queue)
    requires forall y :: y in next ==> y.distance == queue[0].distance + 1
    ensures SortedQueue(queue[1..] + next)
  {
  }

  /** Completeness and minimality: when chains agree on the pointer, the search
      finds the target exactly when some chain of casts leads there, and at the
      smallest number of casts. */
  lemma {:induction false} SearchShortest(g: seq<Vertex>, dyn: ClassId, start: Node, target: ClassId,
                                          queue: seq<QueueEntry>, seen: map<ClassId, QueueEntry>)
    requires Searching(g, queue, seen.Keys) && Explored(g, dyn, start, queue, seen) && Coherent(g, dyn, start)
    requires target !in seen
    ensures var hit := Search(g, dyn, target, queue, seen.Keys);
            if hit.None? then forall path :: Chain(g, dyn, start, path) ==> Last(path).vertex != target
            else Shortest(g, dyn, start, target, hit.value.distance)
    decreases Weight(queue, |g|)
  {
    hide Reached, Shortest, Closed, Coherent, Weight, Searching, Linked;
    if queue == [] {
      forall path | Chain(g, dyn, start, path) ensures Last(path).vertex != target {
        if Last(path).vertex == target { var e := Frontier(g, dyn, start, queue, seen, path); }
      }
    } else if queue[0].node.vertex == target {
      HeadIsShortest(g, dyn, start, queue, seen);
    } else {
      SearchStep(g, dyn, queue, seen.Keys);
      SearchingHead(g, queue, seen.Keys);
      var e := queue[0];
      var seen' := ExploreStep(g, dyn, start, queue, seen);
      SearchShortest(g, dyn, start, target,
                     queue[1..] + Successors(g[e.node.vertex].edges, dyn, e, seen.Keys + {e.node.vertex}), seen');
    }
  }

  /** The uncached search finds a target if and only if a chain of casts leads
      there, with the pointer every chain gives and the fewest casts. */
  lemma UncachedIsShortest(g: seq<Vertex>, dyn: ClassId, start: Node, target: ClassId)
    requires ValidGraph(g) && start.vertex < |g| && Coherent(g, dyn, start)
    ensures var hit := Uncached(g, dyn, start, target);
            && (hit.Some? <==> exists path :: Chain(g, dyn, start, path) && Last(path).vertex == target)
            && (hit.Some? ==> Reached(g, dyn, start, hit.value) && hit.value.node.vertex == target
                              && Shortest(g, dyn, start, target, hit.value.distance)
                              && forall path :: Chain(g, dyn, start, path) && Last(path).vertex == target ==>
                                   Last(path) == hit.value.node)
  {
    hide *;
    UncachedSound(g, dyn, start, target);
    UncachedComplete(g, dyn, start, target);
    var hit := Uncached(g, dyn, start, target);
    if hit.Some? {
      var p := ReachedChain(g, dyn, start, hit.value);
      AllAgree(g, dyn, start, hit.value);
    }
  }

  lemma AllAgree(g: seq<Vertex>, dyn: ClassId, start: Node, e: QueueEntry)
    requires Coherent(g, dyn, start) && Reached(g, dyn, start, e)
    ensures forall path :: Chain(g, dyn, start, path) && Last(path).vertex == e.node.vertex ==> Last(path) == e.node
  {
    hide Coherent, Reached, Linked;
    forall path | Chain(g, dyn, start, path) && Last(path).vertex == e.node.vertex ensures Last(path) == e.node {
      SeenOffset(g, dyn, start, e, path);
    }
  }

  lemma ReachedChain(g: seq<Vertex>, dyn: ClassId, start: Node, e: QueueEntry) returns (path: seq<Node>)
    requires Reached(g, dyn, start, e)
    ensures path != [] && Chain(g, dyn, start, path) && Last(path) == e.node
  {
    hide Linked;
    path :| ReachedBy(g, dyn, start, e, path);
  }

  lemma UncachedComplete(g: seq<Vertex>, dyn: ClassId, start: Node, target: ClassId)
    requires ValidGraph(g) && start.vertex < |g| && Coherent(g, dyn, start)
    ensures var hit := Uncached(g, dyn, start, target);
            if hit.None? then forall path :: Chain(g, dyn, start, path) ==> Last(path).vertex != target
            else Shortest(g, dyn, start, target, hit.value.distance)
  {
    hide Shortest, Coherent, Casts;
    var first := QueueEntry(start, 0);
    assert ReachedBy(g, dyn, start, first, [start]);
    var seen: map<ClassId, QueueEntry> := map[];
    assert seen.Keys == {};
    assert Explored(g, dyn, start, [first], seen) by { hide Reached; }
    SearchShortest(g, dyn, start, target, [first], seen);
  }

  lemma UncachedSound(g: seq<Vertex>, dyn: ClassId, start: Node, target: ClassId)
    requires ValidGraph(g) && start.vertex < |g|
    ensures var hit := Uncached(g, dyn, start, target);
            hit.Some? ==> hit.value.node.vertex == target && Reached(g, dyn, start, hit.value)
  {
    var first := QueueEntry(start, 0);
    assert ReachedBy(g, dyn, start, first, [start]);
    SearchSound(g, dyn, start, target, [first], {});
  }

  // A diamond whose two ways to class 1 give different pointers: only the longer
  // one can be cast on to class 3, but class 1 is visited by the shorter one.
  function Diamond(): seq<Vertex> {
    var same: CastFunction := (dyn, o) => Some(o);
    var next: CastFunction := (dyn, o) => Some(1);
    var onlyFromOne: CastFunction := (dyn, o) => if o == 1 then Some(o) else None;
    [Vertex(0, [Edge(1, same), Edge(2, same)]), Vertex(1, [Edge(3, onlyFromOne)]), Vertex(2, [Edge(1, next)]),
        Vertex(3, [])]
  }

  /** Without agreement on the pointer the search can miss a chain of casts. */
  lemma IncoherentSearchMisses()
    ensures var g, start := Diamond(), Node(0, 0);
            && ValidGraph(g) && Uncached(g, 0, start, 3) == None
            && exists path :: Chain(g, 0, start, path) && Last(path).vertex == 3
  {
    hide *;
    var e0, e1, e2 := QueueEntry(Node(0, 0), 0), QueueEntry(Node(1, 0), 1), QueueEntry(Node(2, 0), 1);
    DiamondChain();
    DiamondSteps(e0, e1, e2);
    UncachedStarts(Diamond(), 0, Node(0, 0), 3);
    SearchTurn(Diamond(), 0, 3, [e0], {}, [e1, e2]);
    SearchTurn(Diamond(), 0, 3, [e1, e2], {} + {0}, []);
    SearchTurn(Diamond(), 0, 3, [e2], {} + {0} + {1}, []);
    SearchEnds(Diamond(), 0, 3, {} + {0} + {1} + {2});
  }

  lemma UncachedStarts(g: seq<Vertex>, dyn: ClassId, start: Node, target: ClassId)
    requires ValidGraph(g) && start.vertex < |g|
    ensures Searching(g, [QueueEntry(start, 0)], {})
    ensures Uncached(g, dyn, start, target) == Search(g, dyn, target, [QueueEntry(start, 0)], {})
  {
  }

  // Two ways of two casts to class 3, by class 1 and by class 2.
  function Square(): seq<Vertex> {
    var same: CastFunction := (dyn, o) => Some(o);
    var next: CastFunction := (dyn, o) => Some(1);
    [Vertex(0, [Edge(1, same), Edge(2, next)]), Vertex(1, [Edge(3, same)]), Vertex(2, [Edge(3, same)]), Vertex(3, [])]
  }

  /** Of two shortest chains that end at different places the one by the smaller
      class is found. */
  lemma SmallerClassFirst()
    ensures var g, start := Square(), Node(0, 0);
            && ValidGraph(g) && Uncached(g, 0, start, 3) == Some(QueueEntry(Node(3, 0), 2))
            && exists path :: Chain(g, 0, start, path) && |path| == 3 && Last(path) == Node(3, 1)
  {
    hide *;
    var e0, e1, e2 := QueueEntry(Node(0, 0), 0), QueueEntry(Node(1, 0), 1), QueueEntry(Node(2, 1), 1);
    var e3, e4 := QueueEntry(Node(3, 0), 2), QueueEntry(Node(3, 1), 2);
    SquareChain();
    SquareSteps(e0, e1, e2, e3, e4);
    UncachedStarts(Square(), 0, Node(0, 0), 3);
    SearchTurn(Square(), 0, 3, [e0], {}, [e1, e2]);
    SearchTurn(Square(), 0, 3, [e1, e2], {} + {0}, [e3]);
    assert [e1, e2][1..] + [e3] == [e2, e3];
    SearchTurn(Square(), 0, 3, [e2, e3], {} + {0} + {1}, [e4]);
    assert [e2, e3][1..] + [e4] == [e3, e4];
    SearchFinds(Square(), 0, 3, [e3, e4], {} + {0} + {1} + {2});
  }

  lemma SearchFinds(g: seq<Vertex>, dyn: ClassId, target: ClassId, queue: seq<QueueEntry>, visited: set<ClassId>)
    requires Searching(g, queue, visited) && queue != [] && queue[0].node.vertex == target
    ensures Search(g, dyn, target, queue, visited) == Some(queue[0])
  {
    hide Searching, Weight;
  }

  lemma SquareChain()
    ensures ValidGraph(Square()) && |Square()| == 4
    ensures exists path :: Chain(Square(), 0, Node(0, 0), path) && |path| == 3 && Last(path) == Node(3, 1)
  {
    var g, path := Square(), [Node(0, 0), Node(2, 1), Node(3, 1)];
    assert CastsBy(g, 0, path[0], path[1], 1) && CastsBy(g, 0, path[1], path[2], 0);
    assert forall i :: 0 <= i < 2 ==> Linked(g, 0, path, i);
    assert Chain(g, 0, Node(0, 0), path);
  }

  lemma SquareSteps(e0: QueueEntry, e1: QueueEntry, e2: QueueEntry, e3: QueueEntry, e4: QueueEntry)
    requires e0 == QueueEntry(Node(0, 0), 0) && e1 == QueueEntry(Node(1, 0), 1) && e2 == QueueEntry(Node(2, 1), 1)
    requires e3 == QueueEntry(Node(3, 0), 2) && e4 == QueueEntry(Node(3, 1), 2)
    ensures var g := Square();
            && Successors(g[0].edges, 0, e0, {} + {0}) == [e1, e2]
            && Successors(g[1].edges, 0, e1, {} + {0} + {1}) == [e3]
            && Successors(g[2].edges, 0, e2, {} + {0} + {1} + {2}) == [e4]
  {
    var g := Square();
    var edges := g[0].edges;
    assert edges[..1] == [edges[0]] && edges[..1][..0] == [];
    assert Successors(edges[..1], 0, e0, {0}) == [e1];
    assert g[1].edges[..0] == [] && g[2].edges[..0] == [];
  }

  // One turn of the search for another vertex than the head's.
  lemma SearchTurn(g: seq<Vertex>, dyn: ClassId, target: ClassId, queue: seq<QueueEntry>, visited: set<ClassId>,
                   next: seq<QueueEntry>)
    requires Searching(g, queue, visited) && queue != [] && queue[0].node.vertex < |g| && queue[0].node.vertex != target
    requires next == Successors(g[queue[0].node.vertex].edges, dyn, queue[0], visited + {queue[0].node.vertex})
    ensures Searching(g, queue[1..] + next, visited + {queue[0].node.vertex})
    ensures Search(g, dyn, target, queue, visited)
              == Search(g, dyn, target, queue[1..] + next, visited + {queue[0].node.vertex})
    ensures |queue| == 1 ==> queue[1..] + next == next
    ensures next == [] ==> queue[1..] + next == queue[1..]
    ensures |queue| == 2 ==> queue[1..] == [queue[1]]
  {
    SearchStep(g, dyn, queue, visited);
    hide Searching, Weight, Successors;
  }

  lemma SearchEnds(g: seq<Vertex>, dyn: ClassId, target: ClassId, visited: set<ClassId>)
    requires Searching(g, [], visited)
    ensures Search(g, dyn, target, [], visited) == None
  {
  }

  lemma DiamondChain()
    ensures ValidGraph(Diamond()) && |Diamond()| == 4
    ensures exists path :: Chain(Diamond(), 0, Node(0, 0), path) && Last(path).vertex == 3
  {
    var g, path := Diamond(), [Node(0, 0), Node(2, 0), Node(1, 1), Node(3, 1)];
    assert CastsBy(g, 0, path[0], path[1], 1) && CastsBy(g, 0, path[1], path[2], 0)
        && CastsBy(g, 0, path[2], path[3], 0);
    assert forall i :: 0 <= i < 3 ==> Linked(g, 0, path, i);
    assert Chain(g, 0, Node(0, 0), path);
  }

  lemma DiamondSteps(e0: QueueEntry, e1: QueueEntry, e2: QueueEntry)
    requires e0 == QueueEntry(Node(0, 0), 0) && e1 == QueueEntry(Node(1, 0), 1) && e2 == QueueEntry(Node(2, 0), 1)
    ensures var g := Diamond();
            && Successors(g[0].edges, 0, e0, {} + {0}) == [e1, e2]
            && Successors(g[1].edges, 0, e1, {} + {0} + {1}) == []
            && Successors(g[2].edges, 0, e2, {} + {0} + {1} + {2}) == []
  {
    var g := Diamond();
    var edges := g[0].edges;
    assert edges[..1] == [edges[0]] && edges[..1][..0] == [];
    assert Successors(edges[..1], 0, e0, {0}) == [e1];
    assert g[1].edges[..0] == [] && g[2].edges[..0] == [];
  }
}
