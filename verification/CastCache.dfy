/** The cast graph as it is used: edges are inserted, casts are asked for, and
    the answers are remembered until the graph changes. */
module CastCache {
  import opened Options
  import opened CastGraph

  // Answers are kept for a place in an object of a dynamic class, not for a pointer.
  datatype Key = Key(src: ClassId, target: ClassId, dynamicId: ClassId, objectOffset: int)

  datatype CacheEntry = CacheEntry(offset: int, distance: int)

  const UNKNOWN: int := 0x7fff_ffff_ffff_ffff
  const INVALID: int := UNKNOWN - 1

  // An entry of the queue with the pointer that the casts produced.
  datatype QueueItem = QueueItem(p: int, vertexId: ClassId, distance: nat)

  ghost predicate Stands(item: QueueItem, e: QueueEntry, base: int) {
    item.p == base + e.node.offset && item.vertexId == e.node.vertex && item.distance == e.distance
  }

  ghost predicate StandFor(items: seq<QueueItem>, entries: seq<QueueEntry>, base: int) {
    |items| == |entries| && forall i :: 0 <= i < |items| ==> Stands(items[i], entries[i], base)
  }

  // Calling a cast function with a pointer into an object at base.
  function CallCast(cast: CastFunction, dyn: ClassId, base: int, p: int): Option<int>
    requires 0 <= p - base < 0x4000_0000_0000_0000
  {
    match cast(dyn, p - base)
    case None => None
    case Some(o) => Some(base + o)
  }

  // What cast returns; None is the null pointer.
  datatype CastResult = CastResult(pointer: Option<int>, distance: int)

  // What an uncached search of the graph answers to cast.
  ghost function Answer(g: seq<Vertex>, p: int, src: ClassId, target: ClassId, dyn: ClassId, base: int): CastResult
    requires ValidGraph(g) && 0 <= p - base < 0x4000_0000_0000_0000
  {
    if src == target then CastResult(Some(p), 0)
    else if src >= |g| || target >= |g| then CastResult(None, -1)
    else
      match Uncached(g, dyn, Node(src, p - base), target)
      case None => CastResult(None, -1)
      case Some(e) => CastResult(Some(base + e.node.offset), e.distance)
  }

  // Outside the graph no cast leads away from a class, and none leads there.
  lemma {:induction false} ChainInGraph(g: seq<Vertex>, dyn: ClassId, start: Node, path: seq<Node>)
    requires ValidGraph(g) && Chain(g, dyn, start, path) && |path| > 1
    ensures start.vertex < |g| && Last(path).vertex < |g|
  {
    hide SortedEdges;
    assert Linked(g, dyn, path, 0) && Linked(g, dyn, path, |path| - 2);
    var i :| CastsBy(g, dyn, path[|path| - 2], path[|path| - 1], i);
    var j :| CastsBy(g, dyn, path[0], path[1], j);
  }

  /** What an uncached search answers, said with chains of casts: the end of one,
      or nothing; when chains agree on the pointer, the end of a shortest one
      exactly if there is one. */
  lemma AnswerIsChain(g: seq<Vertex>, p: int, src: ClassId, target: ClassId, dyn: ClassId, base: int)
    requires ValidGraph(g) && 0 <= p - base < 0x4000_0000_0000_0000
    ensures var r, start := Answer(g, p, src, target, dyn, base), Node(src, p - base);
            && (r.pointer.None? ==> r.distance == -1)
            && (r.pointer.Some? ==>
                  exists path :: LeadsTo(g, dyn, start, target, path)
                                 && r == CastResult(Some(base + Last(path).offset), |path| - 1))
            && (Coherent(g, dyn, start) ==>
                  forall path :: LeadsTo(g, dyn, start, target, path) ==>
                    r.pointer.Some? && r.distance < |path|)
  {
    var r, start := Answer(g, p, src, target, dyn, base), Node(src, p - base);
    hide Uncached, ValidGraph, Coherent, Linked;
    if src == target {
      assert LeadsTo(g, dyn, start, target, [start]) && Last([start]) == start;
    } else if src >= |g| || target >= |g| {
      forall path | LeadsTo(g, dyn, start, target, path) ensures false {
        if |path| > 1 { ChainInGraph(g, dyn, start, path); }
      }
    } else {
      UncachedSound(g, dyn, start, target);
      var hit := Uncached(g, dyn, start, target);
      if hit.Some? {
        var path :| ReachedBy(g, dyn, start, hit.value, path);
        assert LeadsTo(g, dyn, start, target, path);
      }
      if Coherent(g, dyn, start) { UncachedIsShortest(g, dyn, start, target); }
    }
  }

  // The cache entry that remembers the outcome of a search from offset o.
  function Remembered(hit: Option<QueueEntry>, o: int): CacheEntry {
    match hit
    case None => CacheEntry(INVALID, -1)
    case Some(e) => CacheEntry(e.node.offset - o, e.distance)
  }

  ghost predicate EntrySound(g: seq<Vertex>, k: Key, entry: CacheEntry)
    requires ValidGraph(g)
  {
    && k.src < |g| && 0 <= -k.objectOffset < 0x4000_0000_0000_0000
    && entry == Remembered(Uncached(g, k.dynamicId, Node(k.src, -k.objectOffset), k.target), -k.objectOffset)
  }

  ghost predicate CacheSound(g: seq<Vertex>, cache: map<Key, CacheEntry>)
    requires ValidGraph(g)
  {
    forall k :: k in cache ==> EntrySound(g, k, cache[k])
  }

  // ---- insertion ----

  // The number of edges with a smaller target: where std::lower_bound stops.
  function LowerBound(edges: seq<Edge>, target: ClassId): (i: nat)
    ensures i <= |edges|
    ensures forall k :: 0 <= k < i ==> edges[k].target < target
    ensures i < |edges| ==> edges[i].target >= target
  {
    if edges == [] || edges[0].target >= target then 0 else 1 + LowerBound(edges[1..], target)
  }

  function Grown(g: seq<Vertex>, n: nat): (g': seq<Vertex>)
    ensures |g'| == if |g| < n then n else |g|
    ensures forall v :: 0 <= v < |g'| ==> g'[v] == if v < |g| then g[v] else Vertex(v, [])
  {
    if |g| < n then g + seq(n - |g|, i requires 0 <= i => Vertex(|g| + i, [])) else g
  }

  // The cast of the edge from a to b, if there is one.
  ghost function EdgeOf(g: seq<Vertex>, a: ClassId, b: ClassId): Option<CastFunction> {
    if a >= |g| then None else Find(g[a].edges, b)
  }

  // The first cast given for an edge stays.
  function WithEdge(edges: seq<Edge>, target: ClassId, cast: CastFunction): seq<Edge> {
    var i := LowerBound(edges, target);
    if i < |edges| && edges[i].target == target then edges
    else edges[..i] + [Edge(target, cast)] + edges[i..]
  }

  function Inserted(g: seq<Vertex>, src: ClassId, target: ClassId, cast: CastFunction): (g': seq<Vertex>)
    ensures |g| <= |g'| && src < |g'| && target < |g'|
  {
    var h := Grown(g, (if src < target then target else src) + 1);
    h[src := Vertex(h[src].id, WithEdge(h[src].edges, target, cast))]
  }

  // In sorted edges the lower bound is the one place where a target can stand.
  lemma {:induction false} LowerBoundUnique(edges: seq<Edge>, target: ClassId, i: nat)
    requires SortedEdges(edges) && i <= |edges|
    requires forall k :: 0 <= k < i ==> edges[k].target < target
    requires i < |edges| ==> edges[i].target >= target
    ensures i == LowerBound(edges, target)
  {
    var j := LowerBound(edges, target);
    assert (i < |edges| ==> edges[i].target >= target) && (j < |edges| ==> edges[j].target >= target);
  }

  lemma {:induction false} WithEdgeSorted(edges: seq<Edge>, target: ClassId, cast: CastFunction)
    requires SortedEdges(edges)
    ensures SortedEdges(WithEdge(edges, target, cast))
  {
    var i := LowerBound(edges, target);
    var edges' := WithEdge(edges, target, cast);
    if edges' != edges {
      forall a, b | 0 <= a < b < |edges'| ensures edges'[a].target < edges'[b].target {
        assert a != i ==> edges'[a] == edges[if a < i then a else a - 1];
        assert b != i ==> edges'[b] == edges[if b < i then b else b - 1];
        if a == i && i < |edges| { assert edges[i].target > target; }
      }
    }
  }

  // The edges of a vertex with one edge put in where the lower bound is.
  lemma WithEdgeAt(edges: seq<Edge>, target: ClassId, cast: CastFunction, k: nat)
    requires k < |WithEdge(edges, target, cast)|
    ensures var e := WithEdge(edges, target, cast)[k];
            e in edges || e == Edge(target, cast)
  {
    hide LowerBound;
  }

  lemma ReplacedValid(h: seq<Vertex>, src: ClassId, edges: seq<Edge>)
    requires ValidGraph(h) && src < |h| && SortedEdges(edges)
    requires forall i :: 0 <= i < |edges| ==> edges[i].target < |h|
    ensures ValidGraph(h[src := Vertex(h[src].id, edges)])
  {
    hide SortedEdges;
  }

  /** Insertion keeps the graph valid: vertices numbered, edges sorted and free of duplicates. */
  lemma {:induction false} InsertedValid(g: seq<Vertex>, src: ClassId, target: ClassId, cast: CastFunction)
    requires ValidGraph(g)
    ensures ValidGraph(Inserted(g, src, target, cast))
  {
    hide WithEdge, SortedEdges, ValidGraph, Grown;
    var n := (if src < target then target else src) + 1;
    var h := Grown(g, n);
    GrownValid(g, n);
    ValidVertex(h, src);
    WithEdgeSorted(h[src].edges, target, cast);
    var edges := WithEdge(h[src].edges, target, cast);
    forall i | 0 <= i < |edges| ensures edges[i].target < |h| { WithEdgeAt(h[src].edges, target, cast, i); }
    ReplacedValid(h, src, edges);
  }

  lemma ValidVertex(g: seq<Vertex>, v: ClassId)
    requires ValidGraph(g) && v < |g|
    ensures SortedEdges(g[v].edges) && forall i :: 0 <= i < |g[v].edges| ==> g[v].edges[i].target < |g|
  {
  }

  lemma GrownValid(g: seq<Vertex>, n: nat)
    requires ValidGraph(g)
    ensures ValidGraph(Grown(g, n))
  {
    var h := Grown(g, n);
    forall v | 0 <= v < |h| ensures h[v].id == v && SortedEdges(h[v].edges) {
    }
  }

  // Putting an edge in moves the lower bounds after it by one.
  lemma {:induction false} WithEdgeFinds(edges: seq<Edge>, target: ClassId, cast: CastFunction, b: ClassId)
    requires SortedEdges(edges) && WithEdge(edges, target, cast) != edges
    ensures LowerBound(WithEdge(edges, target, cast), b) == LowerBound(edges, b) + if b <= target then 0 else 1
  {
    var t, i := LowerBound(edges, target), LowerBound(edges, b);
    var edges' := WithEdge(edges, target, cast);
    WithEdgeSorted(edges, target, cast);
    if b < target { Ordered(edges, b, target); } else { Ordered(edges, target, b); }
    assert edges' == edges[..t] + [Edge(target, cast)] + edges[t..];
    var j := if b <= target then i else i + 1;
    hide LowerBound, SortedEdges, WithEdge;
    forall k | 0 <= k < j ensures edges'[k].target < b {
      if k < t { assert edges'[k] == edges[k]; } else if k > t { assert edges'[k] == edges[k - 1]; }
    }
    if j < |edges'| {
      if j < t { assert edges'[j] == edges[j]; } else if j > t { assert edges'[j] == edges[j - 1]; }
    }
    LowerBoundUnique(edges', b, j);
  }

  lemma {:induction false} Ordered(edges: seq<Edge>, a: ClassId, b: ClassId)
    requires SortedEdges(edges) && a <= b
    ensures LowerBound(edges, a) <= LowerBound(edges, b)
  {
    var i, j := LowerBound(edges, a), LowerBound(edges, b);
    assert j < |edges| ==> edges[j].target >= b;
  }

  // The edge that a target's lower bound finds.
  ghost function Find(edges: seq<Edge>, b: ClassId): Option<CastFunction> {
    var i := LowerBound(edges, b);
    if i < |edges| && edges[i].target == b then Some(edges[i].cast) else None
  }

  lemma {:induction false} FindWithEdge(edges: seq<Edge>, target: ClassId, cast: CastFunction, b: ClassId)
    requires SortedEdges(edges)
    ensures Find(WithEdge(edges, target, cast), b)
            == if b == target && Find(edges, b) == None then Some(cast) else Find(edges, b)
  {
    var edges' := WithEdge(edges, target, cast);
    hide LowerBound, SortedEdges;
    if edges' != edges {
      WithEdgeFinds(edges, target, cast, b);
      var t, i := LowerBound(edges, target), LowerBound(edges, b);
      if b < target { Ordered(edges, b, target); } else { Ordered(edges, target, b); }
    }
  }

  /** An edge that is found is one that stands among its source's edges. */
  lemma {:induction false} EdgeOfMeans(g: seq<Vertex>, a: ClassId, b: ClassId, cast: CastFunction)
    requires ValidGraph(g)
    ensures EdgeOf(g, a, b) == Some(cast) <==> a < |g| && Edge(b, cast) in g[a].edges
  {
    if a < |g| {
      var edges := g[a].edges;
      if Edge(b, cast) in edges {
        var i :| 0 <= i < |edges| && edges[i] == Edge(b, cast);
        LowerBoundUnique(edges, b, i);
      }
    }
  }

  /** An insertion adds exactly its own edge, and only when there was none. */
  lemma {:induction false} InsertedEdges(g: seq<Vertex>, src: ClassId, target: ClassId, cast: CastFunction, a: ClassId,
                                         b: ClassId)
    requires ValidGraph(g)
    ensures EdgeOf(Inserted(g, src, target, cast), a, b)
            == if a == src && b == target && EdgeOf(g, a, b) == None then Some(cast) else EdgeOf(g, a, b)
  {
    var h := Grown(g, (if src < target then target else src) + 1);
    GrownValid(g, |h|);
    if a == src {
      FindWithEdge(h[src].edges, target, cast, b);
    }
    hide WithEdge, SortedEdges, LowerBound;
    assert a >= |g| ==> Find([], b) == None;
    assert EdgeOf(h, a, b) == EdgeOf(g, a, b);
  }

  // An edge that is already there is left alone, and its vertices exist.
  lemma InsertedAgain(g: seq<Vertex>, src: ClassId, target: ClassId, cast: CastFunction)
    requires ValidGraph(g) && EdgeOf(g, src, target) != None
    ensures Inserted(g, src, target, cast) == g
  {
  }

  class Impl {
    var graph: seq<Vertex>
    var cache: map<Key, CacheEntry>

    ghost predicate Valid()
      reads this
    {
      ValidGraph(graph) && CacheSound(graph, cache)
    }

    constructor ()
      ensures Valid() && graph == [] && cache == map[]
    {
      graph, cache := [], map[];
    }

    // cache::get
    method Get(k: Key) returns (entry: CacheEntry)
      ensures entry == if k in cache then cache[k] else CacheEntry(UNKNOWN, -1)
    {
      entry := if k in cache then cache[k] else CacheEntry(UNKNOWN, -1);
    }

    // cache::put_entry: an entry that is already there stays.
    method PutEntry(k: Key, offset: int, distance: int)
      modifies `cache
      ensures cache == if k in old(cache) then old(cache) else old(cache)[k := CacheEntry(offset, distance)]
    {
      if k !in cache { cache := cache[k := CacheEntry(offset, distance)]; }
    }

    // The vertices up to the largest id are added.
    method Grow(maxId: ClassId)
      modifies `graph
      ensures graph == Grown(old(graph), maxId + 1)
    {
      if maxId >= |graph| {
        var i := |graph|;
        while i < maxId + 1
          invariant |old(graph)| <= i <= maxId + 1 && |graph| == i
          invariant forall v :: 0 <= v < i ==> graph[v] == if v < |old(graph)| then old(graph)[v] else Vertex(v, [])
        {
          graph := graph + [Vertex(i, [])];
          i := i + 1;
        }
      }
    }

    /** insert_impl: the graph never changes without the cache being emptied. */
    method Insert(src: ClassId, target: ClassId, cast: CastFunction)
      requires Valid()
      modifies this
      ensures Valid() && graph == Inserted(old(graph), src, target, cast)
      ensures cache == if EdgeOf(old(graph), src, target) == None then map[] else old(cache)
    {
      ghost var g := graph;
      var maxId := if src < target then target else src;
      Grow(maxId);
      ghost var h := graph;
      GrownValid(g, maxId + 1);
      InsertedValid(g, src, target, cast);
      assert SortedEdges(h[src].edges);
      assert EdgeOf(h, src, target) == EdgeOf(g, src, target);
      hide ValidGraph, CacheSound, SortedEdges, Grown;
      var edges := graph[src].edges;
      var ii := FindLowerBound(edges, target);
      if ii == |edges| || edges[ii].target != target {
        edges := edges[..ii] + [Edge(target, cast)] + edges[ii..];
        graph := graph[src := Vertex(graph[src].id, edges)];
        cache := map[];
        EmptySound(graph);
      } else {
        InsertedAgain(g, src, target, cast);
        assert graph == h[src := Vertex(h[src].id, WithEdge(h[src].edges, target, cast))];
      }
    }

    lemma EmptySound(g: seq<Vertex>)
      requires ValidGraph(g)
      ensures CacheSound(g, map[])
    {
    }

    // std::lower_bound on edges ordered by target
    method FindLowerBound(edges: seq<Edge>, target: ClassId) returns (i: nat)
      requires SortedEdges(edges)
      ensures i == LowerBound(edges, target)
    {
      i := 0;
      var end := |edges|;
      while i < end
        invariant 0 <= i <= end <= |edges|
        invariant forall k :: 0 <= k < i ==> edges[k].target < target
        invariant end < |edges| ==> edges[end].target >= target
      {
        var mid := (i + end) / 2;
        if edges[mid].target < target { i := mid + 1; } else { end := mid; }
      }
      LowerBoundUnique(edges, target, i);
    }

    /** cast: whatever was inserted and asked before, the answer is the one an
        uncached search of the present graph gives, also when it comes from an
        entry that was made for another object. A pointer that is returned is the
        end of a chain of that many casts; the end of a shortest one is returned
        whenever there is one and chains agree on the pointer. */
    method Cast(p: int, src: ClassId, target: ClassId, dynamicId: ClassId, dynamicPtr: int) returns (r: CastResult)
      requires Valid() && 0 <= p - dynamicPtr < 0x4000_0000_0000_0000
      modifies `cache
      ensures Valid() && r == Answer(graph, p, src, target, dynamicId, dynamicPtr)
      ensures r.pointer.None? ==> r.distance == -1
      ensures r.pointer.Some? ==>
                exists path :: LeadsTo(graph, dynamicId, Node(src, p - dynamicPtr), target, path)
                               && r == CastResult(Some(dynamicPtr + Last(path).offset), |path| - 1)
      ensures Coherent(graph, dynamicId, Node(src, p - dynamicPtr)) ==>
                forall path :: LeadsTo(graph, dynamicId, Node(src, p - dynamicPtr), target, path) ==>
                  r.pointer.Some? && r.distance < |path|
    {
      hide Coherent, LeadsTo, Linked;
      AnswerIsChain(graph, p, src, target, dynamicId, dynamicPtr);
      if src == target { return CastResult(Some(p), 0); }
      if src >= |graph| || target >= |graph| { return CastResult(None, -1); }
      var key := Key(src, target, dynamicId, dynamicPtr - p);
      var cached := Get(key);
      ghost var hit := Uncached(graph, dynamicId, Node(src, p - dynamicPtr), target);
      CachedAnswer(graph, cache, key, p, dynamicPtr, cached);
      if cached.offset != UNKNOWN {
        if cached.offset == INVALID { return CastResult(None, -1); }
        return CastResult(Some(p + cached.offset), cached.distance);
      }
      var found := SearchUncached(p, src, target, dynamicId, dynamicPtr);
      hide Uncached, ValidGraph;
      if found.None? {
        PutEntry(key, INVALID, -1);
        r := CastResult(None, -1);
      } else {
        PutEntry(key, found.value.p - p, found.value.distance);
        r := CastResult(Some(found.value.p), found.value.distance);
      }
    }

    // The loop of cast.
    method SearchUncached(p: int, src: ClassId, target: ClassId, dynamicId: ClassId,
                          base: int) returns (found: Option<QueueItem>)
      requires ValidGraph(graph) && src < |graph| && target < |graph| && 0 <= p - base < 0x4000_0000_0000_0000
      ensures match Uncached(graph, dynamicId, Node(src, p - base), target)
              case None => found == None
              case Some(e) => found.Some? && Stands(found.value, e, base)
    {
      hide *;
      ghost var start: Node := Node(src, p - base);
      var q := [QueueItem(p, src, 0)];
      var visited := seq(|graph|, _ => false);
      ghost var queue, seen := [QueueEntry(start, 0)], {};
      UncachedStarts(graph, dynamicId, start, target);
      StartStands(p, src, base);
      while q != []
        invariant StandFor(q, queue, base) && |visited| == |graph| && Searching(graph, queue, seen)
        invariant forall v :: 0 <= v < |graph| ==> (visited[v] <==> v in seen)
        invariant Search(graph, dynamicId, target, queue, seen) == Uncached(graph, dynamicId, start, target)
        decreases Weight(queue, |graph|)
      {
        var qe := q[0];
        StandsHead(q, queue, base);
        ghost var e := queue[0];
        SearchingHead(graph, queue, seen);
        StandsMeans(qe, e, base);
        IdIsIndex(graph, qe.vertexId);
        q := q[1..];
        visited := visited[qe.vertexId := true];
        if graph[qe.vertexId].id == target {
          SearchHits(graph, dynamicId, target, queue, seen);
          return Some(qe);
        }
        SearchStep(graph, dynamicId, queue, seen);
        ghost var next := Successors(graph[e.node.vertex].edges, dynamicId, e, seen + {e.node.vertex});
        SearchTurn(graph, dynamicId, target, queue, seen, next);
        seen := seen + {e.node.vertex};
        q := PushEdges(graph[qe.vertexId].edges, q, qe, visited, dynamicId, base, queue[1..], e, seen);
        queue := queue[1..] + next;
      }
      StandsHead(q, queue, base);
      SearchEnds(graph, dynamicId, target, seen);
      found := None;
    }

    // The inner loop of cast over the edges of the dequeued vertex.
    method PushEdges(edges: seq<Edge>, q: seq<QueueItem>, qe: QueueItem, visited: seq<bool>, dynamicId: ClassId,
                     base: int,
                     ghost queue: seq<QueueEntry>, ghost e: QueueEntry,
                         ghost seen: set<ClassId>) returns (q': seq<QueueItem>)
      requires StandFor(q, queue, base) && Stands(qe, e, base)
      requires forall i :: 0 <= i < |edges| ==> edges[i].target < |visited|
      requires forall v :: 0 <= v < |visited| ==> (visited[v] <==> v in seen)
      ensures StandFor(q', queue + Successors(edges, dynamicId, e, seen), base)
    {
      hide *;
      q' := q;
      var i := 0;
      SuccessorsNext(edges, dynamicId, e, seen, 0);
      assert queue + [] == queue;
      while i < |edges|
        invariant 0 <= i <= |edges|
        invariant StandFor(q', queue + Successors(edges[..i], dynamicId, e, seen), base)
      {
        SuccessorsNext(edges, dynamicId, e, seen, i);
        var edge := edges[i];
        if !visited[edge.target] {
          StandsMeans(qe, e, base);
          var casted := CallCast(edge.cast, dynamicId, base, qe.p);
          PushedStands(edge, dynamicId, qe, e, base, seen);
          if casted.Some? {
            var item := QueueItem(casted.value, edge.target, qe.distance + 1);
            StandsMore(q', item, queue, Successors(edges[..i], dynamicId, e, seen), Pushed(edge, dynamicId, e, seen),
                base);
            q' := q' + [item];
          }
        } else {
          PushedNothing(edge, dynamicId, e, seen);
        }
        assert Successors(edges[..i], dynamicId, e, seen) + [] == Successors(edges[..i], dynamicId, e, seen);
        i := i + 1;
      }
      assert edges[..i] == edges;
    }
  }

  lemma StandsMeans(item: QueueItem, e: QueueEntry, base: int)
    requires Stands(item, e, base)
    ensures item.p - base == e.node.offset && item.vertexId == e.node.vertex && item.distance == e.distance
  {
  }

  lemma PushedNothing(edge: Edge, dyn: ClassId, e: QueueEntry, visited: set<ClassId>)
    requires edge.target in visited
    ensures Pushed(edge, dyn, e, visited) == []
  {
  }

  lemma PushedStands(edge: Edge, dyn: ClassId, qe: QueueItem, e: QueueEntry, base: int, visited: set<ClassId>)
    requires Stands(qe, e, base) && edge.target !in visited
    ensures var casted := CallCast(edge.cast, dyn, base, qe.p);
            var pushed := Pushed(edge, dyn, e, visited);
            if casted.None? then pushed == []
            else |pushed| == 1 && Stands(QueueItem(casted.value, edge.target, qe.distance + 1), pushed[0], base)
  {
  }

  lemma StandsMore(q: seq<QueueItem>, item: QueueItem, queue: seq<QueueEntry>, a: seq<QueueEntry>, b: seq<QueueEntry>,
                   base: int)
    requires StandFor(q, queue + a, base) && |b| == 1 && Stands(item, b[0], base)
    ensures StandFor(q + [item], queue + (a + b), base)
  {
    hide Stands;
    assert queue + (a + b) == (queue + a) + b;
  }

  lemma StartStands(p: int, src: ClassId, base: int)
    requires 0 <= p - base < 0x4000_0000_0000_0000
    ensures StandFor([QueueItem(p, src, 0)], [QueueEntry(Node(src, p - base), 0)], base)
  {
  }

  lemma SearchHits(g: seq<Vertex>, dyn: ClassId, target: ClassId, queue: seq<QueueEntry>, visited: set<ClassId>)
    requires Searching(g, queue, visited) && queue != [] && queue[0].node.vertex == target
    ensures Search(g, dyn, target, queue, visited) == Some(queue[0])
  {
    hide Searching, Weight;
  }

  lemma StandsHead(q: seq<QueueItem>, queue: seq<QueueEntry>, base: int)
    requires StandFor(q, queue, base)
    ensures |q| == |queue|
    ensures q != [] ==> Stands(q[0], queue[0], base) && StandFor(q[1..], queue[1..], base)
  {
    hide Stands;
  }

  lemma SuccessorsNext(edges: seq<Edge>, dyn: ClassId, e: QueueEntry, visited: set<ClassId>, i: nat)
    requires i <= |edges|
    ensures Successors(edges[..0], dyn, e, visited) == []
    ensures i < |edges| ==>
              Successors(edges[..i + 1], dyn, e, visited)
                  == Successors(edges[..i], dyn, e, visited) + Pushed(edges[i], dyn, e, visited)
  {
    if i < |edges| { assert edges[..i + 1][..i] == edges[..i]; }
  }

  lemma IdIsIndex(g: seq<Vertex>, v: ClassId)
    requires ValidGraph(g) && v < |g|
    ensures g[v].id == v && forall i :: 0 <= i < |g[v].edges| ==> g[v].edges[i].target < |g|
  {
  }

  // A cached entry is told apart from the two sentinels, and it gives the answer.
  lemma CachedAnswer(g: seq<Vertex>, cache: map<Key, CacheEntry>, k: Key, p: int, base: int, cached: CacheEntry)
    requires ValidGraph(g) && CacheSound(g, cache) && k.src < |g| && k.target < |g| && k.src != k.target
    requires k.objectOffset == base - p && 0 <= p - base < 0x4000_0000_0000_0000
    requires cached == if k in cache then cache[k] else CacheEntry(UNKNOWN, -1)
    ensures cached.offset != UNKNOWN <==> k in cache
    ensures k in cache ==>
              Answer(g, p, k.src, k.target, k.dynamicId, base)
              == if cached.offset == INVALID then CastResult(None, -1)
                  else CastResult(Some(p + cached.offset), cached.distance)
    ensures k in cache ==> EntrySound(g, k, cache[k])
  {
    hide Uncached, ValidGraph;
  }
}
