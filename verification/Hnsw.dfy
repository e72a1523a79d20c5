/**
 * The HNSW index: a mutable graph with bounded degrees on every level, searched best first. The graph invariant bounds
 * the edges of every vertex, keeps edges on the levels their targets reach, and keeps every weight equal to the
 * distance; the store invariant says that the shards hold exactly the vertices that were not removed.
 */
module HnswIndex {
  import opened Common
  import opened HeapOrder
  import opened PriorityQueues
  import opened TopK
  import opened Graphs
  import opened QueueSets
  import opened BestFirst
  import opened HnswLinks
  import opened HnswVertices

  const VERTICES_MAP_SHARD_COUNT: nat := 16

  /** `gomath.MaxFloat`, the largest 32-bit float. */
  const MAX_FLOAT: real := 340282346638528859811704183484516925440.0

  /** One result of a search. */
  datatype SearchItem<M> = SearchItem(id: nat, metadata: M, score: real)

  datatype Error = ItemNotFound | ItemAlreadyExists

  datatype Config = Config(heuristic: bool, ef: int, efConstruction: int, m: nat, mMax: nat, mMax0: nat, keepPruned: bool)

  class Hnsw<V(!new), M> {
    const distance: (V, V) -> real
    const cosine: bool
    const normalize: V -> V
    const config: Config
    /** The hash behind `sharding.ShardVertex`. */
    const hash: nat -> nat

    var len: nat
    var vertices: seq<map<nat, Vertex<V, M>>>
    var entrypoint: Vertex?<V, M>
    /** Every vertex that was ever stored. */
    ghost var all: set<Vertex<V, M>>

    // ---------- the graph invariant ----------

    function MaxEdges(l: nat): nat {
      if l == 0 then config.mMax0 else config.mMax
    }

    /** An edge set of `v` on level `l`: no edge to itself, targets that reach this level, weights
        that are the distances. */
    ghost predicate EdgesOk(v: Vertex<V, M>, l: nat, es: map<Vertex<V, M>, real>, within: set<Vertex<V, M>>) {
      forall n :: n in es ==> n in within && n != v && n.level >= l && es[n] == distance(v.vector, n.vector)
    }

    ghost predicate VertexOk(v: Vertex<V, M>, within: set<Vertex<V, M>>)
      reads v`edges
    {
      |v.edges| == v.level + 1
      && forall l :: 0 <= l <= v.level ==> EdgesOk(v, l, v.edges[l], within) && |v.edges[l]| <= MaxEdges(l)
    }

    ghost predicate GraphInv()
      reads this`all, all`edges
    {
      forall v :: v in all ==> VertexOk(v, all)
    }

    function ShardOf(id: nat): (s: nat)
      ensures s < VERTICES_MAP_SHARD_COUNT
    {
      hash(id) % VERTICES_MAP_SHARD_COUNT
    }

    ghost function Dead(): set<Vertex<V, M>>
      reads this`all, all`deleted
    {
      set v | v in all && v.deleted
    }

    /** What a shard holds under an id. */
    ghost predicate EntryOk(v: Vertex<V, M>, s: nat, id: nat, stored: set<Vertex<V, M>>, dead: set<Vertex<V, M>>) {
      v in stored && v !in dead && v.id == id && ShardOf(id) == s
    }

    ghost predicate StoredAt(shards: seq<map<nat, Vertex<V, M>>>, v: Vertex<V, M>) {
      |shards| == VERTICES_MAP_SHARD_COUNT && v.id in shards[ShardOf(v.id)] && shards[ShardOf(v.id)][v.id] == v
    }

    /** The shards hold exactly the vertices that are not dead, each under its id. */
    ghost predicate StoreOk(shards: seq<map<nat, Vertex<V, M>>>, stored: set<Vertex<V, M>>, dead: set<Vertex<V, M>>) {
      |shards| == VERTICES_MAP_SHARD_COUNT
      && (forall s: nat, id: nat :: s < |shards| && id in shards[s] ==> EntryOk(shards[s][id], s, id, stored, dead))
      && (forall v :: v in stored ==> v in dead || StoredAt(shards, v))
    }

    ghost predicate StoreInv()
      reads this`all, this`vertices, all`deleted
    {
      StoreOk(vertices, all, Dead())
    }

    static ghost function TotalSize(shards: seq<map<nat, Vertex<V, M>>>): nat {
      if shards == [] then 0 else TotalSize(shards[..|shards| - 1]) + |shards[|shards| - 1]|
    }

    ghost predicate Symmetric() {
      forall a, b :: distance(a, b) == distance(b, a)
    }

    ghost predicate Valid()
      reads this, all
    {
      GraphInv() && StoreInv() && len == TotalSize(vertices)
      && (entrypoint != null ==> entrypoint in all)
      && Symmetric() && config.m <= config.mMax && config.m <= config.mMax0
    }

    /** `NewHnsw`. */
    constructor (distance: (V, V) -> real, cosine: bool, normalize: V -> V, config: Config, hash: nat -> nat)
      requires forall a, b :: distance(a, b) == distance(b, a)
      requires config.m <= config.mMax && config.m <= config.mMax0
      ensures Valid() && len == 0 && entrypoint == null && all == {}
      ensures this.distance == distance && this.cosine == cosine && this.normalize == normalize
      ensures this.config == config && this.hash == hash
    {
      this.distance := distance;
      this.cosine := cosine;
      this.normalize := normalize;
      this.config := config;
      this.hash := hash;
      len := 0;
      vertices := seq(VERTICES_MAP_SHARD_COUNT, _ => map[]);
      entrypoint := null;
      all := {};
      new;
      EmptyTotal(vertices);
    }

    static lemma {:induction false} EmptyTotal(shards: seq<map<nat, Vertex<V, M>>>)
      requires forall s :: 0 <= s < |shards| ==> shards[s] == map[]
      ensures TotalSize(shards) == 0
    {
      if shards != [] {
        EmptyTotal(shards[..|shards| - 1]);
      }
    }

    // ---------- neighbours on a level ----------

    /** The neighbours a search follows: the live ones. */
    ghost function LiveNeighbors(v: Vertex<V, M>, l: nat): set<Vertex<V, M>>
      requires l < |v.edges|
      reads v, v.edges[l].Keys
    {
      set n | n in v.edges[l].Keys && !n.deleted
    }

    ghost predicate OnLevel(v: Vertex<V, M>, l: nat)
      reads this`all
    {
      v in all && v.level >= l
    }

    /** The graph a search on level `l` walks. */
    ghost function Graph(l: nat): map<Vertex<V, M>, set<Vertex<V, M>>>
      requires GraphInv()
      reads this, all
    {
      map v | v in all && v.level >= l :: LiveNeighbors(v, l)
    }

    /** All edge sets, as a value. */
    ghost function EdgesNow(): Edges<Vertex<V, M>>
      reads this`all, all`edges
    {
      map v | v in all :: v.edges
    }

    lemma EdgesAre()
      ensures EdgesNow().Keys == all && forall w :: w in all ==> EdgesNow()[w] == w.edges
    {
    }

    lemma GraphOfEdges(l: nat)
      requires GraphInv()
      ensures Graph(l) == LevelGraph(EdgesNow(), Dead(), l)
    {
      forall v | v in all
        ensures v.level >= l <==> l < |v.edges|
        ensures l < |v.edges| ==> LiveNeighbors(v, l) == v.edges[l].Keys - Dead()
      {
        assert VertexOk(v, all);
        assert l < |v.edges| ==> EdgesOk(v, l, v.edges[l], all);
      }
    }

    lemma GraphFacts(l: nat)
      requires GraphInv()
      ensures GraphOk(Graph(l))
      ensures forall v :: v in Graph(l) <==> OnLevel(v, l)
    {
      forall v | v in Graph(l)
        ensures Graph(l)[v] <= Graph(l).Keys
      {
        assert VertexOk(v, all);
        assert EdgesOk(v, l, v.edges[l], all);
      }
    }

    function DistanceTo(query: V): Vertex<V, M> -> real {
      (v: Vertex<V, M>) => distance(query, v.vector)
    }

    // ---------- greedyClosestNeighbor ----------

    /** Vertices nearer than `d`: what is left for the greedy walk. */
    ghost function Nearer(query: V, d: real): set<Vertex<V, M>>
      reads this
    {
      set v | v in all && distance(query, v.vector) < d
    }

    /** No vertex has an edge to `a` on level `l`. */
    ghost predicate NoEdgeTo(a: Vertex<V, M>, l: nat)
      reads this`all, all`edges
    {
      forall w :: w in all && l < |w.edges| ==> a !in w.edges[l]
    }

    ghost predicate NoEdges(a: Vertex<V, M>)
      reads this`all, all`edges
    {
      forall l: nat :: NoEdgeTo(a, l)
    }

    /** `greedyClosestNeighbor`: to the nearest live neighbour, as long as that is nearer. */
    method GreedyClosestNeighbor(query: V, entry: Vertex<V, M>, minDistance: real, l: nat)
      returns (closest: Vertex<V, M>, d: real, ghost walk: seq<Vertex<V, M>>)
      requires GraphInv() && OnLevel(entry, l) && minDistance == distance(query, entry.vector)
      ensures OnLevel(closest, l) && d == distance(query, closest.vector) <= minDistance
      ensures GreedyWalk(Graph(l), DistanceTo(query), walk) && walk[0] == entry && walk[|walk| - 1] == closest
      ensures forall a :: a in all && a != entry && NoEdgeTo(a, l) ==> closest != a
    {
      hide Graph, GraphInv, NoEdgeTo, GreedyHop, LocalNearest, DistanceTo;
      closest, d := entry, minDistance;
      walk := [entry];
      while true
        invariant OnLevel(closest, l) && d == distance(query, closest.vector) <= minDistance
        invariant walk != [] && walk[0] == entry && walk[|walk| - 1] == closest
        invariant forall i {:trigger walk[i]} :: 0 <= i < |walk| - 1 ==> GreedyHop(Graph(l), DistanceTo(query), walk[i], walk[i + 1])
        invariant forall a :: a in all && a != entry && NoEdgeTo(a, l) ==> closest != a
        decreases |Nearer(query, d)|
      {
        var found, nearest, nd := ClosestNeighbor(query, closest, d, l);
        if !found {
          return;
        }
        NearerShrinks(query, nearest, d);
        closest, d := nearest, nd;
        walk := walk + [nearest];
      }
    }

    lemma NearerShrinks(query: V, v: Vertex<V, M>, d: real)
      requires v in all && distance(query, v.vector) < d
      ensures |Nearer(query, distance(query, v.vector))| < |Nearer(query, d)|
    {
      assert v in Nearer(query, d) && v !in Nearer(query, distance(query, v.vector));
      SubsetSize(Nearer(query, distance(query, v.vector)), Nearer(query, d));
    }

    /** The scan of one edge set: the nearest live neighbour below `d`, if there is one. */
    method ClosestNeighbor(query: V, v: Vertex<V, M>, d: real, l: nat) returns (found: bool, nearest: Vertex<V, M>, nd: real)
      requires GraphInv() && OnLevel(v, l) && d == distance(query, v.vector)
      ensures found ==> OnLevel(nearest, l) && nd == distance(query, nearest.vector) < d
      ensures found ==> forall a :: a in all && NoEdgeTo(a, l) ==> nearest != a
      ensures found ==> GreedyHop(Graph(l), DistanceTo(query), v, nearest)
      ensures !found ==> LocalNearest(Graph(l), DistanceTo(query), v)
    {
      hide GraphInv, Graph, GreedyHop, LocalNearest, VertexOk, EdgesOk;
      EdgesStay(v, l);
      found, nearest, nd := false, v, d;
      var rest := v.edges[l].Keys;
      while rest != {}
        invariant rest <= v.edges[l].Keys && nd <= d
        invariant if found then OnLevel(nearest, l) && nd == distance(query, nearest.vector) < d else nd == d
        invariant found ==> nearest in v.edges[l] && !nearest.deleted
        invariant forall n :: n in v.edges[l].Keys - rest && !n.deleted ==> distance(query, n.vector) >= nd
        decreases |rest|
      {
        var n :| n in rest;
        rest := rest - {n};
        if n.deleted {
          continue;
        }
        var dn := distance(query, n.vector);
        if dn < nd {
          found, nearest, nd := true, n, dn;
        }
      }
      ScannedAll(query, v, l, found, nearest);
    }

    /** The edges of a vertex on a level lead to vertices of that level. */
    lemma EdgesStay(v: Vertex<V, M>, l: nat)
      requires GraphInv() && OnLevel(v, l)
      ensures l < |v.edges| && forall n :: n in v.edges[l] ==> OnLevel(n, l) && n != v
      ensures v in Graph(l) && Graph(l)[v] == LiveNeighbors(v, l)
    {
      assert VertexOk(v, all);
      assert EdgesOk(v, l, v.edges[l], all);
    }

    /** What the scan of all live neighbours of `v` has found. */
    lemma ScannedAll(query: V, v: Vertex<V, M>, l: nat, found: bool, nearest: Vertex<V, M>)
      requires GraphInv() && OnLevel(v, l) && l < |v.edges|
      requires found ==> nearest in v.edges[l] && !nearest.deleted && distance(query, nearest.vector) < distance(query, v.vector)
      requires forall n :: n in v.edges[l].Keys && !n.deleted ==>
                 distance(query, n.vector) >= distance(query, if found then nearest.vector else v.vector)
      ensures if found then GreedyHop(Graph(l), DistanceTo(query), v, nearest) else LocalNearest(Graph(l), DistanceTo(query), v)
    {
      hide GraphInv, Graph;
      EdgesStay(v, l);
    }

    // ---------- searchLevel ----------

    /** The two queues of a search hold the waiting and the kept vertices. */
    ghost predicate QueuesOk(candidates: PriorityQueue<Vertex<V, M>>, results: PriorityQueue<Vertex<V, M>>,
                             score: Vertex<V, M> -> real, s: Sets<Vertex<V, M>>)
      reads candidates, candidates.buf, results, results.buf
    {
      candidates.Valid() && !candidates.max && results.Valid() && results.max
      && candidates != results && candidates.buf != results.buf
      && Holds(candidates.Contents(), s.waiting, score) && Holds(results.Contents(), s.found, score)
    }

    /** `searchLevel`: best-first search. Whatever `ef` is, the nearest vertex met is among the
        results and the live neighbours of every result were met; with room for everything
        reachable, exactly that is returned. */
    method SearchLevel(query: V, entry: Vertex<V, M>, ef: int, l: nat)
      returns (results: PriorityQueue<Vertex<V, M>>, ghost visited: set<Vertex<V, M>>, ghost found: set<Vertex<V, M>>)
      requires GraphInv() && OnLevel(entry, l)
      ensures fresh(results) && fresh(results.buf) && results.Valid() && results.max
      ensures Holds(results.Contents(), found, DistanceTo(query))
      ensures SearchResult(Graph(l), entry, DistanceTo(query), ef, visited, found)
    {
      hide GraphInv, Graph, SearchInv, SearchResult, Holds, Reach, DistanceTo, QueuesOk;
      ghost var score, g := DistanceTo(query), Graph(l);
      GraphFacts(l);
      var candidates;
      candidates, results := BeginSearch(query, entry);
      SearchBegins(g, entry, score, ef);
      ghost var s := Sets({entry}, {entry}, {}, {}, {entry});
      var visitedVertices := {entry};
      var stop := false;
      while !stop && candidates.len > 0
        invariant fresh(candidates) && fresh(candidates.buf) && fresh(results) && fresh(results.buf)
        invariant QueuesOk(candidates, results, score, s) && SearchInv(g, entry, score, ef, s) && visitedVertices == s.visited
        invariant if stop then Exhausted(score, s) else s.open == {}
        decreases if stop then 0 else 1, |g.Keys - s.visited|, |s.waiting|
      {
        ghost var was := s;
        stop, s, visitedVertices := ExpandNearest(query, entry, ef, l, candidates, results, s, visitedVertices);
        KeptSome(g, entry, score, ef, s);
        SearchProgress(g.Keys, was.visited, s.visited);
      }
      if !stop {
        NothingWaits(candidates, results, score, s);
      }
      SearchEnds(g, entry, score, ef, s);
      visited, found := s.visited, s.found;
      FoundHeld(candidates, results, score, s);
    }

    lemma SearchProgress(u: set<Vertex<V, M>>, before: set<Vertex<V, M>>, now: set<Vertex<V, M>>)
      requires before <= now <= u
      ensures before == now || |u - now| < |u - before|
    {
      if before != now {
        Shrinks(u, before, now);
      }
    }

    method BeginSearch(query: V, entry: Vertex<V, M>)
      returns (candidates: PriorityQueue<Vertex<V, M>>, results: PriorityQueue<Vertex<V, M>>)
      ensures fresh(candidates) && fresh(candidates.buf) && fresh(results) && fresh(results.buf)
      ensures QueuesOk(candidates, results, DistanceTo(query), Sets({entry}, {entry}, {}, {}, {entry}))
    {
      hide Holds;
      var item := Item(distance(query, entry.vector), entry);
      HoldsNone<Vertex<V, M>>(DistanceTo(query));
      HoldsPush(multiset{}, {}, DistanceTo(query), entry);
      assert {} + {entry} == {entry};
      candidates := new PriorityQueue<Vertex<V, M>>(false);
      candidates.Push(item);
      results := new PriorityQueue<Vertex<V, M>>(true);
      results.Push(item);
    }

    /** One round of the search: take the nearest waiting vertex; stop if it is farther than
        everything kept, else look at its neighbours. */
    method ExpandNearest(query: V, entry: Vertex<V, M>, ef: int, l: nat, candidates: PriorityQueue<Vertex<V, M>>,
                         results: PriorityQueue<Vertex<V, M>>, ghost s: Sets<Vertex<V, M>>, visitedVertices: set<Vertex<V, M>>)
      returns (stop: bool, ghost s': Sets<Vertex<V, M>>, visited': set<Vertex<V, M>>)
      requires GraphInv() && QueuesOk(candidates, results, DistanceTo(query), s) && candidates.len > 0
      requires SearchInv(Graph(l), entry, DistanceTo(query), ef, s) && s.open == {} && visitedVertices == s.visited
      modifies candidates, candidates.buf, results, results.buf
      ensures QueuesOk(candidates, results, DistanceTo(query), s') && visited' == s'.visited
      ensures SearchInv(old(Graph(l)), entry, DistanceTo(query), ef, s')
      ensures if stop then Exhausted(DistanceTo(query), s') else s'.open == {}
      ensures s.visited <= s'.visited && (s'.visited == s.visited ==> |s'.waiting| < |s.waiting|)
      ensures candidates.buf == old(candidates.buf) || fresh(candidates.buf)
      ensures results.buf == old(results.buf) || fresh(results.buf)
    {
      hide GraphInv, Graph, SearchInv, Holds, Reach, DistanceTo, IsFirst, HeapOk, candidates.Contents, Exhausted;
      ghost var score, g := DistanceTo(query), Graph(l);
      GraphFacts(l);
      KeptSome(g, entry, score, ef, s);
      ResultsNotEmpty(candidates, results, score, s);
      ghost var waiting := candidates.Contents();
      var candidateItem := TakeNearest(candidates, results, score, s);
      var candidate := candidateItem.value;
      var farthest := results.Peek();
      SearchTakes(g, entry, score, ef, s, candidate);
      s' := s.(waiting := s.waiting - {candidate}, open := {candidate});
      QueuesStay(candidates, results, score, s.(waiting := s.waiting - {candidate}), s');
      HeldBy(candidates, results, score, s');
      if candidateItem.priority > farthest.priority {
        FartherThanKept(waiting, results.Contents(), score, s, candidateItem, farthest);
        return true, s', visitedVertices;
      }
      FarthestIsKept(results.Contents(), s.found, score, farthest);
      s', visited' := ScanNeighbors(query, entry, candidate, ef, l, farthest.priority, candidates, results, s', visitedVertices);
      stop := false;
      assert |s.waiting - {candidate}| < |s.waiting|;
    }

    lemma HeldBy(candidates: PriorityQueue<Vertex<V, M>>, results: PriorityQueue<Vertex<V, M>>,
                 score: Vertex<V, M> -> real, s: Sets<Vertex<V, M>>)
      requires QueuesOk(candidates, results, score, s)
      ensures Holds(candidates.Contents(), s.waiting, score) && Holds(results.Contents(), s.found, score)
    {
    }

    /** `candidateVertices.Pop()`. */
    method TakeNearest(candidates: PriorityQueue<Vertex<V, M>>, results: PriorityQueue<Vertex<V, M>>,
                       ghost score: Vertex<V, M> -> real, ghost s: Sets<Vertex<V, M>>)
      returns (item: Item<Vertex<V, M>>)
      requires QueuesOk(candidates, results, score, s) && candidates.len > 0
      modifies candidates`len, candidates.buf
      ensures IsFirst(old(candidates.Contents()), false, item) && item.value in s.waiting
      ensures QueuesOk(candidates, results, score, s.(waiting := s.waiting - {item.value}))
      ensures results.Contents() == old(results.Contents())
    {
      hide Holds, HeapOk, IsFirst, candidates.Contents;
      ghost var contents := candidates.Contents();
      item := candidates.Pop();
      HoldsPopFirst(contents, s.waiting, score, false, item);
    }

    lemma KeptSome(g: map<Vertex<V, M>, set<Vertex<V, M>>>, entry: Vertex<V, M>, score: Vertex<V, M> -> real, ef: int,
                   s: Sets<Vertex<V, M>>)
      requires SearchInv(g, entry, score, ef, s)
      ensures 1 <= |s.found| <= Room(ef) && s.waiting <= g.Keys && s.visited <= Reach(g, {entry}) && s.visited <= g.Keys
    {
    }

    lemma ResultsNotEmpty(candidates: PriorityQueue<Vertex<V, M>>, results: PriorityQueue<Vertex<V, M>>,
                          score: Vertex<V, M> -> real, s: Sets<Vertex<V, M>>)
      requires QueuesOk(candidates, results, score, s)
      ensures results.len == |s.found|
    {
      HoldsSize(results.Contents(), s.found, score);
    }

    /** Everything waiting is at least as far as the item just taken, which is farther than the
        farthest kept. */
    lemma FartherThanKept(waiting: multiset<Item<Vertex<V, M>>>, kept: multiset<Item<Vertex<V, M>>>, score: Vertex<V, M> -> real,
                          s: Sets<Vertex<V, M>>, c: Item<Vertex<V, M>>, farthest: Item<Vertex<V, M>>)
      requires Holds(waiting, s.waiting, score) && Holds(kept, s.found, score)
      requires IsFirst(waiting, false, c) && IsFirst(kept, true, farthest) && c.priority > farthest.priority
      ensures Exhausted(score, s.(waiting := s.waiting - {c.value}, open := {c.value}))
    {
      HoldsMember(waiting, s.waiting, score, c);
      forall w, v | w in s.waiting - {c.value} + {c.value} && v in s.found
        ensures score(w) > score(v)
      {
        HoldsMember(waiting, s.waiting, score, ItemFor(w, score));
        HoldsMember(kept, s.found, score, ItemFor(v, score));
        assert !Less(false, ItemFor(w, score), c) && !Less(true, ItemFor(v, score), farthest);
      }
    }

    lemma FarthestIsKept(kept: multiset<Item<Vertex<V, M>>>, found: set<Vertex<V, M>>, score: Vertex<V, M> -> real,
                         farthest: Item<Vertex<V, M>>)
      requires Holds(kept, found, score) && IsFirst(kept, true, farthest)
      ensures Within(found, score, farthest.priority)
    {
      HoldsMember(kept, found, score, farthest);
      assert score(farthest.value) <= farthest.priority;
    }

    /** The loop over the neighbours of a candidate. */
    method ScanNeighbors(query: V, entry: Vertex<V, M>, candidate: Vertex<V, M>, ef: int, l: nat, lowerBound: real,
                         candidates: PriorityQueue<Vertex<V, M>>, results: PriorityQueue<Vertex<V, M>>,
                         ghost s: Sets<Vertex<V, M>>, visitedVertices: set<Vertex<V, M>>)
      returns (ghost s': Sets<Vertex<V, M>>, visited': set<Vertex<V, M>>)
      requires GraphInv() && QueuesOk(candidates, results, DistanceTo(query), s)
      requires SearchInv(Graph(l), entry, DistanceTo(query), ef, s) && s.open == {candidate} && visitedVertices == s.visited
      requires Within(s.found, DistanceTo(query), lowerBound)
      modifies candidates, candidates.buf, results, results.buf
      ensures QueuesOk(candidates, results, DistanceTo(query), s') && visited' == s'.visited
      ensures SearchInv(old(Graph(l)), entry, DistanceTo(query), ef, s') && s'.open == {}
      ensures s.visited <= s'.visited && (s'.visited == s.visited ==> s'.waiting == s.waiting)
      ensures candidates.buf == old(candidates.buf) || fresh(candidates.buf)
      ensures results.buf == old(results.buf) || fresh(results.buf)
    {
      hide GraphInv, Graph, SearchInv, Holds, Reach, DistanceTo, Within, QueuesOk;
      ghost var score, g := DistanceTo(query), Graph(l);
      GraphFacts(l);
      CandidateReached(g, entry, score, ef, s, candidate);
      EdgesStay(candidate, l);
      var es := candidate.edges[l];
      var rest := es.Keys;
      s', visited' := s, visitedVertices;
      while rest != {}
        invariant rest <= es.Keys && QueuesOk(candidates, results, score, s') && visited' == s'.visited
        invariant SearchInv(g, entry, score, ef, s') && s'.open == {candidate} && Within(s'.found, score, lowerBound)
        invariant s.visited <= s'.visited && (s'.visited == s.visited ==> s'.waiting == s.waiting)
        invariant forall n :: n in es.Keys - rest && !n.deleted ==> n in s'.visited
        invariant candidates.buf == old(candidates.buf) || fresh(candidates.buf)
        invariant results.buf == old(results.buf) || fresh(results.buf)
        decreases |rest|
      {
        var n :| n in rest;
        rest := rest - {n};
        if n.deleted {
          continue;
        }
        if n in visited' {
          continue;
        }
        NeighborReached(g, entry, candidate, n);
        visited' := visited' + {n};
        s' := VisitNeighbor(query, entry, n, ef, lowerBound, candidates, results, g, s');
      }
      SearchExpanded(g, entry, score, ef, s', candidate);
      QueuesStay(candidates, results, score, s', s'.(open := {}, expanded := s'.expanded + {candidate}));
      s' := s'.(open := {}, expanded := s'.expanded + {candidate});
    }

    lemma CandidateReached(g: map<Vertex<V, M>, set<Vertex<V, M>>>, entry: Vertex<V, M>, score: Vertex<V, M> -> real, ef: int,
                           s: Sets<Vertex<V, M>>, c: Vertex<V, M>)
      requires SearchInv(g, entry, score, ef, s) && s.open == {c}
      ensures entry in g && c in Reach(g, {entry}) && c in g
    {
      assert c in s.waiting + s.expanded + s.open;
    }

    lemma QueuesStay(candidates: PriorityQueue<Vertex<V, M>>, results: PriorityQueue<Vertex<V, M>>, score: Vertex<V, M> -> real,
                     s: Sets<Vertex<V, M>>, t: Sets<Vertex<V, M>>)
      requires QueuesOk(candidates, results, score, s) && t.waiting == s.waiting && t.found == s.found
      ensures QueuesOk(candidates, results, score, t)
    {
    }

    /** A neighbour met for the first time: it is kept if it is near enough or there is room, and
        then the farthest one is given up if there are too many. */
    method VisitNeighbor(query: V, entry: Vertex<V, M>, n: Vertex<V, M>, ef: int, lowerBound: real,
                         candidates: PriorityQueue<Vertex<V, M>>, results: PriorityQueue<Vertex<V, M>>,
                         ghost g: map<Vertex<V, M>, set<Vertex<V, M>>>, ghost s: Sets<Vertex<V, M>>)
      returns (ghost s': Sets<Vertex<V, M>>)
      requires QueuesOk(candidates, results, DistanceTo(query), s) && SearchInv(g, entry, DistanceTo(query), ef, s)
      requires n !in s.visited && entry in g && n in Reach(g, {entry}) && Within(s.found, DistanceTo(query), lowerBound)
      modifies candidates, candidates.buf, results, results.buf
      ensures QueuesOk(candidates, results, DistanceTo(query), s') && SearchInv(g, entry, DistanceTo(query), ef, s')
      ensures s'.visited == s.visited + {n} && s'.open == s.open && Within(s'.found, DistanceTo(query), lowerBound)
      ensures candidates.buf == old(candidates.buf) || fresh(candidates.buf)
      ensures results.buf == old(results.buf) || fresh(results.buf)
    {
      hide SearchInv, Holds, Reach, Within;
      ghost var score := DistanceTo(query);
      var d := distance(query, n.vector);
      ResultsNotEmpty(candidates, results, score, s);
      if d < lowerBound || results.len < ef {
        s' := KeepNeighbor(query, entry, n, ef, candidates, results, g, s, lowerBound);
      } else {
        KeptSome(g, entry, score, ef, s);
        SearchSkips(g, entry, score, ef, s, n, lowerBound);
        s' := s.(visited := s.visited + {n});
      }
    }

    /** Push to both queues. */
    method PushBoth(item: Item<Vertex<V, M>>, candidates: PriorityQueue<Vertex<V, M>>, results: PriorityQueue<Vertex<V, M>>,
                    ghost score: Vertex<V, M> -> real, ghost s: Sets<Vertex<V, M>>)
      requires QueuesOk(candidates, results, score, s) && item == ItemFor(item.value, score)
      requires item.value !in s.waiting && item.value !in s.found
      modifies candidates, candidates.buf, results, results.buf
      ensures QueuesOk(candidates, results, score, s.(waiting := s.waiting + {item.value}, found := s.found + {item.value}))
      ensures results.len == old(results.len) + 1
      ensures candidates.buf == old(candidates.buf) || fresh(candidates.buf)
      ensures results.buf == old(results.buf) || fresh(results.buf)
    {
      hide Holds, HeapOk, candidates.Contents;
      HoldsPush(candidates.Contents(), s.waiting, score, item.value);
      HoldsPush(results.Contents(), s.found, score, item.value);
      candidates.Push(item);
      results.Push(item);
    }

    method KeepNeighbor(query: V, entry: Vertex<V, M>, n: Vertex<V, M>, ef: int,
                        candidates: PriorityQueue<Vertex<V, M>>, results: PriorityQueue<Vertex<V, M>>,
                        ghost g: map<Vertex<V, M>, set<Vertex<V, M>>>, ghost s: Sets<Vertex<V, M>>, ghost lowerBound: real)
      returns (ghost s': Sets<Vertex<V, M>>)
      requires QueuesOk(candidates, results, DistanceTo(query), s) && SearchInv(g, entry, DistanceTo(query), ef, s)
      requires n !in s.visited && entry in g && n in Reach(g, {entry}) && Within(s.found, DistanceTo(query), lowerBound)
      modifies candidates, candidates.buf, results, results.buf
      ensures QueuesOk(candidates, results, DistanceTo(query), s') && SearchInv(g, entry, DistanceTo(query), ef, s')
      ensures s'.visited == s.visited + {n} && s'.open == s.open && Within(s'.found, DistanceTo(query), lowerBound)
      ensures candidates.buf == old(candidates.buf) || fresh(candidates.buf)
      ensures results.buf == old(results.buf) || fresh(results.buf)
    {
      hide SearchInv, Holds, Reach, Within, IsFirst, QueuesOk, DistanceTo;
      ghost var score := DistanceTo(query);
      assert ItemFor(n, score) == Item(distance(query, n.vector), n) by { ScoreOf(query, n); }
      KeptSome(g, entry, score, ef, s);
      ResultsNotEmpty(candidates, results, score, s);
      FreshHere(g, entry, score, ef, s, n);
      PushBoth(Item(distance(query, n.vector), n), candidates, results, score, s);
      s' := s.(visited := s.visited + {n}, waiting := s.waiting + {n}, found := s.found + {n});
      QueuesStay(candidates, results, score, s.(waiting := s.waiting + {n}, found := s.found + {n}), s');
      WithinMore(s.found, score, n, lowerBound);
      if results.len > ef {
        ghost var r := DropFarthest(candidates, results, score, s');
        Trimmed(g, entry, score, ef, s, n, r, lowerBound);
        s' := s'.(found := s.found + {n} - {r});
      } else {
        SearchKeeps(g, entry, score, ef, s, n);
      }
    }

    lemma Trimmed(g: map<Vertex<V, M>, set<Vertex<V, M>>>, entry: Vertex<V, M>, score: Vertex<V, M> -> real, ef: int,
                  s: Sets<Vertex<V, M>>, n: Vertex<V, M>, r: Vertex<V, M>, bound: real)
      requires SearchInv(g, entry, score, ef, s) && n !in s.visited && n in Reach(g, {entry}) && n !in s.found
      requires |s.found| + 1 > ef && r in s.found + {n} && Within(s.found, score, bound)
      requires forall v :: v in s.found + {n} ==> score(v) <= score(r)
      ensures SearchInv(g, entry, score, ef,
                        s.(visited := s.visited + {n}, waiting := s.waiting + {n}, found := s.found + {n} - {r}))
      ensures Within(s.found + {n} - {r}, score, bound)
    {
      hide SearchInv, Reach, Within;
      KeptSome(g, entry, score, ef, s);
      SearchReplaces(g, entry, score, ef, s, n, r);
      WithinMore(s.found, score, n, bound);
      assert |s.found + {n}| == |s.found| + 1;
      WithoutFarthest(s.found + {n}, score, r, bound);
    }

    lemma ScoreOf(query: V, n: Vertex<V, M>)
      ensures ItemFor(n, DistanceTo(query)) == Item(distance(query, n.vector), n)
    {
    }

    /** `resultVertices.Pop()`. */
    method DropFarthest(candidates: PriorityQueue<Vertex<V, M>>, results: PriorityQueue<Vertex<V, M>>,
                        ghost score: Vertex<V, M> -> real, ghost s: Sets<Vertex<V, M>>)
      returns (ghost r: Vertex<V, M>)
      requires QueuesOk(candidates, results, score, s) && results.len > 0
      modifies results`len, results.buf
      ensures r in s.found && QueuesOk(candidates, results, score, s.(found := s.found - {r}))
      ensures forall v :: v in s.found ==> score(v) <= score(r)
    {
      hide Holds, HeapOk, IsFirst, candidates.Contents;
      ghost var contents := results.Contents();
      var item := results.Pop();
      HoldsPopFirst(contents, s.found, score, true, item);
      FarthestOf(contents, s.found, score, item);
      r := item.value;
    }

    lemma FreshHere(g: map<Vertex<V, M>, set<Vertex<V, M>>>, entry: Vertex<V, M>, score: Vertex<V, M> -> real, ef: int,
                    s: Sets<Vertex<V, M>>, n: Vertex<V, M>)
      requires SearchInv(g, entry, score, ef, s) && n !in s.visited
      ensures n !in s.waiting && n !in s.found
    {
      hide Reach, Covered, Near, Lossless;
      assert s.waiting <= s.waiting + s.expanded + s.open;
    }

    lemma FarthestOf(kept: multiset<Item<Vertex<V, M>>>, found: set<Vertex<V, M>>, score: Vertex<V, M> -> real, r: Item<Vertex<V, M>>)
      requires Holds(kept, found, score) && IsFirst(kept, true, r)
      ensures r.value in found && forall v :: v in found ==> score(v) <= score(r.value)
    {
      HoldsMember(kept, found, score, r);
      forall v | v in found
        ensures score(v) <= score(r.value)
      {
        HoldsMember(kept, found, score, ItemFor(v, score));
        assert !Less(true, ItemFor(v, score), r);
      }
    }

    lemma NothingWaits(candidates: PriorityQueue<Vertex<V, M>>, results: PriorityQueue<Vertex<V, M>>,
                       score: Vertex<V, M> -> real, s: Sets<Vertex<V, M>>)
      requires QueuesOk(candidates, results, score, s) && candidates.len == 0 && s.open == {}
      ensures Exhausted(score, s)
    {
      HoldsSize(candidates.Contents(), s.waiting, score);
    }

    lemma FoundHeld(candidates: PriorityQueue<Vertex<V, M>>, results: PriorityQueue<Vertex<V, M>>,
                    score: Vertex<V, M> -> real, s: Sets<Vertex<V, M>>)
      requires QueuesOk(candidates, results, score, s)
      ensures results.Valid() && results.max && Holds(results.Contents(), s.found, score)
    {
    }

    // ---------- selection and pruning ----------

    /** The configured selection, on vertices with their distances from `query`. */
    method Select(query: V, neighbors: PriorityQueue<Vertex<V, M>>, k: nat, ghost s: set<Vertex<V, M>>)
      returns (selected: PriorityQueue<Vertex<V, M>>, ghost t: set<Vertex<V, M>>)
      requires neighbors.Valid() && neighbors.max && Holds(neighbors.Contents(), s, DistanceTo(query))
      modifies neighbors, neighbors.buf
      ensures selected.Valid() && selected.max && Holds(selected.Contents(), t, DistanceTo(query))
      ensures NearestSet(s, t, k, DistanceTo(query))
      ensures (selected == neighbors && neighbors.buf == old(neighbors.buf)) || (fresh(selected) && fresh(selected.buf))
    {
      hide Holds, Kept, HeapOk, NearestSet, DistanceTo;
      ghost var all := neighbors.Contents();
      if !config.heuristic {
        SelectNeighbors(neighbors, k);
        selected := neighbors;
      } else {
        selected := SelectNeighborsHeuristic(neighbors, k, config.keepPruned);
      }
      t := KeptIsNearest(all, selected.Contents(), s, k, DistanceTo(query));
    }

    /** The live neighbours of a vertex in a queue, with the weights of its edges. */
    method LiveQueue(v: Vertex<V, M>, l: nat) returns (q: PriorityQueue<Vertex<V, M>>)
      requires l < |v.edges| && EdgesOk(v, l, v.edges[l], all)
      ensures fresh(q) && fresh(q.buf) && q.Valid() && q.max && Holds(q.Contents(), LiveNeighbors(v, l), DistanceTo(v.vector))
    {
      hide Holds, HeapOk, q.Contents;
      q := new PriorityQueue<Vertex<V, M>>(true);
      HoldsNone<Vertex<V, M>>(DistanceTo(v.vector));
      var es := v.edges[l];
      var rest := es.Keys;
      ghost var done: set<Vertex<V, M>> := {};
      while rest != {}
        invariant fresh(q) && fresh(q.buf) && q.Valid() && q.max && Holds(q.Contents(), done, DistanceTo(v.vector))
        invariant rest <= es.Keys && done == set n | n in es.Keys - rest && !n.deleted
        decreases |rest|
      {
        var n :| n in rest;
        rest := rest - {n};
        if n.deleted {
          continue;
        }
        HoldsPush(q.Contents(), done, DistanceTo(v.vector), n);
        q.Push(Item(es[n], n));
        done := done + {n};
      }
      assert done == LiveNeighbors(v, l);
    }

    /** `pruneNeighbors`: the `k` nearest live neighbours stay. */
    method PruneNeighbors(v: Vertex<V, M>, k: nat, l: nat, ghost within: set<Vertex<V, M>>)
      requires v in within && l < |v.edges| && EdgesOk(v, l, v.edges[l], within) && within == all
      modifies v`edges
      ensures l < |v.edges| && v.edges == old(v.edges)[l := v.edges[l]]
      ensures NearestSet(old(LiveNeighbors(v, l)), v.edges[l].Keys, k, DistanceTo(v.vector))
      ensures EdgesOk(v, l, v.edges[l], within) && |v.edges[l]| <= k
    {
      hide Holds, HeapOk, NearestSet;
      ghost var live := LiveNeighbors(v, l);
      var queue := LiveQueue(v, l);
      var selected, t := Select(v.vector, queue, k, live);
      var items := selected.buf[..selected.len];
      var newNeighbors: map<Vertex<V, M>, real> := map[];
      for i := 0 to |items|
        invariant forall n :: n in newNeighbors <==> exists j :: 0 <= j < i && items[j].value == n
        invariant forall n :: n in newNeighbors ==> newNeighbors[n] == distance(v.vector, n.vector)
        invariant v.edges == old(v.edges)
      {
        HeldItem(items, t, DistanceTo(v.vector), i);
        newNeighbors := newNeighbors[items[i].value := items[i].priority];
      }
      HeldValues(items, t, DistanceTo(v.vector));
      assert newNeighbors.Keys == t;
      NearestIsSmall(live, t, k, DistanceTo(v.vector));
      assert |newNeighbors| == |newNeighbors.Keys|;
      v.SetEdges(l, newNeighbors);
    }

    lemma HeldItem(items: seq<Item<Vertex<V, M>>>, t: set<Vertex<V, M>>, score: Vertex<V, M> -> real, i: nat)
      requires Holds(multiset(items), t, score) && i < |items|
      ensures items[i].value in t && items[i].priority == score(items[i].value)
    {
      assert items[i] in multiset(items);
      HoldsMember(multiset(items), t, score, items[i]);
    }

    lemma HeldValues(items: seq<Item<Vertex<V, M>>>, t: set<Vertex<V, M>>, score: Vertex<V, M> -> real)
      requires Holds(multiset(items), t, score)
      ensures forall n :: n in t <==> exists j :: 0 <= j < |items| && items[j].value == n
    {
      forall n: Vertex<V, M> | n in t
        ensures exists j :: 0 <= j < |items| && items[j].value == n
      {
        HoldsMember(multiset(items), t, score, ItemFor(n, score));
        assert ItemFor(n, score) in items;
        var j :| 0 <= j < |items| && items[j] == ItemFor(n, score);
      }
      forall j | 0 <= j < |items|
        ensures items[j].value in t
      {
        HeldItem(items, t, score, j);
      }
    }

    lemma NearestIsSmall(s: set<Vertex<V, M>>, t: set<Vertex<V, M>>, k: nat, score: Vertex<V, M> -> real)
      requires NearestSet(s, t, k, score)
      ensures |t| <= k && t <= s
    {
    }

    // ---------- the shard maps ----------

    static lemma {:induction false} TotalUpdate(shards: seq<map<nat, Vertex<V, M>>>, s: nat, m: map<nat, Vertex<V, M>>)
      requires s < |shards|
      ensures TotalSize(shards[s := m]) == TotalSize(shards) - |shards[s]| + |m|
    {
      var n := |shards| - 1;
      if s == n {
        assert shards[s := m][..n] == shards[..n];
      } else {
        TotalUpdate(shards[..n], s, m);
        assert shards[s := m][..n] == shards[..n][s := m];
      }
    }

    static function WithStored(shards: seq<map<nat, Vertex<V, M>>>, s: nat, v: Vertex<V, M>): seq<map<nat, Vertex<V, M>>>
      requires s < |shards|
    {
      var shard: map<nat, Vertex<V, M>> := shards[s][v.id := v];
      shards[s := shard]
    }

    /** `storeVertex`. */
    method StoreVertex(v: Vertex<V, M>) returns (r: Option<Error>)
      requires Valid() && v !in all && !v.deleted && v.edges == seq(v.level + 1, _ => map[])
      modifies this`vertices, this`len, this`all
      ensures Valid() && (r == if v.id in old(vertices)[ShardOf(v.id)] then Some(ItemAlreadyExists) else None)
      ensures r.Some? ==> vertices == old(vertices) && len == old(len) && all == old(all)
      ensures r.None? ==> all == old(all) + {v} && len == old(len) + 1
      ensures r.None? ==> vertices == WithStored(old(vertices), ShardOf(v.id), v)
    {
      hide TotalSize, EdgesOk, StoreOk;
      ShardsCount();
      var s := ShardOf(v.id);
      if v.id in vertices[s] {
        return Some(ItemAlreadyExists);
      }
      StoredOk(vertices, all, Dead(), v);
      var shard: map<nat, Vertex<V, M>> := vertices[s][v.id := v];
      TotalUpdate(vertices, s, shard);
      StoredMore(v);
      vertices := WithStored(vertices, s, v);
      len := len + 1;
      all := all + {v};
      assert Dead() == old(Dead());
      return None;
    }

    lemma StoredOk(shards: seq<map<nat, Vertex<V, M>>>, stored: set<Vertex<V, M>>, dead: set<Vertex<V, M>>, v: Vertex<V, M>)
      requires StoreOk(shards, stored, dead) && v !in stored && v !in dead && v.id !in shards[ShardOf(v.id)]
      ensures StoreOk(WithStored(shards, ShardOf(v.id), v), stored + {v}, dead)
    {
      var shards' := WithStored(shards, ShardOf(v.id), v);
      forall s: nat, id: nat | s < |shards'| && id in shards'[s]
        ensures EntryOk(shards'[s][id], s, id, stored + {v}, dead)
      {
        if s != ShardOf(v.id) || id != v.id {
          assert EntryOk(shards[s][id], s, id, stored, dead);
        }
      }
      forall w | w in stored + {v}
        ensures w in dead || StoredAt(shards', w)
      {
        assert w != v ==> w in dead || StoredAt(shards, w);
      }
    }

    static function Without(shards: seq<map<nat, Vertex<V, M>>>, s: nat, id: nat): seq<map<nat, Vertex<V, M>>>
      requires s < |shards|
    {
      shards[s := shards[s] - {id}]
    }

    lemma RemovedOk(shards: seq<map<nat, Vertex<V, M>>>, stored: set<Vertex<V, M>>, dead: set<Vertex<V, M>>, id: nat)
      requires StoreOk(shards, stored, dead) && id in shards[ShardOf(id)]
      ensures StoreOk(Without(shards, ShardOf(id), id), stored, dead + {shards[ShardOf(id)][id]})
    {
      var shards', v := Without(shards, ShardOf(id), id), shards[ShardOf(id)][id];
      assert EntryOk(v, ShardOf(id), id, stored, dead);
      forall s: nat, i: nat | s < |shards'| && i in shards'[s]
        ensures EntryOk(shards'[s][i], s, i, stored, dead + {v})
      {
        assert EntryOk(shards[s][i], s, i, stored, dead);
      }
      forall w | w in stored
        ensures w in dead + {v} || StoredAt(shards', w)
      {
        assert w in dead || StoredAt(shards, w);
      }
    }

    /** One more vertex without edges. */
    lemma StoredMore(v: Vertex<V, M>)
      requires GraphInv() && v.edges == seq(v.level + 1, _ => map[])
      ensures forall w :: w in all + {v} ==> VertexOk(w, all + {v})
    {
      forall w | w in all + {v}
        ensures VertexOk(w, all + {v})
      {
        if w in all && w != v {
          assert VertexOk(w, all);
          forall l | 0 <= l <= w.level
            ensures EdgesOk(w, l, w.edges[l], all + {v}) && |w.edges[l]| <= MaxEdges(l)
          {
            assert EdgesOk(w, l, w.edges[l], all);
          }
        }
      }
    }

    /** `removeVertex`. */
    method RemoveVertex(id: nat) returns (v: Vertex?<V, M>)
      requires Valid()
      modifies this`vertices, this`len, all`deleted
      ensures Valid() && (v == if id in old(vertices)[ShardOf(id)] then old(vertices)[ShardOf(id)][id] else null)
      ensures v == null <==> id !in old(vertices)[ShardOf(id)]
      ensures v == null ==> vertices == old(vertices) && len == old(len)
      ensures v != null ==> v in all && v.id == id && v.deleted && len == old(len) - 1
      ensures v != null ==> vertices == Without(old(vertices), ShardOf(id), id)
      ensures forall w :: w in all && w != v ==> w.deleted == old(w.deleted)
    {
      hide TotalSize, GraphInv, StoreOk;
      ShardsCount();
      ShardHolds(id);
      var s := ShardOf(id);
      if id !in vertices[s] {
        return null;
      }
      v := vertices[s][id];
      TotalUpdate(vertices, s, vertices[s] - {id});
      SmallerByOne(vertices[s], id);
      RemovedOk(vertices, all, Dead(), id);
      vertices := Without(vertices, s, id);
      len := len - 1;
      v.SetDeleted();
      assert Dead() == old(Dead()) + {v};
    }

    lemma ShardsCount()
      requires StoreInv()
      ensures |vertices| == VERTICES_MAP_SHARD_COUNT
    {
    }

    lemma ShardHolds(id: nat)
      requires StoreInv()
      ensures id in vertices[ShardOf(id)] ==> vertices[ShardOf(id)][id] in all && vertices[ShardOf(id)][id].id == id
    {
      assert id in vertices[ShardOf(id)] ==> EntryOk(vertices[ShardOf(id)][id], ShardOf(id), id, all, Dead());
    }

    static lemma SmallerByOne(m: map<nat, Vertex<V, M>>, id: nat)
      requires id in m
      ensures |m - {id}| == |m| - 1
    {
      assert (m - {id}).Keys == m.Keys - {id};
    }

    // ---------- Insert ----------

    lemma MoreEdgesOk(v: Vertex<V, M>, l: nat, es: map<Vertex<V, M>, real>, n: Vertex<V, M>, d: real)
      requires EdgesOk(v, l, es, all) && n in all && n != v && n.level >= l && d == distance(v.vector, n.vector)
      ensures EdgesOk(v, l, es[n := d], all) && |es[n := d]| <= |es| + 1
    {
      assert es[n := d].Keys == es.Keys + {n};
    }

    /** What pruning leaves of an edge set. */
    lemma PrunedIsNearest(n: Vertex<V, M>, l: nat, more: map<Vertex<V, M>, real>, es: map<Vertex<V, M>, real>, k: nat)
      requires EdgesOk(n, l, more, all) && EdgesOk(n, l, es, all)
      requires NearestSet(more.Keys - Dead(), es.Keys, k, DistanceTo(n.vector))
      ensures NearestKept(more, es, k, Dead())
    {
      assert |es| == |es.Keys|;
    }

    lemma LiveOfEdges(n: Vertex<V, M>, l: nat)
      requires l < |n.edges| && EdgesOk(n, l, n.edges[l], all)
      ensures LiveNeighbors(n, l) == n.edges[l].Keys - Dead()
    {
    }

    /** `neighbor.addEdge`, then pruning if it has too many edges. */
    method AddAndPrune(n: Vertex<V, M>, v: Vertex<V, M>, l: nat, d: real)
      requires VertexOk(n, all) && OnLevel(v, l) && OnLevel(n, l) && v != n && d == distance(n.vector, v.vector)
      modifies n`edges
      ensures VertexOk(n, all) && |n.edges| == |old(n.edges)| && l < |n.edges| && n.edges == old(n.edges)[l := n.edges[l]]
      ensures Grown(old(n.edges)[l], n.edges[l], v, d, MaxEdges(l), Dead())
    {
      hide NearestSet, NearestKept;
      ghost var was := n.edges;
      MoreEdgesOk(n, l, n.edges[l], v, d);
      assert n.edges[l][v := d].Keys == n.edges[l].Keys + {v};
      n.AddEdge(l, v, d);
      if n.EdgesCount(l) > MaxEdges(l) {
        ghost var more := n.edges[l];
        LiveOfEdges(n, l);
        PruneNeighbors(n, MaxEdges(l), l, all);
        PrunedIsNearest(n, l, more, n.edges[l], MaxEdges(l));
      }
      EdgesChanged(n, was, l);
    }

    /** A vertex whose edge set on one level was replaced by a proper one. */
    lemma EdgesChanged(n: Vertex<V, M>, was: seq<map<Vertex<V, M>, real>>, l: nat)
      requires |was| == n.level + 1 && l < |was| && l < |n.edges| && n.edges == was[l := n.edges[l]]
      requires forall k :: 0 <= k <= n.level && k != l ==> EdgesOk(n, k, was[k], all) && |was[k]| <= MaxEdges(k)
      requires EdgesOk(n, l, n.edges[l], all) && |n.edges[l]| <= MaxEdges(l)
      ensures VertexOk(n, all)
    {
    }

    /** `vertex.addEdge`. */
    method AddOwn(v: Vertex<V, M>, n: Vertex<V, M>, l: nat, d: real)
      requires VertexOk(v, all) && OnLevel(v, l) && OnLevel(n, l) && v != n && d == distance(v.vector, n.vector)
      requires l < |v.edges| && |v.edges[l]| < MaxEdges(l)
      modifies v`edges
      ensures VertexOk(v, all) && v.edges == old(v.edges)[l := old(v.edges[l])[n := d]]
    {
      ghost var was := v.edges;
      MoreEdgesOk(v, l, v.edges[l], n, d);
      v.AddEdge(l, n, d);
      EdgesChanged(v, was, l);
    }

    /** An edge each way; the neighbour is pruned if it has too many. */
    method Link(v: Vertex<V, M>, n: Vertex<V, M>, l: nat, d: real)
      requires GraphInv() && Symmetric() && OnLevel(v, l) && OnLevel(n, l) && v != n && d == distance(v.vector, n.vector)
      requires l < |v.edges| && |v.edges[l]| < MaxEdges(l)
      modifies v`edges, n`edges
      ensures GraphInv() && LinkMade(old(EdgesNow()), EdgesNow(), v, n, l, d, MaxEdges(l), Dead())
    {
      hide VertexOk, Grown, MaxEdges, Symmetric;
      ghost var before := EdgesNow();
      SameBothWays(v.vector, n.vector);
      assert VertexOk(v, all) && VertexOk(n, all);
      LevelThere(n, l);
      AddOwn(v, n, l, d);
      AddAndPrune(n, v, l, d);
    }

    lemma LevelThere(n: Vertex<V, M>, l: nat)
      requires VertexOk(n, all) && n.level >= l
      ensures l < |n.edges|
    {
    }

    lemma SameBothWays(a: V, b: V)
      requires Symmetric()
      ensures distance(a, b) == distance(b, a)
    {
    }

    /** The selected vertices `t`, as neighbours for `v` on level `l`. */
    ghost predicate Linkable(v: Vertex<V, M>, t: set<Vertex<V, M>>, l: nat)
      reads this`all
    {
      forall n :: n in t ==> OnLevel(n, l) && n != v
    }

    /** Where the loop over the selected neighbours stands: those not in `rest` are linked. */
    ghost predicate LinkingOk(v: Vertex<V, M>, l: nat, t: set<Vertex<V, M>>, rest: set<Vertex<V, M>>, before: Edges<Vertex<V, M>>)
      reads this`all, all`edges, all`deleted, v`edges
    {
      GraphInv() && OnLevel(v, l) && Linkable(v, t, l) && rest <= t && l < |v.edges| && v.edges[l].Keys == t - rest
      && LevelLinked(before, EdgesNow(), v, l, t - rest, DistanceTo(v.vector), MaxEdges(l), Dead())
    }

    /** The queue holds what is still to be linked. */
    ghost predicate WaitingOk(v: Vertex<V, M>, neighbors: PriorityQueue<Vertex<V, M>>, rest: set<Vertex<V, M>>)
      reads neighbors, neighbors.buf
    {
      neighbors.Valid() && neighbors.max && Holds(neighbors.Contents(), rest, DistanceTo(v.vector)) && neighbors.len == |rest|
    }

    /** The vertex linked last is the nearest so far, and what is left is no farther. */
    ghost predicate LastOk(t: set<Vertex<V, M>>, rest: set<Vertex<V, M>>, entry: Vertex<V, M>, last: Vertex<V, M>,
                           score: Vertex<V, M> -> real) {
      if rest == t then last == entry
      else last in t - rest && (forall u :: u in rest ==> score(u) <= score(last))
           && forall u :: u in t - rest ==> score(last) <= score(u)
    }

    /** The loop of `Insert` over the selected neighbours of one level. */
    method LinkAll(v: Vertex<V, M>, neighbors: PriorityQueue<Vertex<V, M>>, l: nat, entry: Vertex<V, M>, ghost t: set<Vertex<V, M>>)
      returns (last: Vertex<V, M>)
      requires GraphInv() && Symmetric() && OnLevel(v, l) && OnLevel(entry, l) && entry != v && Linkable(v, t, l)
      requires neighbors.Valid() && neighbors.max && Holds(neighbors.Contents(), t, DistanceTo(v.vector))
      requires l < |v.edges| && v.edges[l] == map[] && |t| <= MaxEdges(l)
      modifies all`edges, neighbors, neighbors.buf
      ensures GraphInv() && LevelLinked(old(EdgesNow()), EdgesNow(), v, l, t, DistanceTo(v.vector), MaxEdges(l), Dead())
      ensures OnLevel(last, l) && last != v && Enters(entry, t, last, DistanceTo(v.vector))
      ensures l < |v.edges| && v.edges[l].Keys == t
    {
      hide Symmetric, LinkingOk, WaitingOk, LevelLinked, MaxEdges, LastOk, DistanceTo, Holds;
      last := entry;
      ghost var rest, before, score := t, EdgesNow(), DistanceTo(v.vector);
      LinkingBegins(v, neighbors, l, t, entry);
      while neighbors.len > 0
        invariant LinkingOk(v, l, t, rest, before) && WaitingOk(v, neighbors, rest) && neighbors.buf == old(neighbors.buf)
        invariant OnLevel(last, l) && last != v && LastOk(t, rest, entry, last, score)
        decreases neighbors.len
      {
        last := LinkNext(v, neighbors, l, t, rest, before, entry, last);
        rest := rest - {last};
      }
      NothingWaiting(v, neighbors, rest);
      LinkingEnds(v, l, t, before, entry, last);
    }

    lemma LinkingBegins(v: Vertex<V, M>, neighbors: PriorityQueue<Vertex<V, M>>, l: nat, t: set<Vertex<V, M>>, entry: Vertex<V, M>)
      requires GraphInv() && OnLevel(v, l) && Linkable(v, t, l)
      requires neighbors.Valid() && neighbors.max && Holds(neighbors.Contents(), t, DistanceTo(v.vector))
      requires l < |v.edges| && v.edges[l] == map[]
      ensures LinkingOk(v, l, t, t, EdgesNow()) && WaitingOk(v, neighbors, t)
      ensures LastOk(t, t, entry, entry, DistanceTo(v.vector))
    {
      hide GraphInv, Holds, DistanceTo, LevelLinked;
      assert t - t == {};
      NothingLinked(EdgesNow(), v, l, DistanceTo(v.vector), MaxEdges(l), Dead());
      HoldsSize(neighbors.Contents(), t, DistanceTo(v.vector));
    }

    lemma NothingWaiting(v: Vertex<V, M>, neighbors: PriorityQueue<Vertex<V, M>>, rest: set<Vertex<V, M>>)
      requires WaitingOk(v, neighbors, rest) && neighbors.len == 0
      ensures rest == {}
    {
    }

    lemma LinkingEnds(v: Vertex<V, M>, l: nat, t: set<Vertex<V, M>>, before: Edges<Vertex<V, M>>, entry: Vertex<V, M>, last: Vertex<V, M>)
      requires LinkingOk(v, l, t, {}, before) && LastOk(t, {}, entry, last, DistanceTo(v.vector))
      ensures GraphInv() && LevelLinked(before, EdgesNow(), v, l, t, DistanceTo(v.vector), MaxEdges(l), Dead())
      ensures Enters(entry, t, last, DistanceTo(v.vector)) && l < |v.edges| && v.edges[l].Keys == t
    {
      hide GraphInv, DistanceTo, LevelLinked, EdgesNow;
      assert t - {} == t;
    }

    lemma LinkableAt(v: Vertex<V, M>, t: set<Vertex<V, M>>, l: nat, n: Vertex<V, M>)
      requires Linkable(v, t, l) && n in t
      ensures OnLevel(n, l) && n != v
    {
    }

    /** `neighbors.Pop()` and an edge each way. */
    method LinkNext(v: Vertex<V, M>, neighbors: PriorityQueue<Vertex<V, M>>, l: nat, ghost t: set<Vertex<V, M>>,
                    ghost rest: set<Vertex<V, M>>, ghost before: Edges<Vertex<V, M>>, ghost entry: Vertex<V, M>,
                    ghost last: Vertex<V, M>)
      returns (neighbor: Vertex<V, M>)
      requires LinkingOk(v, l, t, rest, before) && WaitingOk(v, neighbors, rest) && Symmetric() && neighbors.len > 0
      requires |t| <= MaxEdges(l) && LastOk(t, rest, entry, last, DistanceTo(v.vector))
      modifies all`edges, neighbors`len, neighbors.buf
      ensures neighbor in rest && OnLevel(neighbor, l) && neighbor != v
      ensures LinkingOk(v, l, t, rest - {neighbor}, before) && WaitingOk(v, neighbors, rest - {neighbor})
      ensures neighbors.len == old(neighbors.len) - 1 && LastOk(t, rest - {neighbor}, entry, neighbor, DistanceTo(v.vector))
    {
      hide LinkingOk, WaitingOk, Symmetric, DistanceTo, MaxEdges, LastOk, Holds, HeapOk;
      Selected(v, l, t, rest, before);
      neighbor := TakeNeighbor(v, neighbors, rest);
      LastMore(t, rest, entry, last, neighbor, DistanceTo(v.vector));
      LinkTaken(v, neighbor, l, t, rest, before);
    }

    lemma Selected(v: Vertex<V, M>, l: nat, t: set<Vertex<V, M>>, rest: set<Vertex<V, M>>, before: Edges<Vertex<V, M>>)
      requires LinkingOk(v, l, t, rest, before)
      ensures rest <= t && v in all && forall n :: n in rest ==> OnLevel(n, l) && n != v
    {
      hide GraphInv, LevelLinked;
    }

    /** An edge each way with the vertex that was taken. */
    method LinkTaken(v: Vertex<V, M>, n: Vertex<V, M>, l: nat, ghost t: set<Vertex<V, M>>, ghost rest: set<Vertex<V, M>>,
                     ghost before: Edges<Vertex<V, M>>)
      requires LinkingOk(v, l, t, rest, before) && Symmetric() && n in rest && n in all && v in all && |t| <= MaxEdges(l)
      modifies v`edges, n`edges
      ensures LinkingOk(v, l, t, rest - {n}, before)
    {
      hide GraphInv, Symmetric, LevelLinked, LinkMade, DistanceTo, MaxEdges, EdgesNow, Linkable;
      ghost var now, es, d := EdgesNow(), v.edges[l], distance(v.vector, n.vector);
      EdgesAre();
      RoomForOne(es, t, rest, n);
      LinkableAt(v, t, l, n);
      DistanceOf(v.vector, n);
      Link(v, n, l, distance(v.vector, n.vector));
      LinkedOneMore(before, now, EdgesNow(), v, n, l, t - rest, DistanceTo(v.vector), MaxEdges(l), Dead());
      OwnKeys(now, v, n, l, d, MaxEdges(l));
      assert es[n := d].Keys == es.Keys + {n} == t - (rest - {n}) == t - rest + {n};
    }

    lemma DistanceOf(query: V, n: Vertex<V, M>)
      ensures DistanceTo(query)(n) == distance(query, n.vector)
    {
    }

    lemma OwnKeys(mid: Edges<Vertex<V, M>>, v: Vertex<V, M>, n: Vertex<V, M>, l: nat, d: real, bound: nat)
      requires v in all && LinkMade(mid, EdgesNow(), v, n, l, d, bound, Dead())
      ensures v in mid && l < |mid[v]| && l < |v.edges| && v.edges[l] == mid[v][l][n := d]
    {
    }

    lemma LastMore(t: set<Vertex<V, M>>, rest: set<Vertex<V, M>>, entry: Vertex<V, M>, last: Vertex<V, M>, n: Vertex<V, M>,
                   score: Vertex<V, M> -> real)
      requires LastOk(t, rest, entry, last, score) && rest <= t && n in rest && forall u :: u in rest ==> score(u) <= score(n)
      ensures LastOk(t, rest - {n}, entry, n, score)
    {
    }

    /** `neighbors.Pop()`: the popped weight is the distance, and the farthest goes first. */
    method TakeNeighbor(v: Vertex<V, M>, neighbors: PriorityQueue<Vertex<V, M>>, ghost rest: set<Vertex<V, M>>)
      returns (neighbor: Vertex<V, M>)
      requires WaitingOk(v, neighbors, rest) && neighbors.len > 0
      modifies neighbors`len, neighbors.buf
      ensures neighbor in rest && WaitingOk(v, neighbors, rest - {neighbor}) && neighbors.len == old(neighbors.len) - 1
      ensures forall u :: u in rest ==> DistanceTo(v.vector)(u) <= DistanceTo(v.vector)(neighbor)
    {
      hide Holds, HeapOk, DistanceTo, IsFirst, neighbors.Contents;
      ghost var contents := neighbors.Contents();
      var item := neighbors.Pop();
      neighbor := item.value;
      HoldsPopFirst(contents, rest, DistanceTo(v.vector), neighbors.max, item);
      FarthestOf(contents, rest, DistanceTo(v.vector), item);
    }

    lemma RoomForOne(es: map<Vertex<V, M>, real>, t: set<Vertex<V, M>>, rest: set<Vertex<V, M>>, n: Vertex<V, M>)
      requires es.Keys == t - rest && rest <= t && n in rest
      ensures |es| < |t|
    {
      SubsetSize(es.Keys, t);
      assert |es.Keys| == |es|;
    }

    /** No edge leads to `v` or from it on the levels up to `l`. */
    ghost predicate Unlinked(v: Vertex<V, M>, l: int)
      reads this`all, all`edges
    {
      forall w, k :: w in all && 0 <= k <= l && k < |w.edges| ==> v !in w.edges[k] && (w == v ==> w.edges[k] == map[])
    }

    /** A search that starts elsewhere does not find a vertex nothing links to. */
    lemma UnlinkedNotReached(v: Vertex<V, M>, entry: Vertex<V, M>, l: nat)
      requires GraphInv() && Unlinked(v, l) && OnLevel(entry, l) && entry != v
      ensures entry in Graph(l) && v !in Reach(Graph(l), {entry})
    {
      var g := Graph(l);
      GraphFacts(l);
      var others := g.Keys - {v};
      forall w | w in others && w in g
        ensures g[w] <= others
      {
        EdgesStay(w, l);
        assert g[w] <= g.Keys;
      }
      hide Reach, Graph, GraphInv;
      ReachIsLeast(g, {entry}, others);
    }

    /** One level of `Insert`: search, select, link. The vertex gets the `m` nearest of what the
        search found. */
    method ConnectLevel(v: Vertex<V, M>, entry: Vertex<V, M>, l: nat)
      returns (last: Vertex<V, M>, ghost x: LevelLinks<Vertex<V, M>>)
      requires GraphInv() && Symmetric() && config.m <= config.mMax && config.m <= config.mMax0
      requires OnLevel(v, l) && OnLevel(entry, l) && entry != v && Unlinked(v, l)
      modifies all`edges
      ensures GraphInv() && OnLevel(last, l) && last != v
      ensures LevelLinked(old(EdgesNow()), EdgesNow(), v, l, x.chosen, DistanceTo(v.vector), MaxEdges(l), Dead())
      ensures x.entry == entry && Enters(entry, x.chosen, last, DistanceTo(v.vector))
      ensures SearchResult(LevelGraph(old(EdgesNow()), Dead(), l), entry, DistanceTo(v.vector), config.efConstruction, x.visited, x.found)
      ensures NearestSet(x.found, x.chosen, config.m, DistanceTo(v.vector))
    {
      hide GraphInv, Graph, LevelGraph, Symmetric, LevelLinked, EdgesNow, SearchResult, NearestSet, Holds, Unlinked, HeapOk, Reach, DistanceTo;
      var neighbors; ghost var visited, found;
      GraphOfEdges(l);
      neighbors, visited, found := SearchLevel(v.vector, entry, config.efConstruction, l);
      UnlinkedNotReached(v, entry, l);
      FoundLinkable(v, entry, l, visited, found);
      var selected, t := Select(v.vector, neighbors, config.m, found);
      NearestIsSmall(found, t, config.m, DistanceTo(v.vector));
      NoEdgesYet(v, l);
      last := LinkAll(v, selected, l, entry, t);
      x := LevelLinks(entry, visited, found, t);
    }

    lemma NoEdgesYet(v: Vertex<V, M>, l: nat)
      requires GraphInv() && OnLevel(v, l) && Unlinked(v, l)
      ensures l < |v.edges| && v.edges[l] == map[]
    {
      assert VertexOk(v, all);
    }

    lemma FoundLinkable(v: Vertex<V, M>, entry: Vertex<V, M>, l: nat, visited: set<Vertex<V, M>>, found: set<Vertex<V, M>>)
      requires GraphInv() && entry in Graph(l) && v !in Reach(Graph(l), {entry})
      requires SearchResult(Graph(l), entry, DistanceTo(v.vector), config.efConstruction, visited, found)
      ensures forall t :: t <= found ==> Linkable(v, t, l)
    {
      GraphFacts(l);
      hide Reach, Graph, GraphInv;
      assert found <= Reach(Graph(l), {entry}) <= Graph(l).Keys;
    }

    /** Linking on level `l` leaves the levels below untouched. */
    lemma StillUnlinked(before: Edges<Vertex<V, M>>, v: Vertex<V, M>, l: nat, chosen: set<Vertex<V, M>>, bound: nat)
      requires LevelLinked(before, EdgesNow(), v, l, chosen, DistanceTo(v.vector), bound, Dead())
      requires forall w, k :: w in before && 0 <= k < l && k < |before[w]| ==> v !in before[w][k] && (w == v ==> before[w][k] == map[])
      ensures Unlinked(v, l - 1)
    {
      hide LinkedAt;
      forall w, k | w in all && 0 <= k <= l - 1 && k < |w.edges|
        ensures v !in w.edges[k] && (w == v ==> w.edges[k] == map[])
      {
        assert RowLinked(before[w], EdgesNow()[w], w, v, l, chosen, DistanceTo(v.vector), bound, Dead());
        assert w.edges[k] == before[w][k];
      }
    }

    /** What bounds the links of an insertion. */
    function Limits(): Bounds {
      Bounds(config.m, config.efConstruction, config.mMax, config.mMax0)
    }

    /** All levels of `Insert`, from the top down. */
    method ConnectLevels(v: Vertex<V, M>, entry: Vertex<V, M>, top: nat) returns (ghost links: map<nat, LevelLinks<Vertex<V, M>>>)
      requires Valid() && OnLevel(v, top) && OnLevel(entry, top) && entry != v && Unlinked(v, top)
      modifies all`edges
      ensures Valid() && Inserted(old(EdgesNow()), EdgesNow(), v, top, entry, links, DistanceTo(v.vector), Limits(), Dead())
    {
      hide GraphInv, Symmetric, LevelLinked, Unlinked, StoreOk, TotalSize, SearchResult, NearestSet, EdgesNow, LevelGraph, Enters,
           JoinedDownTo, DistanceTo;
      var l: int, e := top, entry;
      ghost var before, score, b := EdgesNow(), DistanceTo(v.vector), Limits();
      links := map[];
      NothingJoined(before, v, top, entry, score, b, Dead());
      while l >= 0
        invariant -1 <= l <= top && Valid() && (l >= 0 ==> OnLevel(e, l) && e != v) && Unlinked(v, l)
        invariant JoinedDownTo(before, EdgesNow(), v, top, l, entry, links, score, b, Dead())
        invariant l >= 0 ==> EntersAt(top, l, entry, links, e, score)
        decreases l
      {
        ghost var now := EdgesNow();
        UnlinkedNow(v, l);
        var last; ghost var x;
        last, x := ConnectLevel(v, e, l);
        StillUnlinked(now, v, l, x.chosen, MaxEdges(l));
        JoinedOneMore(before, now, EdgesNow(), v, top, l, entry, links, x, score, b, Dead());
        links := links[l := x];
        e, l := last, l - 1;
      }
    }

    lemma UnlinkedNow(v: Vertex<V, M>, l: nat)
      requires Unlinked(v, l)
      ensures forall w, k :: w in EdgesNow() && 0 <= k < l && k < |EdgesNow()[w]| ==>
                v !in EdgesNow()[w][k] && (w == v ==> EdgesNow()[w][k] == map[])
    {
    }

    /** The greedy descent through the levels above `low`: one walk on each. */
    method Descend(query: V, start: Vertex<V, M>, low: nat) returns (entry: Vertex<V, M>, ghost walks: seq<seq<Vertex<V, M>>>)
      requires GraphInv() && start in all
      ensures entry in all && (start.level >= low ==> entry.level >= low) && (start.level < low ==> entry == start)
      ensures forall a :: a in all && a != start && NoEdges(a) ==> entry != a
      ensures distance(query, entry.vector) <= distance(query, start.vector)
      ensures Descended(EdgesNow(), Dead(), DistanceTo(query), start, start.level, low, walks) && entry == EndOf(start, walks)
    {
      hide GraphInv, Graph, LevelGraph, NoEdgeTo, GreedyWalk, WalkOk, DistanceTo, EdgesNow;
      entry, walks := start, [];
      var minDistance := distance(query, entry.vector);
      var l: int := entry.level;
      while l > low
        invariant entry in all && (l >= low ==> entry.level >= l) && (start.level >= low ==> l >= low)
        invariant start.level < low ==> entry == start && l == start.level
        invariant forall a :: a in all && a != start && NoEdges(a) ==> entry != a
        invariant minDistance == distance(query, entry.vector) <= distance(query, start.vector)
        invariant |walks| == start.level - l && entry == EndOf(start, walks)
        invariant forall i :: 0 <= i < |walks| ==> WalkOk(EdgesNow(), Dead(), DistanceTo(query), start, start.level, walks, i)
      {
        ghost var above := entry;
        ghost var walk;
        GraphOfEdges(l);
        entry, minDistance, walk := GreedyClosestNeighbor(query, entry, minDistance, l);
        forall a | a in all && a != start && NoEdges(a)
          ensures entry != a
        {
          assert a != above && NoEdgeTo(a, l);
        }
        WalkedOn(EdgesNow(), Dead(), DistanceTo(query), start, start.level, walks, walk);
        walks := walks + [walk];
        l := l - 1;
      }
    }

    /** Vectors are normalized for the cosine distance. */
    function Prepare(value: V): V {
      if cosine then normalize(value) else value
    }

    /** The edge sets once `v` is stored without edges. */
    static ghost function WithBlank(before: Edges<Vertex<V, M>>, v: Vertex<V, M>): Edges<Vertex<V, M>> {
      before[v := seq(v.level + 1, _ => map[])]
    }

    /** `Insert`. The first vertex goes to level 0; a later one goes to its level and, if that is
        higher than the entry point's, becomes the entry point. After a greedy walk down to its level it is linked on that
        and every lower level with the `m` nearest of what a search there finds. */
    method Insert(id: nat, value: V, metadata: M, vertexLevel: nat)
      returns (r: Option<Error>, ghost v: Vertex<V, M>, ghost walks: seq<seq<Vertex<V, M>>>,
               ghost links: map<nat, LevelLinks<Vertex<V, M>>>)
      requires Valid()
      modifies this`vertices, this`len, this`all, this`entrypoint, all`edges
      ensures Valid() && (r == if id in old(vertices)[ShardOf(id)] then Some(ItemAlreadyExists) else None)
      ensures r.Some? ==> (vertices == old(vertices) && len == old(len) && all == old(all) && entrypoint == old(entrypoint)
                           && EdgesNow() == old(EdgesNow()))
      ensures r.None? ==> (fresh(v) && all == old(all) + {v} && len == old(len) + 1 && vertices == WithStored(old(vertices), ShardOf(id), v)
                           && v.id == id && v.vector == (if cosine then normalize(value) else value)
                           && v.metadata == metadata && !v.deleted)
      ensures r.None? ==> v.level == if old(entrypoint) == null then 0 else vertexLevel
      ensures r.None? ==> entrypoint == if old(entrypoint) == null || v.level > old(entrypoint).level then v else old(entrypoint)
      ensures r.None? ==> forall k :: 0 <= k < |v.edges| ==> |v.edges[k]| <= config.m
      ensures r.None? && old(entrypoint) == null ==> EdgesNow() == WithBlank(old(EdgesNow()), v)
      ensures r.None? && old(entrypoint) != null ==>
                var before, start: Vertex<V, M> := WithBlank(old(EdgesNow()), v), old(entrypoint);
                var e := EndOf(start, walks);
                Descended(before, Dead(), DistanceTo(v.vector), start, start.level, v.level, walks)
                && Inserted(before, EdgesNow(), v, if e.level < v.level then e.level else v.level, e, links, DistanceTo(v.vector),
                            Bounds(config.m, config.efConstruction, config.mMax, config.mMax0), Dead())
    {
      hide GraphInv, StoreOk, TotalSize, Symmetric, Unlinked, EdgesNow, VertexOk, NoEdges, Descended, Inserted, DistanceTo, EndOf;
      var x := Prepare(value);
      walks, links := [], map[];
      EdgesAre();
      if entrypoint == null {
        var vertex := new Vertex<V, M>(id, x, metadata, 0);
        v := vertex;
        r := StoreVertex(vertex);
        if r.None? {
          StoredBlank(old(EdgesNow()), vertex);
          entrypoint := vertex;
        }
        return;
      }
      var vertex := new Vertex<V, M>(id, x, metadata, vertexLevel);
      v := vertex;
      ghost var before := all;
      AllOk();
      r := StoreVertex(vertex);
      if r.Some? {
        return;
      }
      StoredBlank(old(EdgesNow()), vertex);
      NewUnlinked(before, vertex);
      walks, links := Connect(vertex, entrypoint);
      var current := entrypoint;
      if current != null && vertex.level > current.level {
        entrypoint := vertex;
      }
    }

    /** The descent to the level of a vertex that has no edges yet, and its links. */
    method Connect(v: Vertex<V, M>, start: Vertex<V, M>)
      returns (ghost walks: seq<seq<Vertex<V, M>>>, ghost links: map<nat, LevelLinks<Vertex<V, M>>>)
      requires Valid() && v in all && start in all && start != v && (forall l: int :: Unlinked(v, l)) && NoEdges(v)
      requires v.edges == seq(v.level + 1, _ => map[])
      modifies all`edges
      ensures Valid() && forall k :: 0 <= k < |v.edges| ==> |v.edges[k]| <= config.m
      ensures var e := EndOf(start, walks);
              Descended(old(EdgesNow()), Dead(), DistanceTo(v.vector), start, start.level, v.level, walks)
              && Inserted(old(EdgesNow()), EdgesNow(), v, if e.level < v.level then e.level else v.level, e, links,
                          DistanceTo(v.vector), Limits(), Dead())
    {
      hide GraphInv, StoreOk, TotalSize, Symmetric, Unlinked, EdgesNow, VertexOk, NoEdges, Descended, JoinedDownTo, DistanceTo;
      EdgesAre();
      var entry;
      entry, walks := Descend(v.vector, start, v.level);
      ghost var blank := EdgesNow();
      links := ConnectLevels(v, entry, if entry.level < v.level then entry.level else v.level);
      OwnDegrees(blank, v, if entry.level < v.level then entry.level else v.level, entry, links);
    }

    lemma StoredBlank(before: Edges<Vertex<V, M>>, v: Vertex<V, M>)
      requires all == before.Keys + {v} && v !in before && v.edges == seq(v.level + 1, _ => map[])
      requires forall w :: w in before ==> w.edges == before[w]
      ensures EdgesNow() == WithBlank(before, v)
    {
    }

    /** The new vertex has at most `m` edges on every level. */
    lemma OwnDegrees(blank: Edges<Vertex<V, M>>, v: Vertex<V, M>, top: nat, start: Vertex<V, M>,
                     links: map<nat, LevelLinks<Vertex<V, M>>>)
      requires v in all && v in blank && blank[v] == seq(v.level + 1, _ => map[])
      requires Inserted(blank, EdgesNow(), v, top, start, links, DistanceTo(v.vector), Limits(), Dead())
      ensures forall k :: 0 <= k < |v.edges| ==> |v.edges[k]| <= config.m
    {
      hide SearchResult, Enters, LevelGraph;
      assert OtherLevelsSame(blank[v], v.edges, top, -1);
      forall k: nat | k < |v.edges|
        ensures |v.edges[k]| <= config.m
      {
        if k <= top {
          assert k in links && Joined(blank, EdgesNow(), v, k, links[k], DistanceTo(v.vector), Limits(), Dead());
          assert |v.edges[k]| == |v.edges[k].Keys|;
        }
      }
    }

    lemma AllOk()
      requires GraphInv()
      ensures forall w :: w in all ==> VertexOk(w, all)
    {
      hide VertexOk;
    }

    /** Nothing leads to a vertex that has just been stored. */
    lemma NewUnlinked(before: set<Vertex<V, M>>, v: Vertex<V, M>)
      requires (forall w :: w in before ==> VertexOk(w, before)) && v !in before && all == before + {v}
      requires v.edges == seq(v.level + 1, _ => map[])
      ensures (forall l: int :: Unlinked(v, l)) && NoEdges(v)
    {
      forall w, k | w in all && 0 <= k < |w.edges|
        ensures v !in w.edges[k] && (w == v ==> w.edges[k] == map[])
      {
        if w != v {
          assert VertexOk(w, before);
          assert EdgesOk(w, k, w.edges[k], before);
        }
      }
    }

    // ---------- Remove ----------

    /** Pruning a set that is small enough leaves all its live members. */
    lemma NothingPruned(n: Vertex<V, M>, l: nat, was: map<Vertex<V, M>, real>, less: map<Vertex<V, M>, real>,
                        es: map<Vertex<V, M>, real>, v: Vertex<V, M>, k: nat)
      requires EdgesOk(n, l, was, all) && EdgesOk(n, l, es, all) && |was| <= k && v in Dead() && less == was - {v}
      requires NearestSet(less.Keys - Dead(), es.Keys, k, DistanceTo(n.vector))
      ensures es == LiveOnly(was, Dead())
    {
      var live := less.Keys - Dead();
      assert live == was.Keys - Dead() == LiveOnly(was, Dead()).Keys;
      SubsetSize(live, was.Keys);
      assert |was.Keys| == |was|;
      SubsetSize(es.Keys, live);
    }

    /** `neighbor.removeEdge`, then pruning. */
    method UnlinkOne(n: Vertex<V, M>, v: Vertex<V, M>, l: nat)
      requires VertexOk(n, all) && OnLevel(n, l) && v in Dead()
      modifies n`edges
      ensures VertexOk(n, all) && l < |old(n.edges)| && n.edges == old(n.edges)[l := LiveOnly(old(n.edges)[l], Dead())]
    {
      hide NearestSet;
      ghost var was := n.edges;
      LevelThere(n, l);
      n.RemoveEdge(l, v);
      ghost var less := n.edges[l];
      LiveOfEdges(n, l);
      PruneNeighbors(n, MaxEdges(l), l, all);
      NothingPruned(n, l, was[l], less, n.edges[l], v, MaxEdges(l));
      EdgesChanged(n, was, l);
    }

    /** Where the loop over the neighbours of a removed vertex stands: those not in `rest` have lost their dead. */
    ghost predicate UnlinkingOk(v: Vertex<V, M>, l: nat, own: seq<map<Vertex<V, M>, real>>, rest: set<Vertex<V, M>>,
                                before: Edges<Vertex<V, M>>)
      reads this`all, all`edges, all`deleted, v`edges
    {
      GraphInv() && OnLevel(v, l) && v in Dead() && v.edges == own && l < |own|
      && EdgesNow() == PurgedSome(before, l, own[l].Keys - rest, Dead())
    }

    /** One round of the loop. */
    method UnlinkNeighbor(n: Vertex<V, M>, v: Vertex<V, M>, l: nat, ghost own: seq<map<Vertex<V, M>, real>>,
                          ghost rest: set<Vertex<V, M>>, ghost before: Edges<Vertex<V, M>>)
      requires UnlinkingOk(v, l, own, rest, before) && n in rest && rest <= own[l].Keys
      modifies n`edges
      ensures UnlinkingOk(v, l, own, rest - {n}, before)
    {
      hide VertexOk, GraphInv, LiveOnly, PurgedSome;
      ghost var now, done := EdgesNow(), own[l].Keys - rest;
      EdgesStay(v, l);
      AllOk();
      UntouchedYet(before, now, l, done, n, Dead());
      UnlinkOne(n, v, l);
      GraphInvAgain(n);
      assert EdgesNow() == now[n := n.edges];
      PurgedOneMore(before, l, done, n, Dead(), EdgesNow());
      assert done + {n} == own[l].Keys - (rest - {n});
    }

    lemma GraphInvAgain(n: Vertex<V, M>)
      requires VertexOk(n, all) && forall w :: w in all && w != n ==> VertexOk(w, all)
      ensures GraphInv()
    {
      hide VertexOk;
    }

    lemma UntouchedYet(before: Edges<Vertex<V, M>>, now: Edges<Vertex<V, M>>, l: nat, done: set<Vertex<V, M>>, n: Vertex<V, M>,
                       dead: set<Vertex<V, M>>)
      requires now == PurgedSome(before, l, done, dead) && n !in done && n in now
      ensures n in before && now[n] == before[n]
    {
    }

    /** One level of `Remove`: the neighbours of `v` drop their edge to it and are pruned. */
    method UnlinkLevel(v: Vertex<V, M>, l: nat)
      requires GraphInv() && OnLevel(v, l) && v in Dead()
      modifies all`edges
      ensures GraphInv() && v.edges == old(v.edges) && l < |v.edges|
      ensures EdgesNow() == PurgedSome(old(EdgesNow()), l, v.edges[l].Keys, Dead())
    {
      hide GraphInv, UnlinkingOk, PurgedSome;
      EdgesStay(v, l);
      ghost var own, before := v.edges, EdgesNow();
      var neighbors := v.edges[l].Keys;
      UnlinkingBegins(v, l);
      while neighbors != {}
        invariant neighbors <= own[l].Keys && UnlinkingOk(v, l, own, neighbors, before)
        decreases |neighbors|
      {
        var n :| n in neighbors;
        UnlinkingTarget(v, l, own, neighbors, before, n);
        UnlinkNeighbor(n, v, l, own, neighbors, before);
        neighbors := neighbors - {n};
      }
      UnlinkingEnds(v, l, own, before);
    }

    lemma UnlinkingTarget(v: Vertex<V, M>, l: nat, own: seq<map<Vertex<V, M>, real>>, rest: set<Vertex<V, M>>,
                          before: Edges<Vertex<V, M>>, n: Vertex<V, M>)
      requires UnlinkingOk(v, l, own, rest, before) && n in rest && rest <= own[l].Keys
      ensures n in all && n != v
    {
      EdgesStay(v, l);
    }

    lemma UnlinkingBegins(v: Vertex<V, M>, l: nat)
      requires GraphInv() && OnLevel(v, l) && v in Dead() && l < |v.edges|
      ensures UnlinkingOk(v, l, v.edges, v.edges[l].Keys, EdgesNow())
    {
      assert v.edges[l].Keys - v.edges[l].Keys == {};
      PurgedNone(EdgesNow(), l, Dead());
    }

    lemma UnlinkingEnds(v: Vertex<V, M>, l: nat, own: seq<map<Vertex<V, M>, real>>, before: Edges<Vertex<V, M>>)
      requires UnlinkingOk(v, l, own, {}, before)
      ensures GraphInv() && v.edges == own && l < |own| && EdgesNow() == PurgedSome(before, l, own[l].Keys, Dead())
    {
      assert own[l].Keys - {} == own[l].Keys;
    }

    /** The levels of `Remove`, from the top down. */
    method UnlinkLevels(v: Vertex<V, M>)
      requires GraphInv() && v in all && v in Dead()
      modifies all`edges
      ensures GraphInv() && v.edges == old(v.edges) && EdgesNow() == Purged(old(EdgesNow()), v, Dead())
    {
      hide GraphInv, PurgedAbove, PurgedSome;
      ghost var before := EdgesNow();
      LevelCount(v);
      PurgedNoLevel(before, v, Dead());
      var l: int := v.level;
      while l >= 0
        invariant -1 <= l <= v.level && GraphInv() && v.edges == old(v.edges)
        invariant EdgesNow() == PurgedAbove(before, v, l, Dead())
      {
        UnlinkLevel(v, l);
        PurgedNextLevel(before, v, l, Dead());
        l := l - 1;
      }
    }

    lemma LevelCount(v: Vertex<V, M>)
      requires GraphInv() && v in all
      ensures |v.edges| == v.level + 1
    {
      assert VertexOk(v, all);
    }

    /** The nearest of one edge set below `d`, if there is one. */
    method NearestEdge(es: map<Vertex<V, M>, real>, d: real) returns (closest: Vertex?<V, M>)
      ensures closest == null ==> forall n :: n in es ==> es[n] >= d
      ensures closest != null ==> closest in es && es[closest] < d && forall n :: n in es ==> es[closest] <= es[n]
    {
      closest := null;
      var minDistance := d;
      var rest := es.Keys;
      while rest != {}
        invariant rest <= es.Keys
        invariant if closest == null then minDistance == d else closest in es && minDistance == es[closest] < d
        invariant forall n :: n in es.Keys - rest ==> es[n] >= minDistance
        decreases |rest|
      {
        var n :| n in rest;
        rest := rest - {n};
        if es[n] < minDistance {
          minDistance := es[n];
          closest := n;
        }
      }
    }

    /** The successor of a removed entry point: its nearest neighbour on the highest level that has
        one, or nothing. */
    ghost predicate Succeeds(edges: seq<map<Vertex<V, M>, real>>, next: Vertex?<V, M>) {
      if next == null then forall k :: 0 <= k < |edges| ==> NoEdgeBelow(edges[k])
      else exists l :: 0 <= l < |edges| && NearestOn(edges, next, l)
    }

    ghost predicate NearestOn(edges: seq<map<Vertex<V, M>, real>>, next: Vertex<V, M>, l: nat)
      requires l < |edges|
    {
      next in edges[l] && (forall n :: n in edges[l] ==> edges[l][next] <= edges[l][n])
      && (forall k :: l < k < |edges| ==> NoEdgeBelow(edges[k]))
    }

    ghost predicate NoEdgeBelow(es: map<Vertex<V, M>, real>) {
      forall n :: n in es ==> es[n] >= MAX_FLOAT
    }

    method FindSuccessor(v: Vertex<V, M>) returns (next: Vertex?<V, M>)
      requires |v.edges| == v.level + 1
      ensures Succeeds(v.edges, next)
    {
      next := null;
      var l: int := v.level;
      while l >= 0
        invariant next == null && -1 <= l <= v.level && forall k :: l < k < |v.edges| ==> NoEdgeBelow(v.edges[k])
      {
        next := NearestEdge(v.edges[l], MAX_FLOAT);
        if next != null {
          assert NearestOn(v.edges, next, l);
          return;
        }
        l := l - 1;
      }
    }

    lemma SuccessorStored(v: Vertex<V, M>, next: Vertex?<V, M>)
      requires GraphInv() && v in all && Succeeds(v.edges, next)
      ensures next != null ==> next in all
    {
      if next != null {
        var l :| 0 <= l < |v.edges| && NearestOn(v.edges, next, l);
        LevelCount(v);
        EdgesStay(v, l);
      }
    }

    /** `Remove`. */
    method Remove(id: nat) returns (r: Option<Error>, ghost v: Vertex?<V, M>)
      requires Valid()
      modifies this`vertices, this`len, this`entrypoint, all`deleted, all`edges
      ensures Valid() && (r == if id in old(vertices)[ShardOf(id)] then None else Some(ItemNotFound))
      ensures r.Some? ==> (vertices == old(vertices) && len == old(len) && entrypoint == old(entrypoint)
                           && EdgesNow() == old(EdgesNow()) && Dead() == old(Dead()))
      ensures r.None? ==> (v == old(vertices)[ShardOf(id)][id] && v in all && v.edges == old(v.edges)
                           && vertices == Without(old(vertices), ShardOf(id), id) && len == old(len) - 1
                           && Dead() == old(Dead()) + {v})
      ensures r.None? ==> if old(entrypoint) == v then Succeeds(v.edges, entrypoint) else entrypoint == old(entrypoint)
      ensures r.None? ==> var gone: Vertex<V, M> := v; EdgesNow() == Purged(old(EdgesNow()), gone, Dead())
      ensures r.None? ==> forall l, n :: 0 <= l < |v.edges| && n in v.edges[l] ==> l < |n.edges| && v !in n.edges[l]
    {
      hide GraphInv, StoreOk, TotalSize, Symmetric, EdgesNow, Succeeds, Purged;
      ghost var before := EdgesNow();
      EdgesAre();
      var vertex := RemoveVertex(id);
      v := vertex;
      if vertex == null {
        assert Dead() == old(Dead());
        return Some(ItemNotFound), v;
      }
      assert Dead() == old(Dead()) + {vertex};
      LevelCount(vertex);
      if entrypoint == vertex {
        entrypoint := FindSuccessor(vertex);
        SuccessorStored(vertex, entrypoint);
      }
      EdgesAre();
      assert EdgesNow() == before;
      UnlinkLevels(vertex);
      NobodyLeft(before, vertex);
      return None, v;
    }

    /** No neighbour of the removed vertex leads to it any more. */
    lemma NobodyLeft(before: Edges<Vertex<V, M>>, v: Vertex<V, M>)
      requires GraphInv() && before.Keys == all && v in all && before[v] == v.edges && v in Dead() && EdgesNow() == Purged(before, v, Dead())
      ensures forall l, n :: 0 <= l < |v.edges| && n in v.edges[l] ==> l < |n.edges| && v !in n.edges[l]
    {
      hide GraphInv, EdgesNow, Purged;
      var now := EdgesNow();
      EdgesAre();
      LevelCount(v);
      forall l: nat, n: Vertex<V, M> | l < |v.edges| && n in v.edges[l]
        ensures l < |n.edges| && v !in n.edges[l]
      {
        EdgesStay(v, l);
        EdgesStay(n, l);
        PurgedNeighbor<Vertex<V, M>>(before, now, v, n, l, Dead());
      }
    }

    // ---------- Search ----------

    /** `chosen` are the `k` nearest of a set, or all of it, in ascending order of distance. */
    ghost predicate NearestInOrder(all: set<Vertex<V, M>>, chosen: seq<Vertex<V, M>>, k: nat, score: Vertex<V, M> -> real) {
      InOrder(chosen, score) && NearestSet(all, Members(chosen), k, score)
    }

    ghost predicate Answers(result: seq<SearchItem<M>>, chosen: seq<Vertex<V, M>>, score: Vertex<V, M> -> real) {
      |result| == |chosen|
      && forall i :: 0 <= i < |result| ==> result[i] == SearchItem(chosen[i].id, chosen[i].metadata, score(chosen[i]))
    }

    /** `Search`: the greedy descent, best-first search on level 0 from where it ends, and the
        nearest of what that finds. With room for everything reachable from there the answer is
        exactly its `k` nearest. */
    method Search(value: V, k: nat)
      returns (result: seq<SearchItem<M>>, ghost query: V, ghost entry: Option<Vertex<V, M>>, ghost walks: seq<seq<Vertex<V, M>>>,
               ghost visited: set<Vertex<V, M>>, ghost found: set<Vertex<V, M>>, ghost chosen: seq<Vertex<V, M>>)
      requires Valid()
      ensures query == if cosine then normalize(value) else value
      ensures entrypoint == null <==> entry == None
      ensures entrypoint == null ==> result == []
      ensures entrypoint != null ==>
                var start: Vertex<V, M> := entrypoint;
                Descended(EdgesNow(), Dead(), DistanceTo(query), start, start.level, 0, walks)
                && entry.value == EndOf(start, walks)
                && distance(query, entry.value.vector) <= distance(query, entrypoint.vector)
      ensures entrypoint != null ==> (entry.value in all && Answers(result, chosen, DistanceTo(query))
                && SearchResult(Graph(0), entry.value, DistanceTo(query), if config.ef >= k then config.ef else k, visited, found)
                && NearestInOrder(found, chosen, k, DistanceTo(query)))
      ensures entrypoint != null && k > 0 ==>
                result != [] && result[0].score <= distance(query, entry.value.vector)
      ensures entrypoint != null && (|Reach(Graph(0), {entry.value})| <= config.ef || |Reach(Graph(0), {entry.value})| <= k)
              ==> NearestInOrder(Reach(Graph(0), {entry.value}), chosen, k, DistanceTo(query))
    {
      hide GraphInv, StoreOk, TotalSize, Symmetric, Graph, Reach, DistanceTo, NearestInOrder, Answers, SearchResult, Descended, EndOf;
      var x := Prepare(value);
      query := x;
      result, entry, walks, visited, found, chosen := [], None, [], {}, {}, [];
      if entrypoint == null {
        return;
      }
      var e;
      e, walks := Descend(x, entrypoint, 0);
      entry := Some(e);
      result, visited, found, chosen := SearchFrom(x, e, k);
    }

    /** The search on level 0 from `e`, the selection and the answers. */
    method SearchFrom(query: V, e: Vertex<V, M>, k: nat)
      returns (result: seq<SearchItem<M>>, ghost visited: set<Vertex<V, M>>, ghost found: set<Vertex<V, M>>,
               ghost chosen: seq<Vertex<V, M>>)
      requires GraphInv() && e in all
      ensures e in Graph(0) && Answers(result, chosen, DistanceTo(query)) && NearestInOrder(found, chosen, k, DistanceTo(query))
      ensures SearchResult(Graph(0), e, DistanceTo(query), EfFor(k), visited, found)
      ensures k > 0 ==> result != [] && result[0].score <= distance(query, e.vector)
      ensures |Reach(Graph(0), {e})| <= EfFor(k) ==> NearestInOrder(Reach(Graph(0), {e}), chosen, k, DistanceTo(query))
    {
      hide GraphInv, Graph, Reach, Holds, HeapOk, NearestSet, DistanceTo, NearestInOrder, Answers, SearchResult;
      var neighbors;
      neighbors, visited, found := SearchLevel(query, e, EfFor(k), 0);
      EverythingFound(Graph(0), e, DistanceTo(query), EfFor(k), visited, found);
      var selected, t := Select(query, neighbors, k, found);
      result, chosen := Collect(query, selected, t, found, k);
      if k > 0 {
        FirstIsNear(query, e, EfFor(k), k, visited, found, chosen, result);
      }
    }

    /** The first answer is no farther than the vertex the search on level 0 began at. */
    lemma FirstIsNear(query: V, e: Vertex<V, M>, ef: int, k: nat, visited: set<Vertex<V, M>>, found: set<Vertex<V, M>>,
                      chosen: seq<Vertex<V, M>>, result: seq<SearchItem<M>>)
      requires GraphInv() && SearchResult(Graph(0), e, DistanceTo(query), ef, visited, found) && k > 0
      requires NearestInOrder(found, chosen, k, DistanceTo(query)) && Answers(result, chosen, DistanceTo(query))
      ensures result != [] && result[0].score <= distance(query, e.vector)
    {
      hide Reach, Graph, GraphInv;
      var score := DistanceTo(query);
      var near :| near in found && forall w :: w in visited ==> score(near) <= score(w);
      SubsetSize({near}, found);
      assert Members(chosen) != {};
      var some :| some in Members(chosen);
      assert some in chosen && chosen[0] in Members(chosen);
      if near in Members(chosen) {
        var i :| 0 <= i < |chosen| && chosen[i] == near;
        assert score(chosen[0]) <= score(near);
      }
    }

    lemma EverythingFound(g: map<Vertex<V, M>, set<Vertex<V, M>>>, entry: Vertex<V, M>, score: Vertex<V, M> -> real, ef: int,
                          visited: set<Vertex<V, M>>, found: set<Vertex<V, M>>)
      requires SearchResult(g, entry, score, ef, visited, found)
      ensures entry in g && (|Reach(g, {entry})| <= ef ==> found == Reach(g, {entry}))
    {
      hide Reach;
    }

    function EfFor(k: nat): int {
      if config.ef >= k then config.ef else k
    }

    lemma QueueEmpty(neighbors: PriorityQueue<Vertex<V, M>>, rest: set<Vertex<V, M>>, score: Vertex<V, M> -> real)
      requires neighbors.Valid() && Holds(neighbors.Contents(), rest, score) && neighbors.len == 0
      ensures rest == {}
    {
      HoldsSize(neighbors.Contents(), rest, score);
    }

    /** The results, popped farthest first and filled in from the end. */
    method Collect(query: V, neighbors: PriorityQueue<Vertex<V, M>>, ghost t: set<Vertex<V, M>>, ghost found: set<Vertex<V, M>>, k: nat)
      returns (result: seq<SearchItem<M>>, ghost chosen: seq<Vertex<V, M>>)
      requires neighbors.Valid() && neighbors.max && Holds(neighbors.Contents(), t, DistanceTo(query))
      requires NearestSet(found, t, k, DistanceTo(query))
      modifies neighbors, neighbors.buf
      ensures Answers(result, chosen, DistanceTo(query)) && NearestInOrder(found, chosen, k, DistanceTo(query))
    {
      hide Holds, HeapOk, NearestSet, neighbors.Contents, CollectedOk;
      ghost var score, rest := DistanceTo(query), t;
      result, chosen := [], [];
      CollectBegins(t, score);
      while neighbors.len > 0
        invariant neighbors.Valid() && neighbors.max && Holds(neighbors.Contents(), rest, score)
        invariant neighbors.buf == old(neighbors.buf)
        invariant CollectedOk(result, chosen, rest, t, score)
        decreases neighbors.len
      {
        var item := TakeFarthest(neighbors, score, rest);
        CollectMore(result, chosen, rest, t, score, item.value);
        result := [SearchItem(item.value.id, item.value.metadata, item.priority)] + result;
        chosen := [item.value] + chosen;
        rest := rest - {item.value};
      }
      QueueEmpty(neighbors, rest, score);
      CollectEnds(result, chosen, t, score);
    }

    method TakeFarthest(neighbors: PriorityQueue<Vertex<V, M>>, ghost score: Vertex<V, M> -> real, ghost rest: set<Vertex<V, M>>)
      returns (item: Item<Vertex<V, M>>)
      requires neighbors.Valid() && neighbors.max && Holds(neighbors.Contents(), rest, score) && neighbors.len > 0
      modifies neighbors`len, neighbors.buf
      ensures neighbors.Valid() && neighbors.len == old(neighbors.len) - 1
      ensures item.value in rest && item == ItemFor(item.value, score) && Holds(neighbors.Contents(), rest - {item.value}, score)
      ensures forall u :: u in rest ==> score(u) <= score(item.value)
    {
      hide Holds, HeapOk, IsFirst, neighbors.Contents;
      ghost var contents := neighbors.Contents();
      item := neighbors.Pop();
      HoldsPopFirst(contents, rest, score, true, item);
      FarthestOf(contents, rest, score, item);
    }

    ghost function Members(chosen: seq<Vertex<V, M>>): set<Vertex<V, M>> {
      set v | v in chosen
    }

    ghost predicate InOrder(chosen: seq<Vertex<V, M>>, score: Vertex<V, M> -> real) {
      forall i, j :: 0 <= i < j < |chosen| ==> chosen[i] != chosen[j] && score(chosen[i]) <= score(chosen[j])
    }

    /** What was popped so far, farthest last; the rest is no farther. */
    ghost predicate CollectedOk(result: seq<SearchItem<M>>, chosen: seq<Vertex<V, M>>, rest: set<Vertex<V, M>>, t: set<Vertex<V, M>>,
                                score: Vertex<V, M> -> real) {
      Answers(result, chosen, score) && InOrder(chosen, score) && rest <= t
      && Members(chosen) == t - rest
      && forall u, v :: u in rest && v in chosen ==> score(u) <= score(v)
    }

    lemma CollectBegins(t: set<Vertex<V, M>>, score: Vertex<V, M> -> real)
      ensures CollectedOk([], [], t, t, score)
    {
    }

    lemma CollectMore(result: seq<SearchItem<M>>, chosen: seq<Vertex<V, M>>, rest: set<Vertex<V, M>>, t: set<Vertex<V, M>>,
                      score: Vertex<V, M> -> real, x: Vertex<V, M>)
      requires CollectedOk(result, chosen, rest, t, score) && x in rest && forall u :: u in rest ==> score(u) <= score(x)
      ensures CollectedOk([SearchItem(x.id, x.metadata, score(x))] + result, [x] + chosen, rest - {x}, t, score)
    {
      var now := [x] + chosen;
      assert forall i :: 0 < i < |now| ==> now[i] == chosen[i - 1] && now[i] in chosen;
      assert Members(now) == Members(chosen) + {x};
    }

    lemma CollectEnds(result: seq<SearchItem<M>>, chosen: seq<Vertex<V, M>>, t: set<Vertex<V, M>>, score: Vertex<V, M> -> real)
      requires CollectedOk(result, chosen, {}, t, score)
      ensures Answers(result, chosen, score) && InOrder(chosen, score) && t == Members(chosen)
    {
    }
  }
}
