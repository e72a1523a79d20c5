/** Whole runs of `Insert` and `Remove` on an HNSW index. */
module HnswRuns {
  import opened Common
  import opened Graphs
  import opened HnswIndex
  import opened HnswLinks
  import opened HnswNet
  import opened HnswVertices

  datatype Op<V, M> = Insertion(id: nat, value: V, metadata: M, level: nat) | Removal(id: nat)

  datatype Held<V, M> = Held(vector: V, metadata: M)

  /** The same operation on a finite map from ids. */
  function MapAfter<V, M>(m: map<nat, Held<V, M>>, op: Op<V, M>, cosine: bool, normalize: V -> V): map<nat, Held<V, M>> {
    match op
    case Insertion(id, value, metadata, _) => if id in m then m else m[id := Held(if cosine then normalize(value) else value, metadata)]
    case Removal(id) => m - {id}
  }

  function ErrorOf<V, M>(m: map<nat, Held<V, M>>, op: Op<V, M>): Option<Error> {
    match op
    case Insertion(id, _, _, _) => if id in m then Some(ItemAlreadyExists) else None
    case Removal(id) => if id in m then None else Some(ItemNotFound)
  }

  function MapAfterAll<V, M>(m: map<nat, Held<V, M>>, ops: seq<Op<V, M>>, cosine: bool, normalize: V -> V): map<nat, Held<V, M>> {
    if ops == [] then m else MapAfter(MapAfterAll(m, ops[..|ops| - 1], cosine, normalize), ops[|ops| - 1], cosine, normalize)
  }

  function ErrorsOf<V, M>(m: map<nat, Held<V, M>>, ops: seq<Op<V, M>>, cosine: bool, normalize: V -> V): seq<Option<Error>> {
    if ops == [] then []
    else
      var front := ops[..|ops| - 1];
      ErrorsOf(m, front, cosine, normalize) + [ErrorOf(MapAfterAll(m, front, cosine, normalize), ops[|ops| - 1])]
  }

  lemma OneMore<V, M>(m: map<nat, Held<V, M>>, ops: seq<Op<V, M>>, i: nat, cosine: bool, normalize: V -> V)
    requires i < |ops|
    ensures var before := MapAfterAll(m, ops[..i], cosine, normalize);
            MapAfterAll(m, ops[..i + 1], cosine, normalize) == MapAfter(before, ops[i], cosine, normalize)
            && ErrorsOf(m, ops[..i + 1], cosine, normalize) == ErrorsOf(m, ops[..i], cosine, normalize) + [ErrorOf(before, ops[i])]
  {
    hide MapAfter, ErrorOf;
    assert ops[..i + 1][..i] == ops[..i];
  }

  /** The shards hold exactly the entries of `m`, each id in its shard. */
  ghost predicate Holds<V(!new), M>(h: Hnsw<V, M>, m: map<nat, Held<V, M>>)
    reads h
  {
    |h.vertices| == VERTICES_MAP_SHARD_COUNT
    && forall id: nat :: HoldsId(h.vertices[h.ShardOf(id)], m, id)
  }

  ghost predicate HoldsId<V, M>(shard: map<nat, Vertex<V, M>>, m: map<nat, Held<V, M>>, id: nat) {
    (id in shard <==> id in m) && (id in shard ==> m[id] == Held(shard[id].vector, shard[id].metadata))
  }

  lemma HoldsAfterInsert<V(!new), M>(h: Hnsw<V, M>, was: seq<map<nat, Vertex<V, M>>>, m: map<nat, Held<V, M>>, v: Vertex<V, M>)
    requires |was| == VERTICES_MAP_SHARD_COUNT && forall id: nat :: HoldsId(was[h.ShardOf(id)], m, id)
    requires h.vertices == h.WithStored(was, h.ShardOf(v.id), v)
    ensures Holds(h, m[v.id := Held(v.vector, v.metadata)])
  {
    hide h.ShardOf;
    forall id: nat
      ensures HoldsId(h.vertices[h.ShardOf(id)], m[v.id := Held(v.vector, v.metadata)], id)
    {
      assert HoldsId(was[h.ShardOf(id)], m, id);
    }
  }

  lemma HoldsAfterRemove<V(!new), M>(h: Hnsw<V, M>, was: seq<map<nat, Vertex<V, M>>>, m: map<nat, Held<V, M>>, gone: nat)
    requires |was| == VERTICES_MAP_SHARD_COUNT && forall id: nat :: HoldsId(was[h.ShardOf(id)], m, id)
    requires h.vertices == h.Without(was, h.ShardOf(gone), gone)
    ensures Holds(h, m - {gone})
  {
    hide h.ShardOf;
    forall id: nat
      ensures HoldsId(h.vertices[h.ShardOf(id)], m - {gone}, id)
    {
      assert HoldsId(was[h.ShardOf(id)], m, id);
    }
  }

  lemma NothingHeld<V(!new), M>(h: Hnsw<V, M>)
    requires h.Valid() && h.all == {}
    ensures Holds(h, map[])
  {
    hide h.GraphInv, h.ShardOf, h.TotalSize;
    forall id: nat
      ensures HoldsId(h.vertices[h.ShardOf(id)], map[], id)
    {
      assert id in h.vertices[h.ShardOf(id)]
          ==> h.EntryOk(h.vertices[h.ShardOf(id)][id], h.ShardOf(id), id, h.all, h.Dead());
    }
  }

  // ---------- runs of insertions with room for all edges ----------

  /** Nothing was removed, and on level 0 every vertex leads to every other. */
  ghost predicate Netted<V(!new), M>(h: Hnsw<V, M>)
    reads h, h.all
  {
    h.Dead() == {} && (h.entrypoint == null <==> h.all == {}) && Net(h.EdgesNow())
  }

  /** The edge bounds leave room for `n` vertices. */
  predicate Roomy(config: Config, n: nat) {
    config.m >= 1 && n <= config.mMax0 + 1
  }

  lemma NothingNetted<V(!new), M>(h: Hnsw<V, M>)
    requires h.all == {} && h.entrypoint == null
    ensures Netted(h)
  {
  }

  lemma NoLoopsNow<V(!new), M>(h: Hnsw<V, M>)
    requires h.GraphInv()
    ensures NoLoops(h.EdgesNow())
  {
    hide h.EdgesOk;
    forall u | u in h.all
      ensures |u.edges| > 0 && u.edges[0].Keys <= h.all - {u}
    {
      assert h.VertexOk(u, h.all);
      h.EdgesStay(u, 0);
    }
  }

  lemma NettedMore<V(!new), M>(h: Hnsw<V, M>, before: Edges<Vertex<V, M>>, v: Vertex<V, M>, start: Vertex<V, M>, top: nat,
                               links: map<nat, LevelLinks<Vertex<V, M>>>)
    requires h.Valid() && Net(before) && v !in before && h.Dead() == {} && h.entrypoint != null && Roomy(h.config, |h.all|)
    requires Inserted(h.WithBlank(before, v), h.EdgesNow(), v, top, start, links, h.DistanceTo(v.vector), h.Limits(), {})
    ensures Netted(h)
  {
    hide h.GraphInv, h.StoreInv, Net, Inserted, h.DistanceTo;
    NoLoopsNow(h);
    h.EdgesAre();
    var row := h.WithBlank(before, v)[v];
    assert before[v := row] == h.WithBlank(before, v);
    NetGrows(before, row, h.EdgesNow(), v, top, start, links, h.DistanceTo(v.vector), h.Limits());
  }

  lemma NettedFirst<V(!new), M>(h: Hnsw<V, M>, before: Edges<Vertex<V, M>>, v: Vertex<V, M>)
    requires before == map[] && h.all == {v} && h.Dead() == {} && h.entrypoint != null && h.EdgesNow() == h.WithBlank(before, v)
    ensures Netted(h)
  {
    hide Net;
    NetOfOne(h.EdgesNow(), v);
  }

  /** After insertions only, and with room for `n` vertices, level 0 is connected. */
  ghost predicate NettedAfter<V(!new), M>(h: Hnsw<V, M>, ops: seq<Op<V, M>>, n: nat)
    reads h, h.all
  {
    (forall i :: 0 <= i < |ops| ==> ops[i].Insertion?) && Roomy(h.config, n) ==> Netted(h)
  }

  /** `Insert` on an index on which nothing was removed. */
  method InsertNetted<V(!new), M>(h: Hnsw<V, M>, id: nat, value: V, metadata: M, level: nat)
    returns (r: Option<Error>, ghost v: Vertex<V, M>)
    requires h.Valid()
    modifies h, h.all
    ensures h.Valid() && old(h.all) <= h.all && fresh(h.all - old(h.all)) && |h.all| <= |old(h.all)| + 1
    ensures r == if id in old(h.vertices)[h.ShardOf(id)] then Some(ItemAlreadyExists) else None
    ensures r.Some? ==> h.vertices == old(h.vertices)
    ensures r.None? ==> v.id == id && v.vector == (if h.cosine then h.normalize(value) else value) && v.metadata == metadata
                        && h.vertices == h.WithStored(old(h.vertices), h.ShardOf(id), v)
    ensures old(Netted(h)) && Roomy(h.config, |h.all|) ==> Netted(h)
  {
    hide h.Valid, Net, Inserted, Descended, h.DistanceTo, EndOf, h.EdgesNow;
    ghost var before, start, dead := h.EdgesNow(), h.entrypoint, h.Dead();
    h.EdgesAre();
    ghost var walks, links;
    r, v, walks, links := h.Insert(id, value, metadata, level);
    if r.None? {
      assert dead == {} ==> h.Dead() == {};
      if dead == {} && Net(before) && (start == null <==> before.Keys == {}) && Roomy(h.config, |h.all|) {
        if start == null {
          assert before == map[] && h.all == {v};
          NettedFirst(h, before, v);
        } else {
          ghost var from: Vertex<V, M> := start;
          ghost var e := EndOf(from, walks);
          NettedMore(h, before, v, e, if e.level < v.level then e.level else v.level, links);
        }
      }
    }
  }

  /** With room for all edges and for all vertices, the search is exact: the `k` nearest of everything stored, in order. */
  method SearchExactly<V(!new), M>(h: Hnsw<V, M>, value: V, k: nat)
    returns (result: seq<SearchItem<M>>, ghost query: V, ghost chosen: seq<Vertex<V, M>>)
    requires h.Valid() && Netted(h) && (|h.all| <= h.config.ef || |h.all| <= k)
    ensures query == if h.cosine then h.normalize(value) else value
    ensures h.all != {} ==> h.Answers(result, chosen, h.DistanceTo(query)) && h.NearestInOrder(h.all, chosen, k, h.DistanceTo(query))
    ensures h.all == {} ==> result == []
    ensures h.all != {} && k >= |h.all| ==> h.Members(chosen) == h.all
  {
    hide h.Valid, Net, Descended, Reach, EndOf, h.Answers, h.NearestInOrder, h.DistanceTo;
    ghost var entry, walks, visited, found;
    result, query, entry, walks, visited, found, chosen := h.Search(value, k);
    if h.all != {} {
      AllReached(h, entry.value);
      if k >= |h.all| {
        AllChosen(h, chosen, k, h.DistanceTo(query));
      }
    }
  }

  lemma AllChosen<V(!new), M>(h: Hnsw<V, M>, chosen: seq<Vertex<V, M>>, k: nat, score: Vertex<V, M> -> real)
    requires h.NearestInOrder(h.all, chosen, k, score) && k >= |h.all|
    ensures h.Members(chosen) == h.all
  {
    SubsetSize(h.Members(chosen), h.all);
  }

  lemma AllReached<V(!new), M>(h: Hnsw<V, M>, e: Vertex<V, M>)
    requires h.Valid() && Netted(h) && e in h.all
    ensures e in h.Graph(0) && Reach(h.Graph(0), {e}) == h.all
  {
    hide Reach, LevelGraph;
    h.GraphOfEdges(0);
    h.EdgesAre();
    h.GraphFacts(0);
    assert LeadsEverywhere(h.EdgesNow(), e);
  }

  method Perform<V(!new), M>(h: Hnsw<V, M>, op: Op<V, M>, ghost m: map<nat, Held<V, M>>) returns (r: Option<Error>)
    requires h.Valid() && Holds(h, m)
    modifies h, h.all
    ensures h.Valid() && old(h.all) <= h.all && fresh(h.all - old(h.all)) && |h.all| <= |old(h.all)| + 1
    ensures Holds(h, MapAfter(m, op, h.cosine, h.normalize)) && r == ErrorOf(m, op)
    ensures op.Insertion? && old(Netted(h)) && Roomy(h.config, |h.all|) ==> Netted(h)
  {
    hide h.Valid, Netted;
    ghost var was := h.vertices;
    assert HoldsId(was[h.ShardOf(op.id)], m, op.id);
    match op
    case Insertion(id, value, metadata, level) =>
      ghost var v;
      r, v := InsertNetted(h, id, value, metadata, level);
      if r.None? {
        HoldsAfterInsert(h, was, m, v);
      }
    case Removal(id) =>
      ghost var v;
      r, v := h.Remove(id);
      if r.None? {
        HoldsAfterRemove(h, was, m, id);
      } else {
        assert m - {id} == m;
      }
  }

  /** `Perform`, as one more operation of a run. */
  method PerformNext<V(!new), M>(h: Hnsw<V, M>, ops: seq<Op<V, M>>, i: nat, ghost m: map<nat, Held<V, M>>) returns (r: Option<Error>)
    requires h.Valid() && Holds(h, m) && i < |ops| && |h.all| <= i && NettedAfter(h, ops[..i], |ops|)
    modifies h, h.all
    ensures h.Valid() && old(h.all) <= h.all && fresh(h.all - old(h.all)) && |h.all| <= i + 1
    ensures Holds(h, MapAfter(m, ops[i], h.cosine, h.normalize)) && r == ErrorOf(m, ops[i])
    ensures NettedAfter(h, ops[..i + 1], |ops|)
  {
    hide h.Valid, Holds, MapAfter, ErrorOf, Netted;
    assert ops[..i + 1][i] == ops[i] && forall j :: 0 <= j < i ==> ops[..i + 1][j] == ops[..i][j];
    r := Perform(h, ops[i], m);
  }

  /**
   * After any run on a new index every invariant of the graph and of the shards holds, the answers are those of a
   * finite map, and the index holds exactly what that map holds. A run of insertions for which the edge bounds leave room
   * keeps level 0 connected, so that every search with enough room is exact.
   */
  method PerformAll<V(!new), M>(distance: (V, V) -> real, cosine: bool, normalize: V -> V, config: Config, hash: nat -> nat,
                                ops: seq<Op<V, M>>)
    returns (h: Hnsw<V, M>, errors: seq<Option<Error>>)
    requires forall a, b :: distance(a, b) == distance(b, a)
    requires config.m <= config.mMax && config.m <= config.mMax0
    ensures h.Valid() && h.normalize == normalize && h.cosine == cosine
    ensures Holds(h, MapAfterAll(map[], ops, cosine, normalize)) && errors == ErrorsOf(map[], ops, cosine, normalize)
    ensures h.config == config && |h.all| <= |ops|
    ensures NettedAfter(h, ops, |ops|)
  {
    h := new Hnsw<V, M>(distance, cosine, normalize, config, hash);
    NothingHeld(h);
    NothingNetted(h);
    hide h.Valid, Holds, NettedAfter, MapAfter, ErrorOf;
    assert MapAfterAll(map[], ops[..0], cosine, normalize) == map[];
    errors := [];
    hide MapAfterAll, ErrorsOf;
    for i := 0 to |ops|
      invariant fresh(h) && fresh(h.all) && h.Valid() && h.cosine == cosine && h.normalize == normalize
      invariant h.config == config && |h.all| <= i
      invariant NettedAfter(h, ops[..i], |ops|)
      invariant Holds(h, MapAfterAll(map[], ops[..i], cosine, normalize)) && errors == ErrorsOf(map[], ops[..i], cosine, normalize)
    {
      OneMore(map[], ops, i, cosine, normalize);
      var r := PerformNext(h, ops, i, MapAfterAll(map[], ops[..i], cosine, normalize));
      errors := errors + [r];
    }
    assert ops[..|ops|] == ops;
  }
}
