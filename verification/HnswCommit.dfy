/**
 * The snapshot of an HNSW object, and what loading it says about the object.
 *
 * Both passes of `Commit` visit the shards in order and each shard's map in any order. The ghost results list what was
 * visited, so that the bytes are a function of those lists, and the lists are full listings of the maps. Loading then
 * gives the maps back whatever the lists were.
 */
module HnswCommits {
  import opened Common
  import opened ListCodec
  import opened VertexFormat
  import opened VertexCodec
  import opened Graphs
  import opened HnswVertices
  import opened HnswFormat
  import opened HnswHeader
  import opened HnswIndex
  import opened HnswSnapshot

  datatype CommitError = NoEntrypoint

  /** How vectors, metadata and weights become bits: 32-bit floats, marshalled values. */
  datatype Encoding<!V, !M> = Encoding(vector: V -> seq<nat>, metadata: M -> map<Bytes, Bytes>, weight: real -> nat)

  function StoredOf<V, M>(c: Encoding<V, M>, v: Vertex<V, M>): Stored {
    Stored(v.level, c.vector(v.vector), c.metadata(v.metadata))
  }

  ghost function TableOf<V, M>(c: Encoding<V, M>, shard: map<nat, Vertex<V, M>>): Table {
    map id | id in shard :: StoredOf(c, shard[id])
  }

  ghost function TablesNow<V, M>(c: Encoding<V, M>, shards: seq<map<nat, Vertex<V, M>>>): seq<Table> {
    seq(|shards|, s requires 0 <= s < |shards| => TableOf(c, shards[s]))
  }

  // ---------- live edges by id ----------

  ghost function IdsOf<V, M>(some: set<Vertex<V, M>>): set<nat> {
    set n | n in some :: n.id
  }

  /** A live neighbour is the vertex stored under its id. */
  lemma NeighborById<V(!new), M>(h: Hnsw<V, M>, v: Vertex<V, M>, l: nat, n: Vertex<V, M>)
    requires h.Valid() && v in h.all && l <= v.level && l < |v.edges| && n in h.LiveNeighbors(v, l)
    ensures |h.vertices| == VERTICES_MAP_SHARD_COUNT && n in v.edges[l]
    ensures n.id in h.vertices[h.ShardOf(n.id)] && h.vertices[h.ShardOf(n.id)][n.id] == n
  {
    assert h.VertexOk(v, h.all);
    assert h.EdgesOk(v, l, v.edges[l], h.all);
    assert n !in h.Dead();
    assert h.StoredAt(h.vertices, n);
  }

  lemma NeighborsById<V(!new), M>(h: Hnsw<V, M>, v: Vertex<V, M>, l: nat)
    requires h.Valid() && v in h.all && l <= v.level
    ensures l < |v.edges| && |h.vertices| == VERTICES_MAP_SHARD_COUNT
    ensures forall n :: n in h.LiveNeighbors(v, l) ==>
        n in v.edges[l] && n.id in h.vertices[h.ShardOf(n.id)] && h.vertices[h.ShardOf(n.id)][n.id] == n
  {
    assert h.VertexOk(v, h.all);
    forall n | n in h.LiveNeighbors(v, l)
      ensures n in v.edges[l] && n.id in h.vertices[h.ShardOf(n.id)] && h.vertices[h.ShardOf(n.id)][n.id] == n
    {
      NeighborById(h, v, l, n);
    }
  }

  /** The live edges of a vertex on a level, by the id of the neighbour. */
  ghost function LinkMap<V(!new), M>(h: Hnsw<V, M>, c: Encoding<V, M>, v: Vertex<V, M>, l: nat): map<nat, nat>
    requires h.Valid() && v in h.all && l <= v.level
    reads h, h.all
  {
    NeighborsById(h, v, l);
    map id | id in IdsOf(h.LiveNeighbors(v, l)) :: c.weight(v.edges[l][h.vertices[h.ShardOf(id)][id]])
  }

  lemma LinkMapHolds<V(!new), M>(h: Hnsw<V, M>, c: Encoding<V, M>, v: Vertex<V, M>, l: nat)
    requires h.Valid() && v in h.all && l <= v.level
    ensures l < |v.edges| && LinkMap(h, c, v, l).Keys == IdsOf(h.LiveNeighbors(v, l))
    ensures forall n :: n in h.LiveNeighbors(v, l) ==>
        n in v.edges[l] && n.id in LinkMap(h, c, v, l) && LinkMap(h, c, v, l)[n.id] == c.weight(v.edges[l][n])
    ensures IdsDistinct(h.LiveNeighbors(v, l))
  {
    hide h.Valid, h.LiveNeighbors, h.ShardOf;
    NeighborsById(h, v, l);
  }

  ghost predicate IdsDistinct<V, M>(some: set<Vertex<V, M>>) {
    forall a, b :: a in some && b in some && a.id == b.id ==> a == b
  }

  ghost predicate ShowsLinks<V(!new), M>(h: Hnsw<V, M>, c: Encoding<V, M>, v: Vertex<V, M>, levels: seq<map<nat, nat>>)
    requires h.Valid() && v in h.all
    reads h, h.all
  {
    |levels| == v.level + 1 && forall l :: 0 <= l <= v.level ==> levels[l] == LinkMap(h, c, v, l)
  }

  /** The edge maps of all vertices of a shard. */
  ghost predicate ShowsShard<V(!new), M>(h: Hnsw<V, M>, c: Encoding<V, M>, shard: map<nat, Vertex<V, M>>,
                                         t: map<nat, seq<map<nat, nat>>>)
    requires h.Valid()
    reads h, h.all
  {
    t.Keys == shard.Keys && forall id :: id in t ==> shard[id] in h.all && ShowsLinks(h, c, shard[id], t[id])
  }

  ghost predicate ShowsAll<V(!new), M>(h: Hnsw<V, M>, c: Encoding<V, M>, links: seq<map<nat, seq<map<nat, nat>>>>)
    requires h.Valid()
    reads h, h.all
  {
    |links| == |h.vertices| && forall s :: 0 <= s < |links| ==> ShowsShard(h, c, h.vertices[s], links[s])
  }

  // ---------- the first pass ----------

  method CommitMetadata(m: map<Bytes, Bytes>) returns (bytes: Bytes, ghost meta: seq<Field>)
    ensures bytes == Be(|meta|, 2) + Cat(FieldBytes, meta)
    ensures Listed(FieldKey, FieldValue, meta, m, m.Keys)
  {
    hide Be, Cat, FieldBytes, Listed;
    meta := [];
    bytes := [];
    ListedNone(FieldKey, FieldValue, m);
    NothingWritten(FieldBytes);
    var rest := m.Keys;
    assert m.Keys - rest == {};
    while rest != {}
      invariant rest <= m.Keys && Listed(FieldKey, FieldValue, meta, m, m.Keys - rest) && bytes == Cat(FieldBytes, meta)
      decreases |rest|
    {
      var k :| k in rest;
      ghost var kv := Field(k, m[k]);
      ListedMore(FieldKey, FieldValue, meta, m, m.Keys - rest, kv);
      CatSnoc(FieldBytes, meta, kv);
      assert m.Keys - (rest - {k}) == m.Keys - rest + {k};
      bytes := bytes + FieldBytes(Field(k, m[k]));
      meta := meta + [kv];
      rest := rest - {k};
    }
    assert m.Keys - {} == m.Keys;
    ListedSize(FieldKey, FieldValue, meta, m);
    bytes := Be(|m|, 2) + bytes;
  }

  ghost predicate MetaListed<V, M>(c: Encoding<V, M>, v: Vertex<V, M>, e: VertexEntry) {
    Listed(FieldKey, FieldValue, e.meta, c.metadata(v.metadata), c.metadata(v.metadata).Keys)
  }

  ghost predicate ShardMetaListed<V, M>(c: Encoding<V, M>, shard: map<nat, Vertex<V, M>>, es: seq<VertexEntry>) {
    forall e :: e in es ==> e.id in shard && MetaListed(c, shard[e.id], e)
  }

  method CommitVertex<V(!new), M>(c: Encoding<V, M>, v: Vertex<V, M>) returns (bytes: Bytes, ghost e: VertexEntry)
    ensures e.id == v.id && bytes == VertexBytes(e) && VertexValue(e) == StoredOf(c, v) && MetaListed(c, v, e)
  {
    hide Be, Cat, FieldBytes, Listed, WordsBytes, MapOf;
    var meta; ghost var fields;
    meta, fields := CommitMetadata(c.metadata(v.metadata));
    e := VertexEntry(v.id, v.level, c.vector(v.vector), fields);
    MapOfAll(FieldKey, FieldValue, fields, c.metadata(v.metadata));
    bytes := Be(v.id, 8) + Be(LevelWord(v.level), 4) + WordsBytes(c.vector(v.vector)) + meta;
  }

  method CommitShard<V(!new), M>(c: Encoding<V, M>, shard: map<nat, Vertex<V, M>>)
    returns (bytes: Bytes, ghost es: seq<VertexEntry>)
    requires forall id :: id in shard ==> shard[id].id == id
    ensures bytes == VerticesBytes(es) && ShardMetaListed(c, shard, es)
    ensures Listed(VertexKey, VertexValue, es, TableOf(c, shard), TableOf(c, shard).Keys)
  {
    hide Be, Cat, VertexBytes, Listed, VertexValue, StoredOf, MetaListed;
    ghost var table := TableOf(c, shard);
    es := [];
    bytes := [];
    ListedNone(VertexKey, VertexValue, table);
    NothingWritten(VertexBytes);
    var rest := shard.Keys;
    assert table.Keys - rest == {};
    while rest != {}
      invariant rest <= shard.Keys && Listed(VertexKey, VertexValue, es, table, table.Keys - rest)
      invariant bytes == Cat(VertexBytes, es) && ShardMetaListed(c, shard, es)
      decreases |rest|
    {
      var k :| k in rest;
      var some; ghost var e;
      some, e := CommitVertex(c, shard[k]);
      ListedMore(VertexKey, VertexValue, es, table, table.Keys - rest, e);
      CatSnoc(VertexBytes, es, e);
      assert table.Keys - (rest - {k}) == table.Keys - rest + {k};
      bytes := bytes + some;
      es := es + [e];
      rest := rest - {k};
    }
    assert table.Keys - {} == table.Keys;
    ListedSize(VertexKey, VertexValue, es, table);
    assert |table.Keys| == |shard.Keys|;
    bytes := Be(|shard|, 4) + bytes;
  }

  // ---------- the second pass ----------

  /** One level of one vertex: the live edges are counted first, then written. */
  method CommitLevel<V(!new), M>(h: Hnsw<V, M>, c: Encoding<V, M>, v: Vertex<V, M>, l: nat)
    returns (bytes: Bytes, ghost links: seq<Link>)
    requires h.Valid() && v in h.all && l <= v.level && l < |v.edges|
    ensures bytes == LevelBytes(links) && ListsLevel(links, LinkMap(h, c, v, l))
  {
    hide Be, Cat, LinkBytes, Listed, h.Valid, LinkMap, IdsOf, IdsDistinct;
    var edgesCount := CountLive(h, v, l);
    ghost var m, live := LinkMap(h, c, v, l), h.LiveNeighbors(v, l);
    LinkMapHolds(h, c, v, l);
    links := [];
    bytes := [];
    ListedNone(LinkKey, LinkValue, m);
    NothingWritten(LinkBytes);
    var rest := v.edges[l].Keys;
    NoIds(live, rest);
    while rest != {}
      invariant rest <= v.edges[l].Keys
      invariant Listed(LinkKey, LinkValue, links, m, IdsOf(live - rest)) && bytes == Cat(LinkBytes, links)
      decreases |rest|
    {
      var n :| n in rest;
      IdsStep(live, rest, n);
      rest := rest - {n};
      if n.deleted {
        continue;
      }
      ghost var x := Link(n.id, c.weight(v.edges[l][n]));
      ListedMore(LinkKey, LinkValue, links, m, IdsOf(live - rest - {n}), x);
      CatSnoc(LinkBytes, links, x);
      bytes := bytes + LinkBytes(Link(n.id, c.weight(v.edges[l][n])));
      links := links + [x];
    }
    assert live - {} == live;
    ListedSize(LinkKey, LinkValue, links, m);
    OneIdEach(live);
    assert |m.Keys| == |m|;
    bytes := Be(edgesCount, 4) + bytes;
  }

  lemma NoIds<V, M>(live: set<Vertex<V, M>>, rest: set<Vertex<V, M>>)
    requires live <= rest
    ensures IdsOf(live - rest) == {}
  {
  }

  /** One neighbour less to go: a live one adds its id, which is new. */
  lemma IdsStep<V, M>(live: set<Vertex<V, M>>, rest: set<Vertex<V, M>>, n: Vertex<V, M>)
    requires n in rest && IdsDistinct(live)
    ensures n !in live ==> IdsOf(live - (rest - {n})) == IdsOf(live - rest)
    ensures live - (rest - {n}) - {n} == live - rest
    ensures n in live ==> IdsOf(live - (rest - {n})) == IdsOf(live - rest) + {n.id} && n.id !in IdsOf(live - rest)
  {
    if n in live {
      assert live - (rest - {n}) == live - rest + {n};
    } else {
      assert live - (rest - {n}) == live - rest;
    }
  }

  lemma {:induction false} OneIdEach<V, M>(some: set<Vertex<V, M>>)
    requires IdsDistinct(some)
    ensures |IdsOf(some)| == |some|
    decreases some
  {
    if some != {} {
      var n :| n in some;
      OneIdEach(some - {n});
      assert IdsOf(some) == IdsOf(some - {n}) + {n.id};
    } else {
      assert IdsOf(some) == {};
    }
  }

  method CountLive<V(!new), M>(h: Hnsw<V, M>, v: Vertex<V, M>, l: nat) returns (edgesCount: nat)
    requires l < |v.edges|
    ensures edgesCount == |h.LiveNeighbors(v, l)|
  {
    edgesCount := 0;
    var rest := v.edges[l].Keys;
    while rest != {}
      invariant rest <= v.edges[l].Keys && edgesCount == |h.LiveNeighbors(v, l) - rest|
      decreases |rest|
    {
      var n :| n in rest;
      if !n.deleted {
        edgesCount := edgesCount + 1;
        assert h.LiveNeighbors(v, l) - (rest - {n}) == h.LiveNeighbors(v, l) - rest + {n};
      } else {
        assert h.LiveNeighbors(v, l) - (rest - {n}) == h.LiveNeighbors(v, l) - rest;
      }
      rest := rest - {n};
    }
    assert h.LiveNeighbors(v, l) - {} == h.LiveNeighbors(v, l);
  }

  /** What has been written of a vertex: its levels above `l`. */
  ghost predicate LevelsWritten<V(!new), M>(h: Hnsw<V, M>, c: Encoding<V, M>, v: Vertex<V, M>, l: int,
                                            lists: seq<seq<Link>>, shown: seq<map<nat, nat>>)
    requires h.Valid() && v in h.all
    reads h, h.all
  {
    -1 <= l <= v.level && |lists| == |shown| == v.level - l
    && (forall k :: 0 <= k < |shown| ==> ListsLevel(lists[|shown| - 1 - k], shown[k]))
    && (forall k :: 0 <= k < |shown| ==> shown[k] == LinkMap(h, c, v, l + 1 + k))
  }

  lemma LevelsWrittenMore<V(!new), M>(h: Hnsw<V, M>, c: Encoding<V, M>, v: Vertex<V, M>, l: nat,
                                      lists: seq<seq<Link>>, shown: seq<map<nat, nat>>, links: seq<Link>)
    requires h.Valid() && v in h.all && LevelsWritten(h, c, v, l, lists, shown) && ListsLevel(links, LinkMap(h, c, v, l))
    ensures LevelsWritten(h, c, v, l - 1, lists + [links], [LinkMap(h, c, v, l)] + shown)
  {
    hide h.Valid, LinkMap, ListsLevel;
  }

  lemma LevelsDone<V(!new), M>(h: Hnsw<V, M>, c: Encoding<V, M>, v: Vertex<V, M>, lists: seq<seq<Link>>, shown: seq<map<nat, nat>>)
    requires h.Valid() && v in h.all && LevelsWritten(h, c, v, -1, lists, shown)
    ensures ListsLevels(EdgeEntry(v.id, lists), shown) && ShowsLinks(h, c, v, shown)
  {
    hide h.Valid, LinkMap, ListsLevel;
  }

  /** All levels of one vertex, from the top down. */
  method CommitEdges<V(!new), M>(h: Hnsw<V, M>, c: Encoding<V, M>, v: Vertex<V, M>)
    returns (bytes: Bytes, ghost e: EdgeEntry, ghost levels: seq<map<nat, nat>>)
    requires h.Valid() && v in h.all
    ensures e.id == v.id && bytes == EdgeBytes(e) && ListsLevels(e, levels) && ShowsLinks(h, c, v, levels)
  {
    hide Be, Cat, LevelBytes, h.Valid, LevelsWritten, ListsLevels, ShowsLinks;
    bytes := Be(v.id, 8);
    NothingWritten(LevelBytes);
    ghost var lists: seq<seq<Link>> := [];
    levels := [];
    var l := v.level;
    NoLevels(h, c, v);
    while l >= 0
      invariant -1 <= l <= v.level && LevelsWritten(h, c, v, l, lists, levels)
      invariant bytes == Be(v.id, 8) + Cat(LevelBytes, lists)
    {
      LevelThere(h, v, l);
      var some; ghost var links;
      some, links := CommitLevel(h, c, v, l);
      LevelsWrittenMore(h, c, v, l, lists, levels, links);
      CatSnoc(LevelBytes, lists, links);
      bytes := bytes + some;
      lists := lists + [links];
      levels := [LinkMap(h, c, v, l)] + levels;
      l := l - 1;
    }
    LevelsDone(h, c, v, lists, levels);
    e := EdgeEntry(v.id, lists);
  }

  lemma NoLevels<V(!new), M>(h: Hnsw<V, M>, c: Encoding<V, M>, v: Vertex<V, M>)
    requires h.Valid() && v in h.all
    ensures LevelsWritten(h, c, v, v.level, [], [])
  {
    hide h.Valid;
  }

  lemma LevelThere<V(!new), M>(h: Hnsw<V, M>, v: Vertex<V, M>, l: nat)
    requires h.Valid() && v in h.all && l <= v.level
    ensures l < |v.edges|
  {
    hide h.StoreInv, h.EdgesOk;
    assert h.VertexOk(v, h.all);
  }

  /** What the second pass has written of a shard. */
  ghost predicate EdgesWritten<V(!new), M>(h: Hnsw<V, M>, c: Encoding<V, M>, shard: map<nat, Vertex<V, M>>,
                                           es: seq<EdgeEntry>, t: map<nat, seq<map<nat, nat>>>)
    requires h.Valid()
    reads h, h.all
  {
    && t.Keys <= shard.Keys && ListsEdges(es, t)
    && forall id :: id in t ==> shard[id] in h.all && ShowsLinks(h, c, shard[id], t[id])
  }

  lemma EdgesWrittenMore<V(!new), M>(h: Hnsw<V, M>, c: Encoding<V, M>, shard: map<nat, Vertex<V, M>>,
                                     es: seq<EdgeEntry>, t: map<nat, seq<map<nat, nat>>>, e: EdgeEntry,
                                     levels: seq<map<nat, nat>>)
    requires h.Valid() && EdgesWritten(h, c, shard, es, t) && e.id in shard && e.id !in t && shard[e.id] in h.all
    requires ListsLevels(e, levels) && ShowsLinks(h, c, shard[e.id], levels)
    ensures EdgesWritten(h, c, shard, es + [e], t[e.id := levels])
  {
    hide h.Valid, ListsLevels, ShowsLinks, ListsEdges;
    ListsEdgesMore(es, t, e, levels);
    assert t[e.id := levels].Keys == t.Keys + {e.id};
  }

  lemma ListsEdgesMore(es: seq<EdgeEntry>, t: map<nat, seq<map<nat, nat>>>, e: EdgeEntry, levels: seq<map<nat, nat>>)
    requires ListsEdges(es, t) && e.id !in t && ListsLevels(e, levels)
    ensures ListsEdges(es + [e], t[e.id := levels])
  {
    hide ListsLevels, HasKey;
    var more, t' := es + [e], t[e.id := levels];
    assert t'.Keys == t.Keys + {e.id} && |t'| == |t'.Keys| == |t.Keys| + 1;
    forall id | id in t'
      ensures HasKey(EdgeKey, more, id)
    {
      KeySnoc(es, e, id);
    }
  }

  ghost predicate OwnIds<V, M>(shard: map<nat, Vertex<V, M>>, all: set<Vertex<V, M>>) {
    forall id :: id in shard ==> shard[id] in all && shard[id].id == id
  }

  method CommitEdgeShard<V(!new), M>(h: Hnsw<V, M>, c: Encoding<V, M>, shard: map<nat, Vertex<V, M>>)
    returns (bytes: Bytes, ghost es: seq<EdgeEntry>, ghost t: map<nat, seq<map<nat, nat>>>)
    requires h.Valid() && OwnIds(shard, h.all)
    ensures bytes == EdgesBytes(es) && ListsEdges(es, t) && ShowsShard(h, c, shard, t)
  {
    hide h.Valid, Cat, EdgeBytes, EdgesWritten, ListsLevels, ShowsLinks;
    es := [];
    t := map[];
    bytes := [];
    NothingWritten(EdgeBytes);
    NoEdgesWritten(h, c, shard);
    var rest := shard.Keys;
    while rest != {}
      invariant rest <= shard.Keys && t.Keys == shard.Keys - rest
      invariant EdgesWritten(h, c, shard, es, t) && bytes == Cat(EdgeBytes, es)
      decreases |rest|
    {
      var k :| k in rest;
      var some; ghost var e; ghost var levels;
      some, e, levels := CommitEdges(h, c, shard[k]);
      EdgesWrittenMore(h, c, shard, es, t, e, levels);
      CatSnoc(EdgeBytes, es, e);
      bytes := bytes + some;
      es := es + [e];
      t := t[k := levels];
      rest := rest - {k};
    }
    AllEdgesWritten(h, c, shard, es, t);
  }

  lemma NoEdgesWritten<V(!new), M>(h: Hnsw<V, M>, c: Encoding<V, M>, shard: map<nat, Vertex<V, M>>)
    requires h.Valid()
    ensures EdgesWritten(h, c, shard, [], map[])
  {
    hide h.Valid;
  }

  lemma AllEdgesWritten<V(!new), M>(h: Hnsw<V, M>, c: Encoding<V, M>, shard: map<nat, Vertex<V, M>>,
                                    es: seq<EdgeEntry>, t: map<nat, seq<map<nat, nat>>>)
    requires h.Valid() && EdgesWritten(h, c, shard, es, t) && t.Keys == shard.Keys
    ensures ListsEdges(es, t) && ShowsShard(h, c, shard, t)
  {
    hide h.Valid, ListsEdges, ShowsLinks;
  }

  // ---------- the whole snapshot ----------

  lemma ShardsOwn<V(!new), M>(h: Hnsw<V, M>)
    requires h.Valid()
    ensures |h.vertices| == VERTICES_MAP_SHARD_COUNT
    ensures forall s :: 0 <= s < |h.vertices| ==> OwnIds(h.vertices[s], h.all)
  {
    hide h.GraphInv;
    forall s, id | 0 <= s < |h.vertices| && id in h.vertices[s]
      ensures h.vertices[s][id] in h.all && h.vertices[s][id].id == id
    {
      assert h.EntryOk(h.vertices[s][id], s, id, h.all, h.Dead());
    }
  }

  ghost predicate VerticesWritten<V, M>(c: Encoding<V, M>, shards: seq<map<nat, Vertex<V, M>>>, vs: seq<seq<VertexEntry>>) {
    |vs| == |shards|
    && (forall s :: 0 <= s < |vs| ==> Listed(VertexKey, VertexValue, vs[s], TableOf(c, shards[s]), TableOf(c, shards[s]).Keys))
    && forall s :: 0 <= s < |vs| ==> ShardMetaListed(c, shards[s], vs[s])
  }

  method CommitVertices<V(!new), M>(h: Hnsw<V, M>, c: Encoding<V, M>) returns (bytes: Bytes, ghost vs: seq<seq<VertexEntry>>)
    requires h.Valid()
    ensures bytes == Cat(VerticesBytes, vs) && VerticesWritten(c, h.vertices, vs)
  {
    hide h.Valid, Cat, VerticesBytes, Listed, TableOf, VertexValue, ShardMetaListed;
    ShardsOwn(h);
    vs := [];
    bytes := [];
    NothingWritten(VerticesBytes);
    for s := 0 to |h.vertices|
      invariant VerticesWritten(c, h.vertices[..s], vs) && bytes == Cat(VerticesBytes, vs)
    {
      var some; ghost var es;
      some, es := CommitShard(c, h.vertices[s]);
      CatSnoc(VerticesBytes, vs, es);
      bytes := bytes + some;
      vs := vs + [es];
    }
    assert h.vertices[..|h.vertices|] == h.vertices;
  }

  ghost predicate AllEdgesListed<V(!new), M>(h: Hnsw<V, M>, c: Encoding<V, M>, n: nat, es: seq<seq<EdgeEntry>>,
                                             links: seq<map<nat, seq<map<nat, nat>>>>)
    requires h.Valid()
    reads h, h.all
  {
    n <= |h.vertices| && |es| == |links| == n
    && forall s :: 0 <= s < n ==> ListsEdges(es[s], links[s]) && ShowsShard(h, c, h.vertices[s], links[s])
  }

  method CommitAllEdges<V(!new), M>(h: Hnsw<V, M>, c: Encoding<V, M>)
    returns (bytes: Bytes, ghost es: seq<seq<EdgeEntry>>, ghost links: seq<map<nat, seq<map<nat, nat>>>>)
    requires h.Valid()
    ensures bytes == Cat(EdgesBytes, es) && AllEdgesListed(h, c, |h.vertices|, es, links)
  {
    hide h.Valid, Cat, EdgesBytes, ListsEdges, ShowsShard;
    ShardsOwn(h);
    es := [];
    links := [];
    bytes := [];
    NothingWritten(EdgesBytes);
    for s := 0 to |h.vertices|
      invariant AllEdgesListed(h, c, s, es, links) && bytes == Cat(EdgesBytes, es)
    {
      var some; ghost var list; ghost var t;
      some, list, t := CommitEdgeShard(h, c, h.vertices[s]);
      CatSnoc(EdgesBytes, es, list);
      bytes := bytes + some;
      es := es + [list];
      links := links + [t];
    }
  }

  /** Both passes over the object, and what they listed. */
  ghost predicate Committed<V(!new), M>(h: Hnsw<V, M>, c: Encoding<V, M>, vs: seq<seq<VertexEntry>>, es: seq<seq<EdgeEntry>>,
                                        links: seq<map<nat, seq<map<nat, nat>>>>)
    requires h.Valid()
    reads h, h.all
  {
    VerticesWritten(c, h.vertices, vs) && AllEdgesListed(h, c, |h.vertices|, es, links)
  }

  /** What the header holds beside the configuration. */
  datatype Space = Space(levelMultiplier: nat, dim: nat, distance: Distance)

  function HeaderOf(config: Config, space: Space): Header {
    Header(if config.heuristic then 1 else 0, space.levelMultiplier, config.ef, config.efConstruction, config.m, config.mMax,
           config.mMax0, space.dim, space.distance)
  }

  /** The bytes of `Commit`, with or without the header. An index without vertices writes nothing after it. */
  ghost function CommitBytes<V(!new), M>(h: Hnsw<V, M>, space: Option<Space>, vs: seq<seq<VertexEntry>>,
                                         es: seq<seq<EdgeEntry>>): Bytes
    requires h.len > 0 ==> h.entrypoint != null
    reads h
  {
    (if space.Some? then
       HeaderBytes(Header(if h.config.heuristic then 1 else 0, space.value.levelMultiplier, h.config.ef, h.config.efConstruction,
                          h.config.m, h.config.mMax, h.config.mMax0, space.value.dim, space.value.distance))
     else [])
    + if h.len > 0 then SnapshotBytes(h.entrypoint.id, vs, es) else []
  }

  /** `Commit`. */
  method Commit<V(!new), M>(h: Hnsw<V, M>, c: Encoding<V, M>, space: Option<Space>)
    returns (r: Result<Bytes, CommitError>, ghost vs: seq<seq<VertexEntry>>, ghost es: seq<seq<EdgeEntry>>,
             ghost links: seq<map<nat, seq<map<nat, nat>>>>)
    requires h.Valid()
    ensures r.Err? <==> h.len > 0 && h.entrypoint == null
    ensures r.Ok? ==> r.value == CommitBytes(h, space, vs, es) && (h.len > 0 ==> Committed(h, c, vs, es, links))
  {
    hide h.Valid, Cat, Be, VerticesBytes, EdgesBytes, VerticesWritten, AllEdgesListed, HeaderBytes;
    vs, es, links := [], [], [];
    var head: Bytes := [];
    if space.Some? {
      head := HeaderBytes(HeaderOf(h.config, space.value));
    }
    if h.len == 0 {
      assert head + [] == head;
      return Ok(head), vs, es, links;
    }
    if h.entrypoint == null {
      return Err(NoEntrypoint), vs, es, links;
    }
    var entry := Be(h.entrypoint.id, 8);
    var vertices, edges;
    vertices, vs := CommitVertices(h, c);
    edges, es, links := CommitAllEdges(h, c);
    assert head + entry + vertices + edges == head + (entry + vertices + edges);
    return Ok(head + entry + vertices + edges), vs, es, links;
  }

  // ---------- loading what was committed ----------

  /** What `Load` finds is the object: vertices, edge maps, length, and the entry by id. */
  ghost predicate Restores<V(!new), M>(h: Hnsw<V, M>, c: Encoding<V, M>, links: seq<map<nat, seq<map<nat, nat>>>>, x: Loaded)
    requires h.Valid() && h.entrypoint != null
    reads h, h.all
  {
    && x.shards == TablesNow(c, h.vertices) && x.len == h.len && ShowsAll(h, c, links)
    && x.edges == seq(|links|, i requires 0 <= i < |links| => FoundTable(links[i]))
    && x.entry == if h.entrypoint.id in h.vertices[h.ShardOf(h.entrypoint.id)] then To(h.entrypoint.id) else Nil
  }

  ghost predicate MetaFits(m: map<Bytes, Bytes>) {
    |m| < TWO16 && forall k :: k in m ==> |k| < 256 && |m[k]| < TWO16
  }

  ghost predicate StoredFits(id: nat, x: Stored, dim: nat) {
    id < TWO64 && x.level < TWO31 && |x.vector| == dim && (forall i :: 0 <= i < dim ==> x.vector[i] < TWO32)
    && MetaFits(x.metadata)
  }

  /** The object fits the widths of the format: vectors of length `dim`, short metadata, bounded degrees. */
  ghost predicate Encodable<V(!new), M>(h: Hnsw<V, M>, c: Encoding<V, M>, dim: nat)
    reads h
  {
    && (forall s, id :: 0 <= s < |h.vertices| && id in h.vertices[s] ==> StoredFits(id, StoredOf(c, h.vertices[s][id]), dim))
    && (forall s :: 0 <= s < |h.vertices| ==> |h.vertices[s]| < TWO32)
    && (forall w :: c.weight(w) < TWO32) && h.config.mMax < TWO32 && h.config.mMax0 < TWO32
  }

  lemma ShardEntriesFit<V(!new), M>(c: Encoding<V, M>, shard: map<nat, Vertex<V, M>>, es: seq<VertexEntry>, dim: nat)
    requires Listed(VertexKey, VertexValue, es, TableOf(c, shard), TableOf(c, shard).Keys) && ShardMetaListed(c, shard, es)
    requires |shard| < TWO32 && forall id :: id in shard ==> StoredFits(id, StoredOf(c, shard[id]), dim)
    ensures ShardFits(es, dim)
  {
    hide MapOf;
    ListedSize(VertexKey, VertexValue, es, TableOf(c, shard));
    assert TableOf(c, shard).Keys == shard.Keys && |TableOf(c, shard)| == |shard|;
    forall e | e in es
      ensures VertexFits(e, dim)
    {
      assert VertexKey(e) in TableOf(c, shard);
      var m := c.metadata(shard[e.id].metadata);
      ListedSize(FieldKey, FieldValue, e.meta, m);
      FieldsFit(e.meta, m);
    }
  }

  lemma FieldsFit(meta: seq<Field>, m: map<Bytes, Bytes>)
    requires Listed(FieldKey, FieldValue, meta, m, m.Keys) && MetaFits(m)
    ensures |meta| < TWO16 && forall i :: 0 <= i < |meta| ==> FieldFits(meta[i])
  {
    forall i | 0 <= i < |meta|
      ensures FieldFits(meta[i])
    {
      assert FieldKey(meta[i]) in m;
    }
  }

  lemma LinksFit<V(!new), M>(h: Hnsw<V, M>, c: Encoding<V, M>, v: Vertex<V, M>, l: nat, links: seq<Link>, dim: nat)
    requires h.Valid() && Encodable(h, c, dim) && v in h.all && l <= v.level && ListsLevel(links, LinkMap(h, c, v, l))
    ensures LevelFits(links)
  {
    hide h.Valid, Encodable, LinkMap, h.ShardOf, IdsOf;
    LinkMapHolds(h, c, v, l);
    NeighborsById(h, v, l);
    ListedSize(LinkKey, LinkValue, links, LinkMap(h, c, v, l));
    OneIdEach(h.LiveNeighbors(v, l));
    assert |LinkMap(h, c, v, l).Keys| == |LinkMap(h, c, v, l)|;
    FewNeighbors(h, c, v, l, dim);
    forall x | x in links
      ensures LinkFits(x)
    {
      assert LinkKey(x) in LinkMap(h, c, v, l);
      LinkFrom(h, c, v, l, x.to);
      var n :| n in h.LiveNeighbors(v, l) && n.id == x.to;
      IdAndWeightFit(h, c, h.ShardOf(n.id), n.id, v.edges[l][n], dim);
    }
  }

  lemma LinkFrom<V(!new), M>(h: Hnsw<V, M>, c: Encoding<V, M>, v: Vertex<V, M>, l: nat, k: nat)
    requires h.Valid() && v in h.all && l <= v.level && k in LinkMap(h, c, v, l)
    ensures l < |v.edges| && exists n :: n in h.LiveNeighbors(v, l) && n.id == k
  {
    hide h.Valid, LinkMap;
    LinkMapHolds(h, c, v, l);
  }

  lemma IdAndWeightFit<V(!new), M>(h: Hnsw<V, M>, c: Encoding<V, M>, s: nat, id: nat, w: real, dim: nat)
    requires Encodable(h, c, dim) && s < |h.vertices| && id in h.vertices[s]
    ensures id < TWO64 && c.weight(w) < TWO32
  {
  }

  lemma FewNeighbors<V(!new), M>(h: Hnsw<V, M>, c: Encoding<V, M>, v: Vertex<V, M>, l: nat, dim: nat)
    requires h.Valid() && Encodable(h, c, dim) && v in h.all && l <= v.level
    ensures l < |v.edges| && |h.LiveNeighbors(v, l)| < TWO32
  {
    hide h.StoreInv, h.EdgesOk;
    assert h.VertexOk(v, h.all);
    assert h.LiveNeighbors(v, l) <= v.edges[l].Keys;
    SubsetSize(h.LiveNeighbors(v, l), v.edges[l].Keys);
    assert |v.edges[l].Keys| == |v.edges[l]|;
  }

  lemma ShardEdgesFit<V(!new), M>(h: Hnsw<V, M>, c: Encoding<V, M>, s: nat, es: seq<EdgeEntry>, t: map<nat, seq<map<nat, nat>>>,
                                  dim: nat)
    requires h.Valid() && Encodable(h, c, dim) && s < |h.vertices| && ListsEdges(es, t) && ShowsShard(h, c, h.vertices[s], t)
    ensures EdgeListFits(es)
  {
    hide h.Valid, Encodable, LinkMap, LevelFits, ListsLevel;
    forall e | e in es
      ensures EdgeFits(e)
    {
      var v := h.vertices[s][e.id];
      IdAndWeightFit(h, c, s, e.id, 0.0, dim);
      forall k | 0 <= k < |e.levels|
        ensures LevelFits(e.levels[k])
      {
        var l := v.level - k;
        assert ListsLevel(e.levels[|t[e.id]| - 1 - l], t[e.id][l]);
        LinksFit(h, c, v, l, e.levels[k], dim);
      }
    }
  }

  lemma EncodableFits<V(!new), M>(h: Hnsw<V, M>, c: Encoding<V, M>, vs: seq<seq<VertexEntry>>, es: seq<seq<EdgeEntry>>,
                                  links: seq<map<nat, seq<map<nat, nat>>>>, dim: nat)
    requires h.Valid() && Committed(h, c, vs, es, links) && Encodable(h, c, dim)
    ensures AllFit(vs, es, dim)
  {
    hide h.Valid, ShardFits, EdgeListFits, Listed, ShardMetaListed, ListsEdges, ShowsShard, StoredFits, TableOf;
    forall s | 0 <= s < |vs|
      ensures ShardFits(vs[s], dim)
    {
      ShardEntriesFit(c, h.vertices[s], vs[s], dim);
    }
    forall s | 0 <= s < |es|
      ensures EdgeListFits(es[s])
    {
      ShardEdgesFit(h, c, s, es[s], links[s], dim);
    }
  }

  /** For every iteration order of both passes, reading the snapshot anywhere restores the live index. */
  lemma SnapshotRestores<V(!new), M>(h: Hnsw<V, M>, c: Encoding<V, M>, b: Bytes, at: nat, vs: seq<seq<VertexEntry>>,
                                     es: seq<seq<EdgeEntry>>, links: seq<map<nat, seq<map<nat, nat>>>>, dim: nat)
    requires h.Valid() && h.entrypoint != null && h.entrypoint.id < TWO64 && At(b, at, SnapshotBytes(h.entrypoint.id, vs, es))
    requires Committed(h, c, vs, es, links) && Encodable(h, c, dim)
    ensures var r := ReadSnapshot(dim, (id: nat) => h.ShardOf(id), b, at);
            r.Got? && r.at == at + |SnapshotBytes(h.entrypoint.id, vs, es)| && Restores(h, c, links, r.value)
  {
    hide h.Valid, ReadSnapshot, SnapshotBytes, At, AllFit, Written, LevelsOf, AllClosed, TablesNow, FoundTable, ListsEdges,
         ShowsShard, VerticesWritten, Find, TotalOf, Encodable;
    EncodableFits(h, c, vs, es, links, dim);
    var tables, shardOf := TablesNow(c, h.vertices), (id: nat) => h.ShardOf(id);
    ShardsOwn(h);
    CommittedLists(h, c, vs, es, links);
    forall s | 0 <= s < |tables|
      ensures LevelsOf(links[s], tables[s]) && AllClosed(tables, shardOf, links[s])
    {
      assert ShowsShard(h, c, h.vertices[s], links[s]);
      ShardLevels(h, c, s, links[s]);
      ShardClosed(h, c, s, links[s], shardOf);
    }
    SnapshotReadBack(b, at, h.entrypoint.id, vs, es, tables, links, dim, shardOf);
    CommittedLength(h, c, vs);
    FoundByShard(h, c, h.entrypoint.id, shardOf);
  }

  /** What `Commit` wrote loads exactly if the index holds a vertex and its distance has a number in the header. For every
      iteration order of both passes, loading then restores the live index and the header, its numbers cut to 32 bits. */
  lemma LoadUndoesCommit<V(!new), M>(h: Hnsw<V, M>, c: Encoding<V, M>, space: Option<Space>, vs: seq<seq<VertexEntry>>,
                                     es: seq<seq<EdgeEntry>>, links: seq<map<nat, seq<map<nat, nat>>>>, dim: nat)
    requires h.Valid() && (h.len > 0 ==> h.entrypoint != null && h.entrypoint.id < TWO64 && Committed(h, c, vs, es, links))
    requires Encodable(h, c, dim) && (space.Some? ==> space.value.dim == dim < TWO32)
    ensures var b := CommitBytes(h, space, vs, es);
            var r := ReadIndex(space.Some?, dim, (id: nat) => h.ShardOf(id), b);
            (r.Got? <==> h.len > 0 && !(space.Some? && space.value.distance.Manhattan?))
            && (r.Got? ==> r.at == |b| && Restores(h, c, links, r.value.index)
                           && r.value.header == if space.Some? then Some(CutHeader(HeaderOf(h.config, space.value))) else None)
  {
    hide h.Valid, ReadHeader, ReadSnapshot, SnapshotBytes, HeaderBytes, At, Committed, Restores, Encodable, Low32, Signed32;
    var b := CommitBytes(h, space, vs, es);
    var head := if space.Some? then HeaderBytes(HeaderOf(h.config, space.value)) else [];
    var tail := if h.len > 0 then SnapshotBytes(h.entrypoint.id, vs, es) else [];
    assert b == head + tail;
    Whole(b);
    AtSplit(b, 0, head, tail);
    if space.Some? {
      HeaderRead(b, 0, HeaderOf(h.config, space.value));
      DimKept(HeaderOf(h.config, space.value));
    }
    if h.len > 0 {
      SnapshotRestores(h, c, b, |head|, vs, es, links, dim);
    } else {
      NothingLeft(dim, (id: nat) => h.ShardOf(id), b, |head|);
    }
  }

  lemma DimKept(x: Header)
    requires x.dim < TWO32
    ensures CutHeader(x).dim == x.dim
  {
    LowFits(x.dim);
  }

  lemma NothingLeft(dim: nat, shardOf: nat -> nat, b: Bytes, at: nat)
    requires at == |b|
    ensures ReadSnapshot(dim, shardOf, b, at) == Fail
  {
  }

  lemma CommittedLists<V(!new), M>(h: Hnsw<V, M>, c: Encoding<V, M>, vs: seq<seq<VertexEntry>>, es: seq<seq<EdgeEntry>>,
                                   links: seq<map<nat, seq<map<nat, nat>>>>)
    requires h.Valid() && Committed(h, c, vs, es, links)
    ensures Written(vs, es, TablesNow(c, h.vertices), links) && |TablesNow(c, h.vertices)| == |h.vertices| == |links|
  {
    hide h.Valid, Listed, TableOf, ListsEdges, ShowsShard, VertexValue, ShardMetaListed;
  }

  lemma ShardLevels<V(!new), M>(h: Hnsw<V, M>, c: Encoding<V, M>, s: nat, t: map<nat, seq<map<nat, nat>>>)
    requires h.Valid() && s < |h.vertices| && ShowsShard(h, c, h.vertices[s], t)
    ensures LevelsOf(t, TablesNow(c, h.vertices)[s])
  {
    hide h.Valid, LinkMap;
  }

  lemma FoundByShard<V(!new), M>(h: Hnsw<V, M>, c: Encoding<V, M>, id: nat, shardOf: nat -> nat)
    requires h.Valid() && shardOf(id) == h.ShardOf(id)
    ensures |h.vertices| == VERTICES_MAP_SHARD_COUNT
    ensures Find(TablesNow(c, h.vertices), shardOf, id) == if id in h.vertices[h.ShardOf(id)] then To(id) else Nil
  {
    hide h.Valid;
    ShardsOwn(h);
  }

  lemma ShardClosed<V(!new), M>(h: Hnsw<V, M>, c: Encoding<V, M>, s: nat, t: map<nat, seq<map<nat, nat>>>, shardOf: nat -> nat)
    requires h.Valid() && s < |h.vertices| && ShowsShard(h, c, h.vertices[s], t)
    requires forall id :: shardOf(id) == h.ShardOf(id)
    ensures AllClosed(TablesNow(c, h.vertices), shardOf, t)
  {
    hide h.Valid, LinkMap, Find, TablesNow, h.ShardOf, IdsOf;
    forall id, l, k | id in t && 0 <= l < |t[id]| && k in t[id][l]
      ensures Find(TablesNow(c, h.vertices), shardOf, k) == To(k)
    {
      var v := h.vertices[s][id];
      LinkStored(h, c, v, l, k);
      FoundByShard(h, c, k, shardOf);
    }
  }

  lemma LinkStored<V(!new), M>(h: Hnsw<V, M>, c: Encoding<V, M>, v: Vertex<V, M>, l: nat, k: nat)
    requires h.Valid() && v in h.all && l <= v.level && k in LinkMap(h, c, v, l)
    ensures |h.vertices| == VERTICES_MAP_SHARD_COUNT && k in h.vertices[h.ShardOf(k)]
  {
    hide h.Valid, h.ShardOf, LinkMap;
    LinkMapHolds(h, c, v, l);
    NeighborsById(h, v, l);
  }

  lemma CommittedLength<V(!new), M>(h: Hnsw<V, M>, c: Encoding<V, M>, vs: seq<seq<VertexEntry>>)
    requires h.Valid() && VerticesWritten(c, h.vertices, vs)
    ensures TotalOf(vs) == h.len
  {
    hide h.GraphInv, h.StoreInv;
    TotalsAgree(c, h.vertices, vs);
  }

  lemma {:induction false} TotalsAgree<V(!new), M>(c: Encoding<V, M>, shards: seq<map<nat, Vertex<V, M>>>, vs: seq<seq<VertexEntry>>)
    requires VerticesWritten(c, shards, vs)
    ensures TotalOf(vs) == Hnsw.TotalSize(shards)
  {
    hide VertexValue, ShardMetaListed;
    if shards != [] {
      var n := |shards| - 1;
      TotalsAgree(c, shards[..n], vs[..n]);
      assert TableOf(c, shards[n]).Keys == shards[n].Keys;
      assert |TableOf(c, shards[n])| == |shards[n]|;
    }
  }

  /** The vertex found under the entrypoint's id is the entrypoint exactly if that was not removed. */
  lemma EntryRestoredIff<V(!new), M>(h: Hnsw<V, M>)
    requires h.Valid() && h.entrypoint != null
    ensures |h.vertices| == VERTICES_MAP_SHARD_COUNT
    ensures var e, shard := h.entrypoint, h.vertices[h.ShardOf(h.entrypoint.id)];
            (e.id in shard && shard[e.id] == e) <==> !e.deleted
  {
    hide h.GraphInv;
    var e := h.entrypoint;
    assert h.StoreOk(h.vertices, h.all, h.Dead());
    if e.deleted {
      assert e in h.Dead();
    } else {
      assert h.StoredAt(h.vertices, e);
    }
  }

  /** What an index without vertices writes, with or without the header, never loads. */
  lemma EmptyDoesNotLoad<V(!new), M>(h: Hnsw<V, M>, space: Option<Space>, vs: seq<seq<VertexEntry>>, es: seq<seq<EdgeEntry>>,
                                     dim: nat, shardOf: nat -> nat)
    requires h.len == 0
    ensures ReadIndex(space.Some?, dim, shardOf, CommitBytes(h, space, vs, es)) == Fail
  {
    hide ReadHeader, ReadSnapshot, HeaderBytes;
    var b := CommitBytes(h, space, vs, es);
    Whole(b);
    if space.Some? {
      var x := HeaderOf(h.config, space.value);
      assert b == HeaderBytes(x);
      HeaderRead(b, 0, x);
      NothingLeft(CutHeader(x).dim, shardOf, b, |b|);
    } else {
      NothingLeft(dim, shardOf, b, 0);
    }
  }
}
