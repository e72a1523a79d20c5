/** `Load`: the loops that fill the shard maps and the edge maps from the bytes. */
module HnswLoads {
  import opened Common
  import opened ListCodec
  import opened VertexFormat
  import opened HnswFormat
  import opened HnswHeader
  import opened HnswIndex
  import opened HnswSnapshot

  function FieldMap(meta: seq<Field>): map<Bytes, Bytes> {
    MapOf(FieldKey, FieldValue, meta)
  }

  method LoadMetadata(b: Bytes, at: nat, count: nat) returns (r: Read<map<Bytes, Bytes>>)
    ensures r == MapRead(ReadList(ReadField, b, at, count, []), FieldMap)
  {
    hide ReadField;
    var m: map<Bytes, Bytes>, now := map[], at;
    ghost var meta: seq<Field> := [];
    for i := 0 to count
      invariant ReadList(ReadField, b, at, count, []) == ReadList(ReadField, b, now, count - i, meta)
      invariant m == FieldMap(meta)
    {
      var kv := ReadField(b, now);
      if kv.Fail? {
        return Fail;
      }
      FilledMore(FieldKey, FieldValue, meta, kv.value);
      m, now, meta := m[kv.value.key := kv.value.value], kv.at, meta + [kv.value];
    }
    return Got(m, now);
  }

  datatype Named = Named(id: nat, vertex: Stored)

  function NamedVertex(e: VertexEntry): Named {
    Named(e.id, VertexValue(e))
  }

  method LoadVector(b: Bytes, at: nat, dim: nat) returns (r: Read<seq<nat>>)
    ensures r == ReadWords(b, at, dim, [])
  {
    hide ReadWord;
    var vector: seq<nat>, now := [], at;
    for i := 0 to dim
      invariant ReadWords(b, at, dim, []) == ReadWords(b, now, dim - i, vector)
    {
      var w := ReadWord(b, now, 4);
      if w.Fail? {
        return Fail;
      }
      vector, now := vector + [w.value], w.at;
    }
    return Got(vector, now);
  }

  method LoadVertex(dim: nat, b: Bytes, at: nat) returns (r: Read<Named>)
    ensures r == MapRead(ReadVertex(dim, b, at), NamedVertex)
  {
    hide ReadWord, ReadLevelNumber, ReadWords, ReadList, MapOf;
    var id := ReadWord(b, at, 8);
    if id.Fail? { return Fail; }
    var level := ReadLevelNumber(b, id.at);
    if level.Fail? { return Fail; }
    var vector := LoadVector(b, level.at, dim);
    if vector.Fail? { return Fail; }
    var count := ReadWord(b, vector.at, 2);
    if count.Fail? { return Fail; }
    var metadata := LoadMetadata(b, count.at, count.value);
    if metadata.Fail? { return Fail; }
    return Got(Named(id.value, Stored(level.value, vector.value, metadata.value)), metadata.at);
  }

  datatype Shard = Shard(size: nat, table: Table)

  function ShardOfList(es: seq<VertexEntry>): Shard {
    Shard(|es|, MapOf(VertexKey, VertexValue, es))
  }

  /** One shard: its size and its map. */
  method LoadShard(dim: nat, b: Bytes, at: nat) returns (r: Read<Shard>)
    ensures r == MapRead(ReadShardList(dim, b, at), ShardOfList)
  {
    hide ReadWord, ReadVertex, VertexValue;
    var shardSize := ReadWord(b, at, 4);
    if shardSize.Fail? { return Fail; }
    var table: Table, now := map[], shardSize.at;
    ghost var es: seq<VertexEntry> := [];
    for i := 0 to shardSize.value
      invariant ReadList(VertexReader(dim), b, shardSize.at, shardSize.value, [])
             == ReadList(VertexReader(dim), b, now, shardSize.value - i, es)
      invariant table == MapOf(VertexKey, VertexValue, es) && |es| == i
    {
      var v := LoadVertex(dim, b, now);
      ghost var e := ReadVertex(dim, b, now);
      assert VertexReader(dim)(b, now) == e;
      if v.Fail? {
        return Fail;
      }
      FilledMore(VertexKey, VertexValue, es, e.value);
      table, now, es := table[v.value.id := v.value.vertex], v.at, es + [e.value];
    }
    return Got(Shard(shardSize.value, table), now);
  }

  /** The edges of one level: `edges[l][s[neighborId]] = distance`. */
  method LoadLevel(shards: seq<Table>, shardOf: nat -> nat, b: Bytes, at: nat) returns (r: Read<map<Target, nat>>)
    ensures r == MapRead(ReadLevel(b, at), (links: seq<Link>) => LevelMap(shards, shardOf, links))
  {
    hide ReadWord, ReadLink, Find;
    var numEdges := ReadWord(b, at, 4);
    if numEdges.Fail? { return Fail; }
    var m: map<Target, nat>, now := map[], numEdges.at;
    ghost var links: seq<Link> := [];
    for j := 0 to numEdges.value
      invariant ReadList(ReadLink, b, numEdges.at, numEdges.value, []) == ReadList(ReadLink, b, now, numEdges.value - j, links)
      invariant m == LevelMap(shards, shardOf, links)
    {
      var x := ReadLink(b, now);
      if x.Fail? {
        return Fail;
      }
      LevelMore(shards, shardOf, links, x.value);
      m, now, links := m[Find(shards, shardOf, x.value.to) := x.value.weight], x.at, links + [x.value];
    }
    return Got(m, now);
  }

  lemma LevelMore(shards: seq<Table>, shardOf: nat -> nat, links: seq<Link>, x: Link)
    ensures LevelMap(shards, shardOf, links + [x]) == LevelMap(shards, shardOf, links)[Find(shards, shardOf, x.to) := x.weight]
  {
    hide Find;
    assert (links + [x])[..|links|] == links;
  }

  datatype Edges = Edges(id: nat, levels: seq<map<Target, nat>>)

  /** The levels of one vertex come from the top down. */
  method LoadEdges(shards: seq<Table>, shardOf: nat -> nat, table: Table, b: Bytes, at: nat) returns (r: Read<Edges>)
    ensures r == MapRead(ReadEdge(table, b, at), (e: EdgeEntry) => Edges(e.id, EdgeMaps(shards, shardOf, e)))
  {
    hide ReadWord, ReadLevel, LevelMap;
    var id := ReadWord(b, at, 8);
    if id.Fail? { return Fail; }
    if id.value !in table { return Fail; }
    var count := table[id.value].level + 1;
    var levels: seq<map<Target, nat>>, now := [], id.at;
    ghost var lists: seq<seq<Link>> := [];
    for k := 0 to count
      invariant ReadList(ReadLevel, b, id.at, count, []) == ReadList(ReadLevel, b, now, count - k, lists)
      invariant levels == EdgeMaps(shards, shardOf, EdgeEntry(id.value, lists))
    {
      var m := LoadLevel(shards, shardOf, b, now);
      ghost var links := ReadLevel(b, now);
      if m.Fail? {
        return Fail;
      }
      LevelsMore(shards, shardOf, id.value, lists, links.value);
      levels, now, lists := [m.value] + levels, m.at, lists + [links.value];
    }
    return Got(Edges(id.value, levels), now);
  }

  lemma LevelsMore(shards: seq<Table>, shardOf: nat -> nat, id: nat, lists: seq<seq<Link>>, links: seq<Link>)
    ensures EdgeMaps(shards, shardOf, EdgeEntry(id, lists + [links]))
         == [LevelMap(shards, shardOf, links)] + EdgeMaps(shards, shardOf, EdgeEntry(id, lists))
  {
    hide LevelMap;
  }

  method LoadEdgeShard(shards: seq<Table>, shardOf: nat -> nat, table: Table, b: Bytes, at: nat)
    returns (r: Read<map<nat, seq<map<Target, nat>>>>)
    ensures r == MapRead(ReadList(EdgeReader(table), b, at, |table|, []),
                         (es: seq<EdgeEntry>) => EdgeTable(shards, shardOf, table, es))
  {
    hide ReadEdge, EdgeMaps, AddLevels, Blank;
    var m, now := Blank(table), at;
    ghost var es: seq<EdgeEntry> := [];
    BlankKeys(table);
    for i := 0 to |table|
      invariant ReadList(EdgeReader(table), b, at, |table|, []) == ReadList(EdgeReader(table), b, now, |table| - i, es)
      invariant m == EdgeTable(shards, shardOf, table, es) && m.Keys == table.Keys
    {
      var x := LoadEdges(shards, shardOf, table, b, now);
      ghost var e := ReadEdge(table, b, now);
      assert EdgeReader(table)(b, now) == e;
      if x.Fail? {
        return Fail;
      }
      EntryNamesVertex(table, b, now);
      TableMore(shards, shardOf, table, es, e.value);
      m, now, es := m[x.value.id := AddLevels(m[x.value.id], x.value.levels)], x.at, es + [e.value];
    }
    return Got(m, now);
  }

  lemma BlankKeys(table: Table)
    ensures Blank(table).Keys == table.Keys
  {
  }

  lemma EntryNamesVertex(table: Table, b: Bytes, at: nat)
    requires ReadEdge(table, b, at).Got?
    ensures ReadEdge(table, b, at).value.id in table
  {
  }

  lemma TableMore(shards: seq<Table>, shardOf: nat -> nat, table: Table, es: seq<EdgeEntry>, e: EdgeEntry)
    requires e.id in EdgeTable(shards, shardOf, table, es)
    ensures var m := EdgeTable(shards, shardOf, table, es);
            EdgeTable(shards, shardOf, table, es + [e]) == m[e.id := AddLevels(m[e.id], EdgeMaps(shards, shardOf, e))]
  {
    hide EdgeMaps, AddLevels;
    assert (es + [e])[..|es|] == es;
  }

  /** The vertices of all shards, and how many there are by the written sizes. */
  method LoadVertices(dim: nat, b: Bytes, at: nat) returns (r: Read<seq<Table>>, len: nat)
    ensures var lists := ReadList(ShardReader(dim), b, at, VERTICES_MAP_SHARD_COUNT, []);
            r == MapRead(lists, TablesOf) && (lists.Got? ==> len == TotalOf(lists.value))
  {
    hide ReadShardList, MapOf;
    len := 0;
    var shards: seq<Table>, now := [], at;
    ghost var lists: seq<seq<VertexEntry>> := [];
    for i := 0 to VERTICES_MAP_SHARD_COUNT
      invariant ReadList(ShardReader(dim), b, at, VERTICES_MAP_SHARD_COUNT, [])
             == ReadList(ShardReader(dim), b, now, VERTICES_MAP_SHARD_COUNT - i, lists)
      invariant shards == TablesOf(lists) && len == TotalOf(lists)
    {
      var s := LoadShard(dim, b, now);
      ghost var list := ReadShardList(dim, b, now);
      assert ShardReader(dim)(b, now) == list;
      if s.Fail? {
        return Fail, len;
      }
      assert (lists + [list.value])[..|lists|] == lists;
      len := len + s.value.size;
      shards, now, lists := shards + [s.value.table], s.at, lists + [list.value];
    }
    return Got(shards, now), len;
  }

  method LoadAllEdges(shards: seq<Table>, shardOf: nat -> nat, b: Bytes, at: nat)
    returns (r: Read<seq<map<nat, seq<map<Target, nat>>>>>)
    ensures ReadEdges(shards, b, at, []).Fail? ==> r == Fail
    ensures var lists := ReadEdges(shards, b, at, []);
            lists.Got? ==> r == Got(EdgeTables(shards, shardOf, lists.value), lists.at)
  {
    hide ReadList, EdgeTable;
    var edges: seq<map<nat, seq<map<Target, nat>>>>, now := [], at;
    ghost var lists: seq<seq<EdgeEntry>> := [];
    assert shards[0..] == shards;
    for i := 0 to |shards|
      invariant ReadEdges(shards, b, at, []) == ReadEdges(shards[i..], b, now, lists) && |lists| == i
      invariant edges == EdgeTables(shards, shardOf, lists)
    {
      var m := LoadEdgeShard(shards, shardOf, shards[i], b, now);
      ghost var es := ReadList(EdgeReader(shards[i]), b, now, |shards[i]|, []);
      assert shards[i..][0] == shards[i] && shards[i..][1..] == shards[i + 1..];
      if m.Fail? {
        return Fail;
      }
      assert EdgeTables(shards, shardOf, lists + [es.value])
          == EdgeTables(shards, shardOf, lists) + [EdgeTable(shards, shardOf, shards[i], es.value)];
      edges, now, lists := edges + [m.value], m.at, lists + [es.value];
    }
    return Got(edges, now);
  }

  method LoadSnapshot(dim: nat, shardOf: nat -> nat, b: Bytes, at: nat) returns (r: Read<Loaded>)
    ensures r == ReadSnapshot(dim, shardOf, b, at)
  {
    hide ReadWord, ReadList, ReadEdges, TablesOf, EdgeTables, TotalOf, Find;
    var entrypointId := ReadWord(b, at, 8);
    if entrypointId.Fail? { return Fail; }
    var shards, len := LoadVertices(dim, b, entrypointId.at);
    if shards.Fail? { return Fail; }
    var entry := Find(shards.value, shardOf, entrypointId.value);
    var edges := LoadAllEdges(shards.value, shardOf, b, shards.at);
    if edges.Fail? { return Fail; }
    return Got(Loaded(entry, len, shards.value, edges.value), edges.at);
  }

  /** `Load`: with the header, the dimension is the one it names. */
  method Load(header: bool, dim: nat, shardOf: nat -> nat, b: Bytes) returns (r: Read<LoadedIndex>)
    ensures r == ReadIndex(header, dim, shardOf, b)
  {
    hide ReadHeader, ReadSnapshot;
    if header {
      var x := ReadHeader(b, 0);
      if x.Fail? { return Fail; }
      var s := LoadSnapshot(x.value.dim, shardOf, b, x.at);
      return MapRead(s, (loaded: Loaded) => LoadedIndex(Some(x.value), loaded));
    }
    var s := LoadSnapshot(dim, shardOf, b, 0);
    return MapRead(s, (loaded: Loaded) => LoadedIndex(None, loaded));
  }
}
