/** `Commit` and `Load`: loading a snapshot rebuilds the live index, in whatever order the maps were iterated. */
module HnswSnapshot {
  import opened Common
  import opened ListCodec
  import opened VertexFormat
  import opened VertexCodec
  import opened HnswFormat
  import opened HnswIndex

  // ---------- keys and values of the entries ----------

  function FieldKey(kv: Field): Bytes { kv.key }

  function FieldValue(kv: Field): Bytes { kv.value }

  function VertexKey(e: VertexEntry): nat { e.id }

  function VertexValue(e: VertexEntry): Stored {
    Stored(e.level, e.vector, MapOf(FieldKey, FieldValue, e.meta))
  }

  function LinkKey(x: Link): nat { x.to }

  function LinkValue(x: Link): nat { x.weight }

  function EdgeKey(e: EdgeEntry): nat { e.id }

  // ---------- loading ----------

  /** What a loaded edge leads to: `s[neighborId]` is nil if nothing is stored under the id. */
  datatype Target = Nil | To(id: nat)

  datatype Loaded = Loaded(entry: Target, len: nat, shards: seq<Table>, edges: seq<map<nat, seq<map<Target, nat>>>>)

  function Find(shards: seq<Table>, shardOf: nat -> nat, id: nat): Target {
    if shardOf(id) < |shards| && id in shards[shardOf(id)] then To(id) else Nil
  }

  function TablesOf(lists: seq<seq<VertexEntry>>): seq<Table> {
    seq(|lists|, i requires 0 <= i < |lists| => MapOf(VertexKey, VertexValue, lists[i]))
  }

  function TotalOf(lists: seq<seq<VertexEntry>>): nat {
    if lists == [] then 0 else TotalOf(lists[..|lists| - 1]) + |lists[|lists| - 1]|
  }

  function LevelMap(shards: seq<Table>, shardOf: nat -> nat, links: seq<Link>): map<Target, nat> {
    MapOf((x: Link) => Find(shards, shardOf, x.to), LinkValue, links)
  }

  function EdgeMaps(shards: seq<Table>, shardOf: nat -> nat, e: EdgeEntry): seq<map<Target, nat>> {
    seq(|e.levels|, l requires 0 <= l < |e.levels| => LevelMap(shards, shardOf, e.levels[|e.levels| - 1 - l]))
  }

  /** Every loaded vertex begins with empty edge maps. */
  function Blank(table: Table): map<nat, seq<map<Target, nat>>> {
    map id | id in table :: seq(table[id].level + 1, _ => map[])
  }

  /** Edges are added to what a vertex has already. */
  function AddLevels(a: seq<map<Target, nat>>, b: seq<map<Target, nat>>): seq<map<Target, nat>> {
    seq(|a|, l requires 0 <= l < |a| => if l < |b| then a[l] + b[l] else a[l])
  }

  /** Every entry that was read names a vertex of the shard. */
  function EdgeTable(shards: seq<Table>, shardOf: nat -> nat, table: Table, es: seq<EdgeEntry>): map<nat, seq<map<Target, nat>>> {
    if es == [] then Blank(table)
    else
      var m, e := EdgeTable(shards, shardOf, table, es[..|es| - 1]), es[|es| - 1];
      if e.id in m then m[e.id := AddLevels(m[e.id], EdgeMaps(shards, shardOf, e))] else m
  }

  function EdgeTables(shards: seq<Table>, shardOf: nat -> nat, lists: seq<seq<EdgeEntry>>): seq<map<nat, seq<map<Target, nat>>>>
    requires |lists| <= |shards|
  {
    seq(|lists|, i requires 0 <= i < |lists| => EdgeTable(shards, shardOf, shards[i], lists[i]))
  }

  /** What `Load` builds from the bytes after the header. */
  function ReadSnapshot(dim: nat, shardOf: nat -> nat, b: Bytes, at: nat): Read<Loaded> {
    match ReadWord(b, at, 8)
    case Fail => Fail
    case Got(id, at1) =>
      match ReadList(ShardReader(dim), b, at1, VERTICES_MAP_SHARD_COUNT, [])
      case Fail => Fail
      case Got(lists, at2) =>
        var shards := TablesOf(lists);
        match ReadEdges(shards, b, at2, [])
        case Fail => Fail
        case Got(edges, at3) =>
          Got(Loaded(Find(shards, shardOf, id), TotalOf(lists), shards, EdgeTables(shards, shardOf, edges)), at3)
  }

  // ---------- the round trip on values ----------

  /** Edge maps with the neighbours found again. */
  ghost function Found(m: map<nat, nat>): map<Target, nat> {
    map t | t in (set k | k in m :: To(k)) :: m[t.id]
  }

  ghost function FoundLevels(levels: seq<map<nat, nat>>): seq<map<Target, nat>> {
    seq(|levels|, l requires 0 <= l < |levels| => Found(levels[l]))
  }

  ghost function FoundTable(t: map<nat, seq<map<nat, nat>>>): map<nat, seq<map<Target, nat>>> {
    map id | id in t :: FoundLevels(t[id])
  }

  /** All edges lead to stored vertices, which lie in their own shards. */
  ghost predicate Closed(shards: seq<Table>, shardOf: nat -> nat, es: map<nat, nat>) {
    forall k :: k in es ==> Find(shards, shardOf, k) == To(k)
  }

  lemma LevelFound(shards: seq<Table>, shardOf: nat -> nat, links: seq<Link>, m: map<nat, nat>)
    requires Listed(LinkKey, LinkValue, links, m, m.Keys) && Closed(shards, shardOf, m)
    ensures LevelMap(shards, shardOf, links) == Found(m)
  {
    hide Find, MapOf;
    var key := (x: Link) => Find(shards, shardOf, x.to);
    forall x | x in links
      ensures key(x) in Found(m) && Found(m)[key(x)] == LinkValue(x)
    {
      assert LinkKey(x) in m;
    }
    MapOfPart(key, LinkValue, links, Found(m));
    forall t | t in Found(m)
      ensures HasKey(key, links, t)
    {
      var x :| x in links && LinkKey(x) == t.id;
      assert key(x) == t;
    }
  }

  /** An edge entry lists, level by level from the top, the maps `levels` holds from the bottom. */
  ghost predicate ListsLevels(e: EdgeEntry, levels: seq<map<nat, nat>>) {
    |e.levels| == |levels|
    && forall l :: 0 <= l < |levels| ==> ListsLevel(e.levels[|levels| - 1 - l], levels[l])
  }

  ghost predicate ListsLevel(links: seq<Link>, m: map<nat, nat>) {
    Listed(LinkKey, LinkValue, links, m, m.Keys)
  }

  ghost predicate ListsEdges(es: seq<EdgeEntry>, t: map<nat, seq<map<nat, nat>>>) {
    |es| == |t| && (forall e :: e in es ==> e.id in t && ListsLevels(e, t[e.id]))
    && forall id :: id in t ==> HasKey(EdgeKey, es, id)
  }

  lemma LevelsFound(shards: seq<Table>, shardOf: nat -> nat, e: EdgeEntry, levels: seq<map<nat, nat>>)
    requires ListsLevels(e, levels) && forall l :: 0 <= l < |levels| ==> Closed(shards, shardOf, levels[l])
    ensures EdgeMaps(shards, shardOf, e) == FoundLevels(levels)
  {
    hide LevelMap, Found, Closed, Listed;
    forall l | 0 <= l < |levels|
      ensures LevelMap(shards, shardOf, e.levels[|levels| - 1 - l]) == Found(levels[l])
    {
      assert ListsLevel(e.levels[|levels| - 1 - l], levels[l]);
      LevelFound(shards, shardOf, e.levels[|levels| - 1 - l], levels[l]);
    }
  }

  ghost predicate LevelsOf(t: map<nat, seq<map<nat, nat>>>, table: Table) {
    t.Keys == table.Keys && forall id :: id in t ==> |t[id]| == table[id].level + 1
  }

  lemma AddToBlank(n: nat, levels: seq<map<Target, nat>>)
    requires |levels| == n
    ensures AddLevels(seq(n, _ => map[]), levels) == levels && AddLevels(levels, levels) == levels
  {
    var none := seq(n, _ => map[]);
    forall l | 0 <= l < n
      ensures AddLevels(none, levels)[l] == levels[l] && AddLevels(levels, levels)[l] == levels[l]
    {
    }
  }

  /** A vertex has its edges once an entry has named it, however often. */
  lemma {:induction false} TableFilled(shards: seq<Table>, shardOf: nat -> nat, table: Table, es: seq<EdgeEntry>,
                                       t: map<nat, seq<map<nat, nat>>>)
    requires LevelsOf(t, table)
    requires forall e :: e in es ==> e.id in t && EdgeMaps(shards, shardOf, e) == FoundLevels(t[e.id])
    ensures var m := EdgeTable(shards, shardOf, table, es);
            m.Keys == table.Keys
            && forall id :: id in table ==> m[id] == if HasKey(EdgeKey, es, id) then FoundLevels(t[id]) else Blank(table)[id]
  {
    hide EdgeMaps, AddLevels, FoundLevels, Blank, HasKey, EdgeKey;
    if es == [] {
      NothingNamed(table);
    } else {
      var front, e := es[..|es| - 1], es[|es| - 1];
      assert es == front + [e];
      TableFilled(shards, shardOf, table, front, t);
      AddedOnce(table, t, e.id);
      forall id | id in table
        ensures HasKey(EdgeKey, es, id) <==> HasKey(EdgeKey, front, id) || id == e.id
      {
        KeySnoc(front, e, id);
      }
    }
  }

  lemma NothingNamed(table: Table)
    ensures Blank(table).Keys == table.Keys && forall id :: !HasKey(EdgeKey, [], id)
  {
  }

  lemma AddedOnce(table: Table, t: map<nat, seq<map<nat, nat>>>, id: nat)
    requires LevelsOf(t, table) && id in t
    ensures id in Blank(table)
    ensures var levels := FoundLevels(t[id]); AddLevels(Blank(table)[id], levels) == levels && AddLevels(levels, levels) == levels
  {
    hide Found;
    AddToBlank(|t[id]|, FoundLevels(t[id]));
  }

  lemma KeySnoc(es: seq<EdgeEntry>, e: EdgeEntry, id: nat)
    ensures HasKey(EdgeKey, es + [e], id) <==> id == e.id || HasKey(EdgeKey, es, id)
  {
    if id == e.id {
      assert e in es + [e] && EdgeKey(e) == id;
    } else if HasKey(EdgeKey, es, id) {
      var x :| x in es && EdgeKey(x) == id;
      assert x in es + [e];
    }
  }

  lemma TableFound(shards: seq<Table>, shardOf: nat -> nat, table: Table, es: seq<EdgeEntry>, t: map<nat, seq<map<nat, nat>>>)
    requires ListsEdges(es, t) && LevelsOf(t, table)
    requires forall id, l :: id in t && 0 <= l < |t[id]| ==> Closed(shards, shardOf, t[id][l])
    ensures EdgeTable(shards, shardOf, table, es) == FoundTable(t)
  {
    hide EdgeMaps, FoundLevels, ListsLevels, Closed, Find, HasKey, EdgeTable, Blank;
    forall e | e in es
      ensures e.id in t && EdgeMaps(shards, shardOf, e) == FoundLevels(t[e.id])
    {
      LevelsFound(shards, shardOf, e, t[e.id]);
    }
    TableFilled(shards, shardOf, table, es, t);
  }

  /** What both passes wrote, and what they wrote it from. */
  ghost predicate Written(vertices: seq<seq<VertexEntry>>, edges: seq<seq<EdgeEntry>>, tables: seq<Table>,
                          links: seq<map<nat, seq<map<nat, nat>>>>) {
    && |vertices| == |edges| == |tables| == |links|
    && (forall i :: 0 <= i < |tables| ==> Listed(VertexKey, VertexValue, vertices[i], tables[i], tables[i].Keys))
    && (forall i :: 0 <= i < |tables| ==> ListsEdges(edges[i], links[i]))
  }

  ghost predicate AllFit(vertices: seq<seq<VertexEntry>>, edges: seq<seq<EdgeEntry>>, dim: nat) {
    && (forall es :: es in vertices ==> ShardFits(es, dim))
    && (forall i :: 0 <= i < |edges| ==> EdgeListFits(edges[i]))
  }

  ghost predicate EdgeListFits(es: seq<EdgeEntry>) {
    forall e :: e in es ==> EdgeFits(e)
  }

  ghost predicate AllClosed(shards: seq<Table>, shardOf: nat -> nat, t: map<nat, seq<map<nat, nat>>>) {
    forall id, l :: id in t && 0 <= l < |t[id]| ==> Closed(shards, shardOf, t[id][l])
  }

  lemma TablesBack(vertices: seq<seq<VertexEntry>>, edges: seq<seq<EdgeEntry>>, tables: seq<Table>,
                   links: seq<map<nat, seq<map<nat, nat>>>>)
    requires Written(vertices, edges, tables, links)
    ensures TablesOf(vertices) == tables
  {
    hide MapOf, Listed, ListsEdges, VertexValue;
    forall i | 0 <= i < |tables|
      ensures MapOf(VertexKey, VertexValue, vertices[i]) == tables[i]
    {
      MapOfAll(VertexKey, VertexValue, vertices[i], tables[i]);
    }
  }

  lemma EntriesMatch(es: seq<EdgeEntry>, t: map<nat, seq<map<nat, nat>>>, table: Table)
    requires ListsEdges(es, t) && LevelsOf(t, table) && EdgeListFits(es)
    ensures EdgesMatch(es, table)
  {
    hide ListsLevel, EdgeFits;
    assert |t.Keys| == |table.Keys|;
  }

  /** Loading undoes committing, for all iteration orders of all maps in both passes. */
  lemma SnapshotReadBack(b: Bytes, at: nat, entry: nat, vertices: seq<seq<VertexEntry>>, edges: seq<seq<EdgeEntry>>,
                         tables: seq<Table>, links: seq<map<nat, seq<map<nat, nat>>>>, dim: nat, shardOf: nat -> nat)
    requires At(b, at, SnapshotBytes(entry, vertices, edges))
    requires entry < TWO64 && |tables| == VERTICES_MAP_SHARD_COUNT && Written(vertices, edges, tables, links)
    requires AllFit(vertices, edges, dim)
    requires forall i :: 0 <= i < |tables| ==> LevelsOf(links[i], tables[i]) && AllClosed(tables, shardOf, links[i])
    ensures ReadSnapshot(dim, shardOf, b, at)
         == Got(Loaded(Find(tables, shardOf, entry), TotalOf(vertices), tables, seq(|links|, i requires 0 <= i < |links| => FoundTable(links[i]))),
                at + |SnapshotBytes(entry, vertices, edges)|)
  {
    hide ReadWord, ReadList, ReadEdges, Be, Pow256, Cat, At, VerticesBytes, EdgesBytes, TablesOf, ShardFits, EdgeListFits,
         ListsEdges, LevelsOf, AllClosed, EdgesMatch, EdgeTable, FoundTable, Find, TotalOf, Listed, ReadShardList, VertexValue;
    Widths();
    AtSplit(b, at, Be(entry, 8) + Cat(VerticesBytes, vertices), Cat(EdgesBytes, edges));
    AtSplit(b, at, Be(entry, 8), Cat(VerticesBytes, vertices));
    GetWord(b, at, entry, 8);
    forall es, p: nat | es in vertices && At(b, p, VerticesBytes(es))
      ensures ShardReader(dim)(b, p) == Got(es, p + |VerticesBytes(es)|)
    {
      GetShardList(b, p, es, dim);
    }
    GetList(VerticesBytes, ShardReader(dim), b, at + 8, vertices, []);
    assert [] + vertices == vertices;
    TablesBack(vertices, edges, tables, links);
    forall i | 0 <= i < |tables|
      ensures EdgesMatch(edges[i], tables[i]) && EdgeTable(tables, shardOf, tables[i], edges[i]) == FoundTable(links[i])
    {
      EntriesMatch(edges[i], links[i], tables[i]);
      EveryClosed(tables, shardOf, links[i]);
      TableFound(tables, shardOf, tables[i], edges[i], links[i]);
    }
    GetEdges(b, at + 8 + |Cat(VerticesBytes, vertices)|, edges, tables, []);
    assert [] + edges == edges;
    assert EdgeTables(tables, shardOf, edges) == seq(|links|, i requires 0 <= i < |links| => FoundTable(links[i]));
  }

  lemma EveryClosed(shards: seq<Table>, shardOf: nat -> nat, t: map<nat, seq<map<nat, nat>>>)
    requires AllClosed(shards, shardOf, t)
    ensures forall id, l :: id in t && 0 <= l < |t[id]| ==> Closed(shards, shardOf, t[id][l])
  {
  }

  lemma Whole(b: Bytes)
    ensures At(b, 0, b)
  {
    assert b[0..|b|] == b;
  }
}
