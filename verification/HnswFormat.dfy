/** The byte format of an HNSW snapshot, and what a reader makes of any bytes. */
module HnswFormat {
  import opened Common
  import opened ListCodec
  import opened VertexFormat
  import opened VertexCodec

  // ---------- what is stored ----------

  /** A vertex with level -1 has no edge map at all. No index makes one, but a snapshot may hold one. */
  type Level = l: int | -1 <= l

  /** A vertex as the snapshot holds it: the bits of its vector, its metadata values marshalled. */
  datatype Stored = Stored(level: Level, vector: seq<nat>, metadata: map<Bytes, Bytes>)

  datatype Field = Field(key: Bytes, value: Bytes)

  /** The entries of the two passes over the vertices. The levels of an edge entry come from the top down. */
  datatype VertexEntry = VertexEntry(id: nat, level: Level, vector: seq<nat>, meta: seq<Field>)

  datatype Link = Link(to: nat, weight: nat)

  datatype EdgeEntry = EdgeEntry(id: nat, levels: seq<seq<Link>>)

  // ---------- writing ----------

  function FieldBytes(kv: Field): Bytes {
    Be(|kv.key|, 1) + kv.key + (Be(|kv.value|, 2) + kv.value)
  }

  function LevelWord(l: Level): nat {
    if l < 0 then TWO32 - 1 else l
  }

  function VertexBytes(e: VertexEntry): Bytes {
    Be(e.id, 8) + Be(LevelWord(e.level), 4) + WordsBytes(e.vector) + (Be(|e.meta|, 2) + Cat(FieldBytes, e.meta))
  }

  function VerticesBytes(es: seq<VertexEntry>): Bytes {
    Be(|es|, 4) + Cat(VertexBytes, es)
  }

  function LinkBytes(x: Link): Bytes {
    Be(x.to, 8) + Be(x.weight, 4)
  }

  function LevelBytes(links: seq<Link>): Bytes {
    Be(|links|, 4) + Cat(LinkBytes, links)
  }

  function EdgeBytes(e: EdgeEntry): Bytes {
    Be(e.id, 8) + Cat(LevelBytes, e.levels)
  }

  function EdgesBytes(es: seq<EdgeEntry>): Bytes {
    Cat(EdgeBytes, es)
  }

  /** What `Commit` writes after the header. */
  function SnapshotBytes(entry: nat, vertices: seq<seq<VertexEntry>>, edges: seq<seq<EdgeEntry>>): Bytes {
    Be(entry, 8) + Cat(VerticesBytes, vertices) + Cat(EdgesBytes, edges)
  }

  /** What fits the widths of the format. */
  predicate FieldFits(kv: Field) {
    |kv.key| < 256 && |kv.value| < TWO16
  }

  ghost predicate VertexFits(e: VertexEntry, dim: nat) {
    e.id < TWO64 && e.level < TWO31 && |e.vector| == dim && (forall i :: 0 <= i < dim ==> e.vector[i] < TWO32)
    && |e.meta| < TWO16 && forall i :: 0 <= i < |e.meta| ==> FieldFits(e.meta[i])
  }

  ghost predicate ShardFits(es: seq<VertexEntry>, dim: nat) {
    |es| < TWO32 && forall e :: e in es ==> VertexFits(e, dim)
  }

  predicate LinkFits(x: Link) {
    x.to < TWO64 && x.weight < TWO32
  }

  ghost predicate LevelFits(links: seq<Link>) {
    |links| < TWO32 && forall x :: x in links ==> LinkFits(x)
  }

  ghost predicate EdgeFits(e: EdgeEntry) {
    e.id < TWO64 && forall links :: links in e.levels ==> LevelFits(links)
  }

  // ---------- reading ----------

  function ReadField(b: Bytes, at: nat): Read<Field> {
    match ReadWord(b, at, 1)
    case Fail => Fail
    case Got(n, at1) =>
      match ReadRaw(b, at1, n)
      case Fail => Fail
      case Got(key, at2) =>
        match ReadString(b, at2)
        case Fail => Fail
        case Got(value, at3) => Got(Field(key, value), at3)
  }

  /** Levels below -1 make `make` panic; no vertex is read. */
  function ReadLevelNumber(b: Bytes, at: nat): Read<Level> {
    match ReadWord(b, at, 4)
    case Fail => Fail
    case Got(level, at1) =>
      if level < TWO31 then Got(level as Level, at1) else if level == TWO32 - 1 then Got(-1 as Level, at1) else Fail
  }

  function ReadVertex(dim: nat, b: Bytes, at: nat): Read<VertexEntry> {
    match ReadWord(b, at, 8)
    case Fail => Fail
    case Got(id, at1) =>
      match ReadLevelNumber(b, at1)
      case Fail => Fail
      case Got(level, at2) =>
        match ReadWords(b, at2, dim, [])
        case Fail => Fail
        case Got(vector, at3) =>
          match ReadWord(b, at3, 2)
          case Fail => Fail
          case Got(count, at4) =>
            match ReadList(ReadField, b, at4, count, [])
            case Fail => Fail
            case Got(meta, at5) => Got(VertexEntry(id, level, vector, meta), at5)
  }

  function VertexReader(dim: nat): (Bytes, nat) -> Read<VertexEntry> {
    (b: Bytes, at: nat) => ReadVertex(dim, b, at)
  }

  function ReadShardList(dim: nat, b: Bytes, at: nat): Read<seq<VertexEntry>> {
    match ReadWord(b, at, 4)
    case Fail => Fail
    case Got(count, at1) => ReadList(VertexReader(dim), b, at1, count, [])
  }

  function ShardReader(dim: nat): (Bytes, nat) -> Read<seq<VertexEntry>> {
    (b: Bytes, at: nat) => ReadShardList(dim, b, at)
  }

  function ReadLink(b: Bytes, at: nat): Read<Link> {
    match ReadWord(b, at, 8)
    case Fail => Fail
    case Got(to, at1) =>
      match ReadWord(b, at1, 4)
      case Fail => Fail
      case Got(weight, at2) => Got(Link(to, weight), at2)
  }

  function ReadLevel(b: Bytes, at: nat): Read<seq<Link>> {
    match ReadWord(b, at, 4)
    case Fail => Fail
    case Got(count, at1) => ReadList(ReadLink, b, at1, count, [])
  }

  type Table = map<nat, Stored>

  /** The edges of one vertex: the reader needs its level, and dereferences nil if it has no such vertex. */
  function ReadEdge(table: Table, b: Bytes, at: nat): Read<EdgeEntry> {
    match ReadWord(b, at, 8)
    case Fail => Fail
    case Got(id, at1) =>
      if id !in table then Fail
      else
        match ReadList(ReadLevel, b, at1, table[id].level + 1, [])
        case Fail => Fail
        case Got(levels, at2) => Got(EdgeEntry(id, levels), at2)
  }

  function EdgeReader(table: Table): (Bytes, nat) -> Read<EdgeEntry> {
    (b: Bytes, at: nat) => ReadEdge(table, b, at)
  }

  function ReadEdges(tables: seq<Table>, b: Bytes, at: nat, acc: seq<seq<EdgeEntry>>): (r: Read<seq<seq<EdgeEntry>>>)
    ensures r.Got? ==> |r.value| == |acc| + |tables|
    decreases |tables|
  {
    if tables == [] then Got(acc, at)
    else
      match ReadList(EdgeReader(tables[0]), b, at, |tables[0]|, [])
      case Fail => Fail
      case Got(es, at1) => ReadEdges(tables[1..], b, at1, acc + [es])
  }

  // ---------- reading back an entry ----------

  lemma GetRaw(b: Bytes, at: nat, x: Bytes)
    requires At(b, at, x)
    ensures ReadRaw(b, at, |x|) == Got(x, at + |x|)
  {
  }

  lemma GetField(b: Bytes, at: nat, kv: Field)
    requires At(b, at, FieldBytes(kv)) && FieldFits(kv)
    ensures ReadField(b, at) == Got(kv, at + |FieldBytes(kv)|)
  {
    hide ReadWord, ReadRaw, ReadString, Be, Pow256, At;
    ByteWidth();
    assert FieldBytes(kv) == Be(|kv.key|, 1) + kv.key + StringBytes(kv.value);
    AtSplit(b, at, Be(|kv.key|, 1) + kv.key, StringBytes(kv.value));
    AtSplit(b, at, Be(|kv.key|, 1), kv.key);
    GetWord(b, at, |kv.key|, 1);
    GetRaw(b, at + 1, kv.key);
    GetString(b, at + 1 + |kv.key|, kv.value);
  }

  lemma ByteWidth()
    ensures Pow256(1) == 256
  {
    assert Pow256(0) == 1;
  }

  lemma VertexParts(b: Bytes, at: nat, e: VertexEntry)
    requires At(b, at, VertexBytes(e))
    ensures var n := |WordsBytes(e.vector)|;
            At(b, at, Be(e.id, 8)) && At(b, at + 8, Be(LevelWord(e.level), 4)) && At(b, at + 12, WordsBytes(e.vector))
            && At(b, at + 12 + n, Be(|e.meta|, 2)) && At(b, at + 14 + n, Cat(FieldBytes, e.meta))
            && |VertexBytes(e)| == 14 + n + |Cat(FieldBytes, e.meta)|
  {
    hide Be, WordsBytes, Cat, At;
    var words, meta := WordsBytes(e.vector), Cat(FieldBytes, e.meta);
    AtSplit(b, at, Be(e.id, 8) + Be(LevelWord(e.level), 4) + words, Be(|e.meta|, 2) + meta);
    AtSplit(b, at + 12 + |words|, Be(|e.meta|, 2), meta);
    AtSplit(b, at, Be(e.id, 8) + Be(LevelWord(e.level), 4), words);
    AtSplit(b, at, Be(e.id, 8), Be(LevelWord(e.level), 4));
  }

  lemma GetVertex(b: Bytes, at: nat, e: VertexEntry, dim: nat)
    requires At(b, at, VertexBytes(e)) && VertexFits(e, dim)
    ensures ReadVertex(dim, b, at) == Got(e, at + |VertexBytes(e)|)
  {
    hide ReadWord, ReadWords, ReadList, Be, Pow256, WordsBytes, Cat, At, VertexBytes, FieldBytes, FieldFits, ReadField;
    Widths();
    VertexParts(b, at, e);
    var n := |WordsBytes(e.vector)|;
    GetWord(b, at, e.id, 8);
    GetWord(b, at + 8, LevelWord(e.level), 4);
    GetWords(b, at + 12, e.vector, []);
    assert [] + e.vector == e.vector;
    GetWord(b, at + 12 + n, |e.meta|, 2);
    forall kv, p: nat | kv in e.meta && At(b, p, FieldBytes(kv))
      ensures ReadField(b, p) == Got(kv, p + |FieldBytes(kv)|)
    {
      GetField(b, p, kv);
    }
    GetList(FieldBytes, ReadField, b, at + 14 + n, e.meta, []);
    assert [] + e.meta == e.meta;
  }

  lemma GetShardList(b: Bytes, at: nat, es: seq<VertexEntry>, dim: nat)
    requires At(b, at, VerticesBytes(es)) && ShardFits(es, dim)
    ensures ReadShardList(dim, b, at) == Got(es, at + |VerticesBytes(es)|)
  {
    hide ReadWord, ReadList, Be, Pow256, Cat, At, VertexBytes, VertexFits, ReadVertex;
    Widths();
    AtSplit(b, at, Be(|es|, 4), Cat(VertexBytes, es));
    GetWord(b, at, |es|, 4);
    forall e, p: nat | e in es && At(b, p, VertexBytes(e))
      ensures VertexReader(dim)(b, p) == Got(e, p + |VertexBytes(e)|)
    {
      GetVertex(b, p, e, dim);
    }
    GetList(VertexBytes, VertexReader(dim), b, at + 4, es, []);
    assert [] + es == es;
  }

  lemma GetLink(b: Bytes, at: nat, x: Link)
    requires At(b, at, LinkBytes(x)) && LinkFits(x)
    ensures ReadLink(b, at) == Got(x, at + |LinkBytes(x)|)
  {
    hide ReadWord, Be, Pow256, At;
    Widths();
    AtSplit(b, at, Be(x.to, 8), Be(x.weight, 4));
    GetWord(b, at, x.to, 8);
    GetWord(b, at + 8, x.weight, 4);
  }

  lemma GetLevel(b: Bytes, at: nat, links: seq<Link>)
    requires At(b, at, LevelBytes(links)) && LevelFits(links)
    ensures ReadLevel(b, at) == Got(links, at + |LevelBytes(links)|)
  {
    hide ReadWord, ReadList, Be, Pow256, Cat, At, LinkBytes, LinkFits, ReadLink;
    Widths();
    AtSplit(b, at, Be(|links|, 4), Cat(LinkBytes, links));
    GetWord(b, at, |links|, 4);
    forall x, p: nat | x in links && At(b, p, LinkBytes(x))
      ensures ReadLink(b, p) == Got(x, p + |LinkBytes(x)|)
    {
      GetLink(b, p, x);
    }
    GetList(LinkBytes, ReadLink, b, at + 4, links, []);
    assert [] + links == links;
  }

  lemma GetEdge(b: Bytes, at: nat, e: EdgeEntry, table: Table)
    requires At(b, at, EdgeBytes(e)) && EdgeFits(e)
    requires e.id in table && |e.levels| == table[e.id].level + 1
    ensures ReadEdge(table, b, at) == Got(e, at + |EdgeBytes(e)|)
  {
    hide ReadWord, ReadList, Be, Pow256, Cat, At, LevelBytes, LevelFits, ReadLevel;
    Widths();
    AtSplit(b, at, Be(e.id, 8), Cat(LevelBytes, e.levels));
    GetWord(b, at, e.id, 8);
    forall links, p: nat | links in e.levels && At(b, p, LevelBytes(links))
      ensures ReadLevel(b, p) == Got(links, p + |LevelBytes(links)|)
    {
      GetLevel(b, p, links);
    }
    GetList(LevelBytes, ReadLevel, b, at + 8, e.levels, []);
    assert [] + e.levels == e.levels;
  }

  /** The entries of a shard name its vertices and carry as many levels as those have. */
  ghost predicate EdgesMatch(es: seq<EdgeEntry>, table: Table) {
    |es| == |table| && forall e :: e in es ==> EdgeFits(e) && e.id in table && |e.levels| == table[e.id].level + 1
  }

  lemma GetEdgeList(b: Bytes, at: nat, es: seq<EdgeEntry>, table: Table)
    requires At(b, at, EdgesBytes(es)) && EdgesMatch(es, table)
    ensures ReadList(EdgeReader(table), b, at, |table|, []) == Got(es, at + |EdgesBytes(es)|)
  {
    hide ReadList, Cat, At, EdgeBytes, EdgeFits, ReadEdge;
    forall e, p: nat | e in es && At(b, p, EdgeBytes(e))
      ensures EdgeReader(table)(b, p) == Got(e, p + |EdgeBytes(e)|)
    {
      GetEdge(b, p, e, table);
    }
    GetList(EdgeBytes, EdgeReader(table), b, at, es, []);
    assert [] + es == es;
  }

  lemma {:induction false} GetEdges(b: Bytes, at: nat, lists: seq<seq<EdgeEntry>>, tables: seq<Table>, acc: seq<seq<EdgeEntry>>)
    requires At(b, at, Cat(EdgesBytes, lists)) && |lists| == |tables|
    requires forall i :: 0 <= i < |lists| ==> EdgesMatch(lists[i], tables[i])
    ensures ReadEdges(tables, b, at, acc) == Got(acc + lists, at + |Cat(EdgesBytes, lists)|)
    decreases |lists|
  {
    hide ReadList, At, EdgesBytes, EdgesMatch, EdgeReader;
    if lists == [] {
      assert acc + lists == acc;
    } else {
      AtSplit(b, at, EdgesBytes(lists[0]), Cat(EdgesBytes, lists[1..]));
      GetEdgeList(b, at, lists[0], tables[0]);
      GetEdges(b, at + |EdgesBytes(lists[0])|, lists[1..], tables[1..], acc + [lists[0]]);
      assert acc + [lists[0]] + lists[1..] == acc + lists;
    }
  }
}
