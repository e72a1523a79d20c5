/** The vertex format over named vectors: loading undoes saving for every iteration order, and no strict prefix loads. */
module NamedCodec {
  import opened Common
  import opened ListCodec
  import opened VertexFormat
  import opened VertexCodec

  const VERTEX_SHARD_COUNT: nat := 16

  /** A vertex: named vectors, as bit patterns, and metadata. */
  datatype NamedVertex = NamedVertex(vectors: map<Bytes, seq<nat>>, metadata: map<Bytes, Value>)

  type NamedShard = map<Bytes, NamedVertex>

  /** What follows each other in the bytes. */
  datatype VectorEntry = VectorEntry(name: Bytes, words: seq<nat>)

  datatype NamedEntry = NamedEntry(key: Bytes, vectors: seq<VectorEntry>, meta: seq<Pair>)

  // ---------- writing ----------

  /** Only integers and strings can be written here. */
  predicate NamedValueFits(v: Value) {
    match v
    case Int(n) => -TWO63 <= n < TWO63
    case Str(s) => |s| < TWO16
    case _ => false
  }

  function NamedValueBytes(v: Value): Bytes {
    match v
    case Int(n) => [0] + Be(n % TWO64, 8)
    case Str(s) => [1] + StringBytes(s)
    case _ => []
  }

  function MetaBytes(p: Pair): Bytes {
    StringBytes(p.key) + NamedValueBytes(p.value)
  }

  function VectorBytes(v: VectorEntry): Bytes {
    StringBytes(v.name) + (Be(|v.words|, 4) + WordsBytes(v.words))
  }

  function NamedEntryBytes(e: NamedEntry): Bytes {
    StringBytes(e.key) + (Be(|e.vectors|, 4) + Cat(VectorBytes, e.vectors)) + (Be(|e.meta|, 4) + Cat(MetaBytes, e.meta))
  }

  function NamedShardBytes(es: seq<NamedEntry>): Bytes {
    Be(|es|, 8) + Cat(NamedEntryBytes, es)
  }

  predicate NamedPairFits(p: Pair) {
    |p.key| < TWO16 && NamedValueFits(p.value)
  }

  ghost predicate VectorFits(v: VectorEntry) {
    |v.name| < TWO16 && |v.words| < TWO32 && forall i :: 0 <= i < |v.words| ==> v.words[i] < TWO32
  }

  ghost predicate NamedEntryFits(e: NamedEntry) {
    |e.key| < TWO16 && |e.vectors| < TWO32 && |e.meta| < TWO32
    && (forall v :: v in e.vectors ==> VectorFits(v)) && (forall p :: p in e.meta ==> NamedPairFits(p))
  }

  ghost predicate NamedShardFits(es: seq<NamedEntry>) {
    |es| < TWO64 && forall e :: e in es ==> NamedEntryFits(e)
  }

  // ---------- reading ----------

  function ReadNamedBody(b: Bytes, at: nat, typ: nat): Read<Value> {
    if typ == 0 then
      match ReadWord(b, at, 8)
      case Fail => Fail
      case Got(w, at1) => Got(Int(Signed(w)), at1)
    else if typ == 1 then
      match ReadString(b, at)
      case Fail => Fail
      case Got(s, at1) => Got(Str(s), at1)
    else Fail
  }

  function ReadNamedValue(b: Bytes, at: nat): Read<Value> {
    match ReadWord(b, at, 1)
    case Fail => Fail
    case Got(typ, at1) => ReadNamedBody(b, at1, typ)
  }

  function ReadMeta(b: Bytes, at: nat): Read<Pair> {
    match ReadString(b, at)
    case Fail => Fail
    case Got(key, at1) =>
      match ReadNamedValue(b, at1)
      case Fail => Fail
      case Got(v, at2) => Got(Pair(key, v), at2)
  }

  function ReadVector(b: Bytes, at: nat): Read<VectorEntry> {
    match ReadString(b, at)
    case Fail => Fail
    case Got(name, at1) =>
      match ReadWord(b, at1, 4)
      case Fail => Fail
      case Got(dim, at2) =>
        match ReadWords(b, at2, dim, [])
        case Fail => Fail
        case Got(words, at3) => Got(VectorEntry(name, words), at3)
  }

  function ReadNamedEntry(b: Bytes, at: nat): Read<NamedEntry> {
    match ReadString(b, at)
    case Fail => Fail
    case Got(key, at1) =>
      match ReadWord(b, at1, 4)
      case Fail => Fail
      case Got(mvCount, at2) =>
        match ReadList(ReadVector, b, at2, mvCount, [])
        case Fail => Fail
        case Got(vectors, at3) =>
          match ReadWord(b, at3, 4)
          case Fail => Fail
          case Got(metaCount, at4) =>
            match ReadList(ReadMeta, b, at4, metaCount, [])
            case Fail => Fail
            case Got(meta, at5) => Got(NamedEntry(key, vectors, meta), at5)
  }

  function ReadNamedShard(b: Bytes, at: nat): Read<seq<NamedEntry>> {
    match ReadWord(b, at, 8)
    case Fail => Fail
    case Got(count, at1) => ReadList(ReadNamedEntry, b, at1, count, [])
  }

  /** The entries of all shards, as they stand in the bytes. */
  function ReadNamedShards(b: Bytes): Read<seq<seq<NamedEntry>>> {
    ReadList(ReadNamedShard, b, 0, VERTEX_SHARD_COUNT, [])
  }

  // ---------- the maps that are filled ----------

  function VectorName(v: VectorEntry): Bytes { v.name }

  function VectorWords(v: VectorEntry): seq<nat> { v.words }

  function PairKey(p: Pair): Bytes { p.key }

  function PairValue(p: Pair): Value { p.value }

  function NamedKey(e: NamedEntry): Bytes { e.key }

  function NamedValue(e: NamedEntry): NamedVertex {
    NamedVertex(MapOf(VectorName, VectorWords, e.vectors), MapOf(PairKey, PairValue, e.meta))
  }

  function NamedShardOf(es: seq<NamedEntry>): NamedShard {
    MapOf(NamedKey, NamedValue, es)
  }

  function NamedShardsOf(lists: seq<seq<NamedEntry>>): seq<NamedShard> {
    seq(|lists|, i requires 0 <= i < |lists| => NamedShardOf(lists[i]))
  }

  // ---------- reading back what was written ----------

  lemma GetNamedValue(b: Bytes, at: nat, v: Value)
    requires At(b, at, NamedValueBytes(v)) && NamedValueFits(v)
    ensures ReadNamedValue(b, at) == Got(v, at + |NamedValueBytes(v)|)
  {
    hide FromBe, Be, Pow256, ReadWord, At, ReadString, StringBytes;
    Widths();
    match v
    case Int(n) =>
      AtSplit(b, at, [0], Be(n % TWO64, 8));
      GetByte(b, at, 0);
      GetWord(b, at + 1, n % TWO64, 8);
    case Str(s) =>
      AtSplit(b, at, [1], StringBytes(s));
      GetByte(b, at, 1);
      GetString(b, at + 1, s);
  }

  lemma GetMeta(b: Bytes, at: nat, p: Pair)
    requires At(b, at, MetaBytes(p)) && NamedPairFits(p)
    ensures ReadMeta(b, at) == Got(p, at + |MetaBytes(p)|)
  {
    hide ReadString, ReadNamedValue, NamedValueBytes, StringBytes, At;
    AtSplit(b, at, StringBytes(p.key), NamedValueBytes(p.value));
    GetString(b, at, p.key);
    GetNamedValue(b, at + |StringBytes(p.key)|, p.value);
  }

  lemma GetVector(b: Bytes, at: nat, v: VectorEntry)
    requires At(b, at, VectorBytes(v)) && VectorFits(v)
    ensures ReadVector(b, at) == Got(v, at + |VectorBytes(v)|)
  {
    hide ReadString, ReadWord, ReadWords, Be, Pow256, WordsBytes, StringBytes, At;
    Widths();
    var n := |StringBytes(v.name)|;
    AtSplit(b, at, StringBytes(v.name), Be(|v.words|, 4) + WordsBytes(v.words));
    AtSplit(b, at + n, Be(|v.words|, 4), WordsBytes(v.words));
    GetString(b, at, v.name);
    GetWord(b, at + n, |v.words|, 4);
    GetWords(b, at + n + 4, v.words, []);
    assert [] + v.words == v.words;
  }

  /** Where the parts of an entry stand. */
  lemma NamedParts(b: Bytes, at: nat, e: NamedEntry)
    requires At(b, at, NamedEntryBytes(e))
    ensures var n, m := |StringBytes(e.key)|, |Cat(VectorBytes, e.vectors)|;
            At(b, at, StringBytes(e.key)) && At(b, at + n, Be(|e.vectors|, 4)) && At(b, at + n + 4, Cat(VectorBytes, e.vectors))
            && At(b, at + n + 4 + m, Be(|e.meta|, 4)) && At(b, at + n + 8 + m, Cat(MetaBytes, e.meta))
            && |NamedEntryBytes(e)| == n + 8 + m + |Cat(MetaBytes, e.meta)|
  {
    hide Be, Cat, At, StringBytes;
    var key, vectors, meta := StringBytes(e.key), Cat(VectorBytes, e.vectors), Cat(MetaBytes, e.meta);
    AtSplit(b, at, key + (Be(|e.vectors|, 4) + vectors), Be(|e.meta|, 4) + meta);
    AtSplit(b, at + |key| + 4 + |vectors|, Be(|e.meta|, 4), meta);
    AtSplit(b, at, key, Be(|e.vectors|, 4) + vectors);
    AtSplit(b, at + |key|, Be(|e.vectors|, 4), vectors);
  }

  lemma GetNamedEntry(b: Bytes, at: nat, e: NamedEntry)
    requires At(b, at, NamedEntryBytes(e)) && NamedEntryFits(e)
    ensures ReadNamedEntry(b, at) == Got(e, at + |NamedEntryBytes(e)|)
  {
    hide ReadString, ReadWord, ReadList, Be, Pow256, Cat, At, StringBytes, NamedEntryBytes, VectorBytes, MetaBytes,
         VectorFits, NamedPairFits, ReadVector, ReadMeta;
    Widths();
    NamedParts(b, at, e);
    var n, m := |StringBytes(e.key)|, |Cat(VectorBytes, e.vectors)|;
    GetString(b, at, e.key);
    GetWord(b, at + n, |e.vectors|, 4);
    forall v, p: nat | v in e.vectors && At(b, p, VectorBytes(v))
      ensures ReadVector(b, p) == Got(v, p + |VectorBytes(v)|)
    {
      GetVector(b, p, v);
    }
    GetList(VectorBytes, ReadVector, b, at + n + 4, e.vectors, []);
    assert [] + e.vectors == e.vectors;
    GetWord(b, at + n + 4 + m, |e.meta|, 4);
    forall kv, p: nat | kv in e.meta && At(b, p, MetaBytes(kv))
      ensures ReadMeta(b, p) == Got(kv, p + |MetaBytes(kv)|)
    {
      GetMeta(b, p, kv);
    }
    GetList(MetaBytes, ReadMeta, b, at + n + 8 + m, e.meta, []);
    assert [] + e.meta == e.meta;
  }

  lemma GetNamedShard(b: Bytes, at: nat, es: seq<NamedEntry>)
    requires At(b, at, NamedShardBytes(es)) && NamedShardFits(es)
    ensures ReadNamedShard(b, at) == Got(es, at + |NamedShardBytes(es)|)
  {
    hide ReadWord, ReadList, Be, Pow256, Cat, At, NamedEntryBytes, NamedEntryFits, ReadNamedEntry;
    Widths();
    AtSplit(b, at, Be(|es|, 8), Cat(NamedEntryBytes, es));
    GetWord(b, at, |es|, 8);
    forall e, p: nat | e in es && At(b, p, NamedEntryBytes(e))
      ensures ReadNamedEntry(b, p) == Got(e, p + |NamedEntryBytes(e)|)
    {
      GetNamedEntry(b, p, e);
    }
    GetList(NamedEntryBytes, ReadNamedEntry, b, at + 8, es, []);
    assert [] + es == es;
  }

  // ---------- the round trip and the prefix property ----------

  /** The vertices of every shard, each once, in some order, written within the widths of the format. */
  ghost predicate ListsNamed(lists: seq<seq<NamedEntry>>, shards: seq<NamedShard>) {
    |lists| == |shards|
    && forall i :: 0 <= i < |lists| ==>
         NamedShardFits(lists[i]) && Listed(NamedKey, NamedValue, lists[i], shards[i], shards[i].Keys)
  }

  /** For every iteration order: reading the saved bytes gives the stored shards again, and stops at their end. */
  lemma NamedLoadUndoesSave(lists: seq<seq<NamedEntry>>, shards: seq<NamedShard>, rest: Bytes)
    requires |shards| == VERTEX_SHARD_COUNT && ListsNamed(lists, shards)
    ensures var bytes := Cat(NamedShardBytes, lists);
            ReadNamedShards(bytes + rest) == Got(lists, |bytes|) && NamedShardsOf(lists) == shards
  {
    hide ReadList, Cat, NamedShardBytes, NamedShardFits, Listed, MapOf, ReadNamedShard, NamedValue;
    var bytes := Cat(NamedShardBytes, lists);
    assert At(bytes + rest, 0, bytes);
    forall es, p: nat | es in lists && At(bytes + rest, p, NamedShardBytes(es))
      ensures ReadNamedShard(bytes + rest, p) == Got(es, p + |NamedShardBytes(es)|)
    {
      GetNamedShard(bytes + rest, p, es);
    }
    GetList(NamedShardBytes, ReadNamedShard, bytes + rest, 0, lists, []);
    assert [] + lists == lists;
    forall i | 0 <= i < |shards|
      ensures NamedShardOf(lists[i]) == shards[i]
    {
      MapOfAll(NamedKey, NamedValue, lists[i], shards[i]);
    }
  }

  lemma NamedValueStable(a: Bytes, c: Bytes, at: nat)
    ensures Stable(ReadNamedValue(a, at), ReadNamedValue(a + c, at), |a|)
  {
    hide ReadWord, ReadString;
    WordStable(a, c, at, 1);
    var typ := ReadWord(a, at, 1);
    if typ.Got? {
      WordStable(a, c, typ.at, 8);
      StringStable(a, c, typ.at);
    }
  }

  lemma MetaStable(a: Bytes, c: Bytes, at: nat)
    ensures Stable(ReadMeta(a, at), ReadMeta(a + c, at), |a|)
  {
    hide ReadString, ReadNamedValue;
    StringStable(a, c, at);
    var key := ReadString(a, at);
    if key.Got? {
      NamedValueStable(a, c, key.at);
    }
  }

  lemma VectorStable(a: Bytes, c: Bytes, at: nat)
    ensures Stable(ReadVector(a, at), ReadVector(a + c, at), |a|)
  {
    hide ReadString, ReadWord, ReadWords;
    StringStable(a, c, at);
    var name := ReadString(a, at);
    if name.Got? {
      WordStable(a, c, name.at, 4);
      var dim := ReadWord(a, name.at, 4);
      if dim.Got? {
        WordsStable(a, c, dim.at, dim.value, []);
      }
    }
  }

  lemma NamedEntryStable(a: Bytes, c: Bytes, at: nat)
    ensures Stable(ReadNamedEntry(a, at), ReadNamedEntry(a + c, at), |a|)
  {
    hide ReadString, ReadWord, ReadList, ReadVector, ReadMeta;
    StringStable(a, c, at);
    var key := ReadString(a, at);
    if key.Got? {
      WordStable(a, c, key.at, 4);
      var mvCount := ReadWord(a, key.at, 4);
      if mvCount.Got? {
        forall p: nat
          ensures Stable(ReadVector(a, p), ReadVector(a + c, p), |a|)
        {
          VectorStable(a, c, p);
        }
        ListStable(ReadVector, a, c, mvCount.at, mvCount.value, []);
        var vectors := ReadList(ReadVector, a, mvCount.at, mvCount.value, []);
        if vectors.Got? {
          WordStable(a, c, vectors.at, 4);
          var metaCount := ReadWord(a, vectors.at, 4);
          if metaCount.Got? {
            forall p: nat
              ensures Stable(ReadMeta(a, p), ReadMeta(a + c, p), |a|)
            {
              MetaStable(a, c, p);
            }
            ListStable(ReadMeta, a, c, metaCount.at, metaCount.value, []);
          }
        }
      }
    }
  }

  lemma NamedShardStable(a: Bytes, c: Bytes, at: nat)
    ensures Stable(ReadNamedShard(a, at), ReadNamedShard(a + c, at), |a|)
  {
    hide ReadWord, ReadList, ReadNamedEntry;
    WordStable(a, c, at, 8);
    var count := ReadWord(a, at, 8);
    if count.Got? {
      forall p: nat
        ensures Stable(ReadNamedEntry(a, p), ReadNamedEntry(a + c, p), |a|)
      {
        NamedEntryStable(a, c, p);
      }
      ListStable(ReadNamedEntry, a, c, count.at, count.value, []);
    }
  }

  /** The format is prefix-free: no strict prefix of what was saved can be read. */
  lemma NamedPrefixesFail(lists: seq<seq<NamedEntry>>, shards: seq<NamedShard>, n: nat)
    requires |shards| == VERTEX_SHARD_COUNT && ListsNamed(lists, shards) && n < |Cat(NamedShardBytes, lists)|
    ensures ReadNamedShards(Cat(NamedShardBytes, lists)[..n]) == Fail
  {
    hide ReadList, Cat, ListsNamed, ReadNamedShard, NamedShardBytes;
    var bytes := Cat(NamedShardBytes, lists);
    NamedLoadUndoesSave(lists, shards, []);
    assert bytes + [] == bytes == bytes[..n] + bytes[n..];
    forall p: nat
      ensures Stable(ReadNamedShard(bytes[..n], p), ReadNamedShard(bytes[..n] + bytes[n..], p), n)
    {
      NamedShardStable(bytes[..n], bytes[n..], p);
    }
    ListStable(ReadNamedShard, bytes[..n], bytes[n..], 0, VERTEX_SHARD_COUNT, []);
  }
}
