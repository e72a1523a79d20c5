/** The stored vertices of a multi-vector collection, saved to bytes and loaded from bytes. */
module NamedStore {
  import opened Common
  import opened ListCodec
  import opened VertexFormat
  import opened NamedCodec
  import VertexStore

  type SaveError = VertexStore.SaveError

  // ---------- saving ----------

  /** Values in the ranges of their types: what any stored vertex satisfies. */
  ghost predicate NamedTyped(v: NamedVertex) {
    && |v.vectors| < TWO32 && |v.metadata| < TWO32
    && (forall k :: k in v.vectors ==> WordsTyped(v.vectors[k]))
    && (forall k :: k in v.metadata ==> ValueTyped(v.metadata[k]))
  }

  ghost predicate WordsTyped(words: seq<nat>) {
    |words| < TWO32 && forall i :: 0 <= i < |words| ==> words[i] < TWO32
  }

  ghost predicate NamedShardTyped(shard: NamedShard) {
    |shard| < TWO64 && forall k :: k in shard ==> NamedTyped(shard[k])
  }

  /** What the format can hold: short keys and strings, integers and strings only. */
  ghost predicate NamedSupported(v: NamedVertex) {
    VectorsSupported(v.vectors) && MetaSupported(v.metadata)
  }

  ghost predicate VectorsSupported(vectors: map<Bytes, seq<nat>>) {
    forall k :: k in vectors ==> |k| < TWO16
  }

  ghost predicate MetaSupported(m: map<Bytes, Value>) {
    forall k :: k in m ==> |k| < TWO16 && ValueHeld(m[k])
  }

  predicate ValueHeld(v: Value) {
    v.Int? || (v.Str? && |v.s| < TWO16)
  }

  ghost predicate NamedShardSupported(shard: NamedShard) {
    forall k :: k in shard ==> |k| < TWO16 && NamedSupported(shard[k])
  }

  method SaveVectors(vectors: map<Bytes, seq<nat>>) returns (r: Result<Bytes, SaveError>, ghost list: seq<VectorEntry>)
    requires |vectors| < TWO32 && forall k :: k in vectors ==> WordsTyped(vectors[k])
    ensures r.Ok? <==> VectorsSupported(vectors)
    ensures r.Ok? ==> Listed(VectorName, VectorWords, list, vectors, vectors.Keys) && (forall v :: v in list ==> VectorFits(v))
    ensures r.Ok? ==> r.value == Be(|list|, 4) + Cat(VectorBytes, list)
  {
    hide Be, Cat, WordsBytes, Listed;
    list := [];
    var bytes: Bytes := [];
    ListedNone(VectorName, VectorWords, vectors);
    NothingWritten(VectorBytes);
    var rest := vectors.Keys;
    assert vectors.Keys - rest == {};
    while rest != {}
      invariant rest <= vectors.Keys && Listed(VectorName, VectorWords, list, vectors, vectors.Keys - rest)
      invariant bytes == Cat(VectorBytes, list) && (forall v :: v in list ==> VectorFits(v))
      invariant forall k :: k in vectors.Keys - rest ==> |k| < TWO16
      decreases |rest|
    {
      var k :| k in rest;
      if |k| > 65535 {
        return Err(VertexStore.KeyTooLong), list;
      }
      var words := VertexStore.SaveVector(vectors[k]);
      ghost var v := VectorEntry(k, vectors[k]);
      ListedMore(VectorName, VectorWords, list, vectors, vectors.Keys - rest, v);
      CatSnoc(VectorBytes, list, v);
      assert vectors.Keys - (rest - {k}) == vectors.Keys - rest + {k};
      bytes := bytes + (Be(|k|, 2) + k + words);
      assert VectorBytes(v) == Be(|k|, 2) + k + words;
      list := list + [v];
      rest := rest - {k};
    }
    assert vectors.Keys - {} == vectors.Keys;
    ListedSize(VectorName, VectorWords, list, vectors);
    return Ok(Be(|vectors|, 4) + bytes), list;
  }

  /** One metadata entry. */
  method SaveMeta(k: Bytes, v: Value) returns (r: Result<Bytes, SaveError>)
    ensures r.Ok? <==> |k| < TWO16 && ValueHeld(v)
    ensures r.Ok? ==> r.value == MetaBytes(Pair(k, v))
  {
    hide Be;
    if |k| > 65535 {
      return Err(VertexStore.KeyTooLong);
    }
    var buf := Be(|k|, 2) + k;
    match v
    case Int(n) => return Ok(buf + ([0] + Be(n % TWO64, 8)));
    case Str(s) =>
      if |s| > 65535 {
        return Err(VertexStore.StringTooLong);
      }
      return Ok(buf + ([1] + (Be(|s|, 2) + s)));
    case _ => return Err(VertexStore.UnsupportedType);
  }

  method SaveMetadata(m: map<Bytes, Value>) returns (r: Result<Bytes, SaveError>, ghost list: seq<Pair>)
    requires |m| < TWO32 && forall k :: k in m ==> ValueTyped(m[k])
    ensures r.Ok? <==> MetaSupported(m)
    ensures r.Ok? ==> Listed(PairKey, PairValue, list, m, m.Keys) && (forall p :: p in list ==> NamedPairFits(p))
    ensures r.Ok? ==> r.value == Be(|list|, 4) + Cat(MetaBytes, list)
  {
    hide Be, Cat, MetaBytes, Listed;
    list := [];
    var bytes: Bytes := [];
    ListedNone(PairKey, PairValue, m);
    NothingWritten(MetaBytes);
    var rest := m.Keys;
    assert m.Keys - rest == {};
    while rest != {}
      invariant rest <= m.Keys && Listed(PairKey, PairValue, list, m, m.Keys - rest)
      invariant bytes == Cat(MetaBytes, list) && (forall p :: p in list ==> NamedPairFits(p))
      invariant forall k :: k in m.Keys - rest ==> |k| < TWO16 && ValueHeld(m[k])
      decreases |rest|
    {
      var k :| k in rest;
      var some := SaveMeta(k, m[k]);
      if some.Err? {
        return Err(some.error), list;
      }
      ListedMore(PairKey, PairValue, list, m, m.Keys - rest, Pair(k, m[k]));
      CatSnoc(MetaBytes, list, Pair(k, m[k]));
      assert m.Keys - (rest - {k}) == m.Keys - rest + {k};
      bytes := bytes + some.value;
      list := list + [Pair(k, m[k])];
      rest := rest - {k};
    }
    assert m.Keys - {} == m.Keys;
    ListedSize(PairKey, PairValue, list, m);
    return Ok(Be(|m|, 4) + bytes), list;
  }

  /** One vertex. */
  method SaveEntry(key: Bytes, v: NamedVertex) returns (r: Result<Bytes, SaveError>, ghost e: NamedEntry)
    requires NamedTyped(v)
    ensures r.Ok? <==> |key| < TWO16 && NamedSupported(v)
    ensures r.Ok? ==> e.key == key && NamedEntryFits(e) && NamedValue(e) == v && r.value == NamedEntryBytes(e)
  {
    hide Be, Cat, Listed, MapOf, VectorsSupported, MetaSupported, VectorFits, NamedPairFits;
    e := NamedEntry(key, [], []);
    if |key| > 65535 {
      return Err(VertexStore.KeyTooLong), e;
    }
    var vectors; ghost var list;
    vectors, list := SaveVectors(v.vectors);
    if vectors.Err? {
      return Err(vectors.error), e;
    }
    var meta; ghost var pairs;
    meta, pairs := SaveMetadata(v.metadata);
    if meta.Err? {
      return Err(meta.error), e;
    }
    e := NamedEntry(key, list, pairs);
    MapOfAll(VectorName, VectorWords, list, v.vectors);
    MapOfAll(PairKey, PairValue, pairs, v.metadata);
    ListedSize(VectorName, VectorWords, list, v.vectors);
    ListedSize(PairKey, PairValue, pairs, v.metadata);
    return Ok(Be(|key|, 2) + key + vectors.value + meta.value), e;
  }

  method SaveShard(shard: NamedShard) returns (r: Result<Bytes, SaveError>, ghost es: seq<NamedEntry>)
    requires NamedShardTyped(shard)
    ensures r.Ok? <==> NamedShardSupported(shard)
    ensures r.Ok? ==> Listed(NamedKey, NamedValue, es, shard, shard.Keys) && NamedShardFits(es) && r.value == NamedShardBytes(es)
  {
    hide Be, Cat, NamedEntryBytes, Listed, NamedValue, NamedTyped, NamedSupported, NamedEntryFits;
    es := [];
    var bytes: Bytes := [];
    ListedNone(NamedKey, NamedValue, shard);
    NothingWritten(NamedEntryBytes);
    var rest := shard.Keys;
    assert shard.Keys - rest == {};
    while rest != {}
      invariant rest <= shard.Keys && Listed(NamedKey, NamedValue, es, shard, shard.Keys - rest)
      invariant bytes == Cat(NamedEntryBytes, es) && (forall e :: e in es ==> NamedEntryFits(e))
      invariant forall k :: k in shard.Keys - rest ==> |k| < TWO16 && NamedSupported(shard[k])
      decreases |rest|
    {
      var k :| k in rest;
      var some; ghost var e;
      some, e := SaveEntry(k, shard[k]);
      if some.Err? {
        return Err(some.error), es;
      }
      ListedMore(NamedKey, NamedValue, es, shard, shard.Keys - rest, e);
      CatSnoc(NamedEntryBytes, es, e);
      assert shard.Keys - (rest - {k}) == shard.Keys - rest + {k};
      bytes := bytes + some.value;
      es := es + [e];
      rest := rest - {k};
    }
    assert shard.Keys - {} == shard.Keys;
    ListedSize(NamedKey, NamedValue, es, shard);
    return Ok(Be(|shard|, 8) + bytes), es;
  }

  // ---------- loading ----------

  function VectorsOf(list: seq<VectorEntry>): map<Bytes, seq<nat>> {
    MapOf(VectorName, VectorWords, list)
  }

  function MetaOf(list: seq<Pair>): map<Bytes, Value> {
    MapOf(PairKey, PairValue, list)
  }

  method LoadVectors(b: Bytes, at: nat, count: nat) returns (r: Read<map<Bytes, seq<nat>>>)
    ensures r == MapRead(ReadList(ReadVector, b, at, count, []), VectorsOf)
  {
    hide ReadVector;
    var m: map<Bytes, seq<nat>>, now := map[], at;
    ghost var list: seq<VectorEntry> := [];
    for k := 0 to count
      invariant ReadList(ReadVector, b, at, count, []) == ReadList(ReadVector, b, now, count - k, list)
      invariant m == VectorsOf(list)
    {
      var v := ReadVector(b, now);
      if v.Fail? {
        return Fail;
      }
      FilledMore(VectorName, VectorWords, list, v.value);
      m, now, list := m[v.value.name := v.value.words], v.at, list + [v.value];
    }
    return Got(m, now);
  }

  method LoadMetadata(b: Bytes, at: nat, count: nat) returns (r: Read<map<Bytes, Value>>)
    ensures r == MapRead(ReadList(ReadMeta, b, at, count, []), MetaOf)
  {
    hide ReadMeta;
    var m: map<Bytes, Value>, now := map[], at;
    ghost var list: seq<Pair> := [];
    for k := 0 to count
      invariant ReadList(ReadMeta, b, at, count, []) == ReadList(ReadMeta, b, now, count - k, list)
      invariant m == MetaOf(list)
    {
      var p := ReadMeta(b, now);
      if p.Fail? {
        return Fail;
      }
      FilledMore(PairKey, PairValue, list, p.value);
      m, now, list := m[p.value.key := p.value.value], p.at, list + [p.value];
    }
    return Got(m, now);
  }

  datatype Loaded = Loaded(key: Bytes, vertex: NamedVertex)

  function LoadedEntry(e: NamedEntry): Loaded {
    Loaded(e.key, NamedValue(e))
  }

  method LoadEntry(b: Bytes, at: nat) returns (r: Read<Loaded>)
    ensures r == MapRead(ReadNamedEntry(b, at), LoadedEntry)
  {
    hide ReadString, ReadWord, ReadList, MapOf;
    var key := ReadString(b, at);
    if key.Fail? { return Fail; }
    var mvCount := ReadWord(b, key.at, 4);
    if mvCount.Fail? { return Fail; }
    var vectors := LoadVectors(b, mvCount.at, mvCount.value);
    if vectors.Fail? { return Fail; }
    var metaCount := ReadWord(b, vectors.at, 4);
    if metaCount.Fail? { return Fail; }
    var metadata := LoadMetadata(b, metaCount.at, metaCount.value);
    if metadata.Fail? { return Fail; }
    return Got(Loaded(key.value, NamedVertex(vectors.value, metadata.value)), metadata.at);
  }

  /** The entries of one shard, after its count. */
  method LoadEntries(b: Bytes, at: nat, count: nat) returns (r: Read<NamedShard>)
    ensures r == MapRead(ReadList(ReadNamedEntry, b, at, count, []), NamedShardOf)
  {
    hide ReadNamedEntry, NamedValue;
    var m: NamedShard, now := map[], at;
    ghost var es: seq<NamedEntry> := [];
    for j := 0 to count
      invariant ReadList(ReadNamedEntry, b, at, count, []) == ReadList(ReadNamedEntry, b, now, count - j, es)
      invariant m == NamedShardOf(es)
    {
      var e := LoadEntry(b, now);
      ghost var entry := ReadNamedEntry(b, now);
      if e.Fail? {
        return Fail;
      }
      FilledMore(NamedKey, NamedValue, es, entry.value);
      m, now, es := m[e.value.key := e.value.vertex], e.at, es + [entry.value];
    }
    return Got(m, now);
  }

  /** The shard counts that are read before the loading ends or fails. */
  function CountsRead(b: Bytes, at: nat, shards: nat): nat
    decreases shards
  {
    if shards == 0 then 0
    else
      match ReadWord(b, at, 8)
      case Fail => 0
      case Got(count, at1) =>
        count + match ReadList(ReadNamedEntry, b, at1, count, [])
          case Fail => 0
          case Got(_, at2) => CountsRead(b, at2, shards - 1)
  }

  /** One more shard is read. */
  lemma ShardStep(b: Bytes, at: nat, n: nat, lists: seq<seq<NamedEntry>>)
    requires n > 0
    ensures var count := ReadWord(b, at, 8);
            match count
            case Fail => ReadList(ReadNamedShard, b, at, n, lists) == Fail && CountsRead(b, at, n) == 0
            case Got(c, at1) =>
              match ReadList(ReadNamedEntry, b, at1, c, [])
              case Fail => ReadList(ReadNamedShard, b, at, n, lists) == Fail && CountsRead(b, at, n) == c
              case Got(es, at2) =>
                ReadList(ReadNamedShard, b, at, n, lists) == ReadList(ReadNamedShard, b, at2, n - 1, lists + [es])
                && CountsRead(b, at, n) == c + CountsRead(b, at2, n - 1)
  {
    hide ReadWord, ReadNamedEntry;
  }

  /** Addition on the unsigned 64-bit counter. */
  function Counted(size: nat, n: nat): nat {
    (size + n) % TWO64
  }

  lemma CountedAdds(size: nat, a: nat, b: nat)
    ensures Counted(Counted(size, a), b) == Counted(size, a + b)
    ensures size < TWO64 ==> Counted(size, 0) == size
  {
    assert size + a == TWO64 * ((size + a) / TWO64) + Counted(size, a);
  }

  class NamedVertices {
    var shards: seq<NamedShard>
    /** `size`, an unsigned 64-bit counter. */
    var size: nat

    constructor ()
      ensures shards == seq(VERTEX_SHARD_COUNT, _ => map[]) && size == 0
    {
      shards := seq(VERTEX_SHARD_COUNT, _ => map[]);
      size := 0;
    }

    ghost predicate Typed()
      reads this
    {
      |shards| == VERTEX_SHARD_COUNT && forall i :: 0 <= i < |shards| ==> NamedShardTyped(shards[i])
    }

    /** `SaveVertex`: succeeds exactly if every key and string is short enough and every type is supported. */
    method SaveVertex() returns (r: Result<Bytes, SaveError>, ghost lists: seq<seq<NamedEntry>>)
      requires Typed()
      ensures r.Ok? <==> forall i :: 0 <= i < |shards| ==> NamedShardSupported(shards[i])
      ensures r.Ok? ==> ListsNamed(lists, shards) && r.value == Cat(NamedShardBytes, lists)
    {
      hide Cat, NamedShardTyped, NamedShardSupported, NamedShardFits, NamedShardBytes, Listed;
      lists := [];
      var bytes: Bytes := [];
      NothingWritten(NamedShardBytes);
      for i := 0 to VERTEX_SHARD_COUNT
        invariant ListsNamed(lists, shards[..i]) && bytes == Cat(NamedShardBytes, lists)
        invariant forall j :: 0 <= j < i ==> NamedShardSupported(shards[j])
      {
        var s; ghost var es;
        s, es := SaveShard(shards[i]);
        if s.Err? {
          return Err(s.error), lists;
        }
        CatSnoc(NamedShardBytes, lists, es);
        bytes := bytes + s.value;
        lists := lists + [es];
      }
      assert shards[..VERTEX_SHARD_COUNT] == shards;
      return Ok(bytes), lists;
    }

    /** `LoadVertex`: the stored shards are replaced only if all of them could be read, but the counter has grown by
        every count that was read, also when the loading fails. */
    method LoadVertex(data: Bytes) returns (ok: bool)
      requires size < TWO64
      modifies this
      ensures var r := ReadNamedShards(data);
              ok == r.Got? && shards == if ok then NamedShardsOf(r.value) else old(shards)
      ensures size == Counted(old(size), CountsRead(data, 0, VERTEX_SHARD_COUNT))
    {
      hide ReadWord, ReadList, ReadNamedEntry, NamedShardOf, Counted, CountsRead;
      NothingLeft(data);
      var loaded: seq<NamedShard>, now := [], 0;
      ghost var lists: seq<seq<NamedEntry>>, counted: nat := [], 0;
      CountedAdds(size, 0, 0);
      for i := 0 to VERTEX_SHARD_COUNT
        invariant ReadNamedShards(data) == ReadList(ReadNamedShard, data, now, VERTEX_SHARD_COUNT - i, lists)
        invariant CountsRead(data, 0, VERTEX_SHARD_COUNT) == counted + CountsRead(data, now, VERTEX_SHARD_COUNT - i)
        invariant loaded == NamedShardsOf(lists) && shards == old(shards) && size == Counted(old(size), counted)
      {
        ShardStep(data, now, VERTEX_SHARD_COUNT - i, lists);
        var count := ReadWord(data, now, 8);
        if count.Fail? {
          return false;
        }
        CountedAdds(old(size), counted, count.value);
        size := Counted(size, count.value);
        counted := counted + count.value;
        var m := LoadEntries(data, count.at, count.value);
        ghost var es := ReadList(ReadNamedEntry, data, count.at, count.value, []);
        if m.Fail? {
          return false;
        }
        loaded, now, lists := loaded + [m.value], m.at, lists + [es.value];
      }
      NothingMore(data, now, lists);
      shards := loaded;
      return true;
    }

    lemma NothingLeft(data: Bytes)
      ensures NamedShardsOf([]) == [] && ReadNamedShards(data) == ReadList(ReadNamedShard, data, 0, VERTEX_SHARD_COUNT, [])
    {
    }

    lemma NothingMore(data: Bytes, at: nat, lists: seq<seq<NamedEntry>>)
      ensures ReadList(ReadNamedShard, data, at, 0, lists) == Got(lists, at) && CountsRead(data, at, 0) == 0
    {
    }
  }

  /** A failed load is not without effect: the count of the shard that could not be read stays added. */
  lemma FailedLoadCounts()
    ensures ReadNamedShards(Be(1, 8)) == Fail && CountsRead(Be(1, 8), 0, VERTEX_SHARD_COUNT) == 1
  {
    hide Be, FromBe;
    var b := Be(1, 8);
    Widths();
    FromBeUndoes(1, 8);
    assert b[0..8] == b;
    assert ReadWord(b, 0, 8) == Got(1, 8);
    assert ReadNamedEntry(b, 8) == Fail;
    assert ReadList(ReadNamedEntry, b, 8, 1, []) == Fail;
    assert ReadNamedShard(b, 0) == Fail;
  }
}
