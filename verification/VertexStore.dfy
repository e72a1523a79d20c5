/** The stored vertices of an edge space, saved to bytes and loaded from bytes. */
module VertexStore {
  import opened Common
  import opened VertexFormat
  import opened VertexCodec

  datatype SaveError = KeyTooLong | StringTooLong | UnsupportedType

  // ---------- saving ----------

  /** Values in the ranges of their types: what any stored node satisfies. */
  ghost predicate NodeTyped(node: Node) {
    |node.vector| < TWO32 && (forall i :: 0 <= i < |node.vector| ==> node.vector[i] < TWO32)
    && |node.metadata| < TWO32 && forall k :: k in node.metadata ==> ValueTyped(node.metadata[k])
  }

  ghost predicate ShardTyped(shard: Shard) {
    |shard| < TWO64 && forall k :: k in shard ==> k < TWO64 && NodeTyped(shard[k])
  }

  /** Metadata that the format can hold. */
  ghost predicate MetaSupported(m: map<Bytes, Value>) {
    forall k :: k in m ==> |k| < TWO16 && ValueSupported(m[k])
  }

  ghost predicate ShardSupported(shard: Shard) {
    forall k :: k in shard ==> MetaSupported(shard[k].metadata)
  }

  lemma {:induction false} PairsBytesSnoc(meta: seq<Pair>, p: Pair, widen: nat -> nat)
    ensures PairsBytes(meta + [p], widen) == PairsBytes(meta, widen) + PairBytes(p, widen)
  {
    hide PairBytes;
    if meta != [] {
      PairsBytesSnoc(meta[1..], p, widen);
      assert (meta + [p])[1..] == meta[1..] + [p];
    }
  }

  lemma {:induction false} WordsBytesSnoc(words: seq<nat>, w: nat)
    ensures WordsBytes(words + [w]) == WordsBytes(words) + Be(w, 4)
  {
    hide Be;
    if words != [] {
      WordsBytesSnoc(words[1..], w);
      assert (words + [w])[1..] == words[1..] + [w];
    }
  }

  lemma {:induction false} EntriesBytesSnoc(es: seq<Entry>, e: Entry, widen: nat -> nat)
    ensures EntriesBytes(es + [e], widen) == EntriesBytes(es, widen) + EntryBytes(e, widen)
  {
    hide EntryBytes;
    if es != [] {
      EntriesBytesSnoc(es[1..], e, widen);
      assert (es + [e])[1..] == es[1..] + [e];
    }
  }

  lemma {:induction false} ShardsBytesSnoc(lists: seq<seq<Entry>>, es: seq<Entry>, widen: nat -> nat)
    ensures ShardsBytes(lists + [es], widen) == ShardsBytes(lists, widen) + ShardBytes(es, widen)
  {
    hide ShardBytes;
    if lists != [] {
      ShardsBytesSnoc(lists[1..], es, widen);
      assert (lists + [es])[1..] == lists[1..] + [es];
    }
  }

  /** What the loop over a metadata map has written. */
  ghost predicate MetaWritten(meta: seq<Pair>, m: map<Bytes, Value>, done: set<Bytes>) {
    done <= m.Keys && DistinctKeys(meta) && KeysOf(meta) == done && |meta| == |done|
    && forall i :: 0 <= i < |meta| ==> meta[i].key in m && m[meta[i].key] == meta[i].value && PairFits(meta[i])
  }

  lemma KeysOfSnoc(meta: seq<Pair>, p: Pair)
    ensures KeysOf(meta + [p]) == KeysOf(meta) + {p.key}
  {
    var more := meta + [p];
    forall x | x in KeysOf(meta)
      ensures x in KeysOf(more)
    {
      var i :| 0 <= i < |meta| && meta[i].key == x;
      assert more[i].key == x;
    }
    assert more[|meta|].key == p.key;
    forall x | x in KeysOf(more)
      ensures x in KeysOf(meta) || x == p.key
    {
      var i :| 0 <= i < |more| && more[i].key == x;
      assert i < |meta| ==> meta[i].key == x;
    }
  }

  lemma MetaWrittenMore(meta: seq<Pair>, m: map<Bytes, Value>, done: set<Bytes>, k: Bytes)
    requires MetaWritten(meta, m, done) && k in m && k !in done && PairFits(Pair(k, m[k]))
    ensures MetaWritten(meta + [Pair(k, m[k])], m, done + {k})
  {
    hide PairFits, KeysOf, DistinctKeys;
    KeysOfSnoc(meta, Pair(k, m[k]));
    DistinctSnoc(meta, Pair(k, m[k]));
  }

  lemma DistinctSnoc(meta: seq<Pair>, p: Pair)
    requires DistinctKeys(meta) && p.key !in KeysOf(meta)
    ensures DistinctKeys(meta + [p])
  {
    assert forall i :: 0 <= i < |meta| ==> meta[i].key in KeysOf(meta);
  }

  /** One metadata entry. */
  method SavePair(k: Bytes, v: Value, widen: nat -> nat) returns (r: Result<Bytes, SaveError>)
    ensures r.Ok? <==> |k| < TWO16 && ValueSupported(v)
    ensures r.Ok? ==> r.value == PairBytes(Pair(k, v), widen)
  {
    hide Be;
    if |k| > 65535 {
      return Err(KeyTooLong);
    }
    var buf := Be(|k|, 2) + k;
    match v
    case Int(n) => return Ok(buf + ([0] + Be(n % TWO64, 8)));
    case Str(s) =>
      if |s| > 65535 {
        return Err(StringTooLong);
      }
      return Ok(buf + ([1] + (Be(|s|, 2) + s)));
    case Float32(w) => return Ok(buf + ([2] + Be(Widened(w, widen), 8)));
    case Float64(w) => return Ok(buf + ([2] + Be(w, 8)));
    case Bool(b) => return Ok(buf + ([3] + [if b then 1 else 0]));
    case Other => return Err(UnsupportedType);
  }

  /** The metadata of a node, in whatever order the map is iterated. */
  method SaveMetadata(m: map<Bytes, Value>, widen: nat -> nat) returns (r: Result<Bytes, SaveError>, ghost meta: seq<Pair>)
    requires |m| < TWO32 && forall k :: k in m ==> ValueTyped(m[k])
    ensures r.Ok? <==> MetaSupported(m)
    ensures r.Ok? ==> ListsMeta(meta, m) && MetaFits(meta) && r.value == Be(|meta|, 4) + PairsBytes(meta, widen)
  {
    hide Be, PairsBytes, PairBytes, DistinctKeys, KeysOf;
    meta := [];
    MetaWrittenNone(m, widen);
    var bytes: Bytes := [];
    var rest := m.Keys;
    while rest != {}
      invariant rest <= m.Keys && MetaWritten(meta, m, m.Keys - rest) && bytes == PairsBytes(meta, widen)
      decreases |rest|
    {
      var k :| k in rest;
      var p := SavePair(k, m[k], widen);
      if p.Err? {
        return Err(p.error), meta;
      }
      MetaWrittenMore(meta, m, m.Keys - rest, k);
      PairsBytesSnoc(meta, Pair(k, m[k]), widen);
      assert m.Keys - (rest - {k}) == m.Keys - rest + {k};
      bytes := bytes + p.value;
      meta := meta + [Pair(k, m[k])];
      rest := rest - {k};
    }
    AllSupported(meta, m);
    return Ok(Be(|m|, 4) + bytes), meta;
  }

  lemma MetaWrittenNone(m: map<Bytes, Value>, widen: nat -> nat)
    ensures MetaWritten([], m, m.Keys - m.Keys) && PairsBytes([], widen) == []
  {
  }

  lemma AllSupported(meta: seq<Pair>, m: map<Bytes, Value>)
    requires MetaWritten(meta, m, m.Keys - {})
    ensures MetaSupported(m) && ListsMeta(meta, m) && |meta| == |m|
  {
    assert m.Keys - {} == m.Keys;
    forall k | k in m
      ensures |k| < TWO16 && ValueSupported(m[k])
    {
      assert k in KeysOf(meta);
      var i :| 0 <= i < |meta| && meta[i].key == k;
      assert PairFits(meta[i]);
    }
  }

  /** The vector of a node. */
  method SaveVector(vector: seq<nat>) returns (bytes: Bytes)
    ensures bytes == Be(|vector|, 4) + WordsBytes(vector)
  {
    hide Be, WordsBytes;
    bytes := [];
    assert WordsBytes([]) == [] by { NoWords(); }
    assert vector[..0] == [];
    for i := 0 to |vector|
      invariant bytes == WordsBytes(vector[..i])
    {
      WordsBytesSnoc(vector[..i], vector[i]);
      assert vector[..i + 1] == vector[..i] + [vector[i]];
      bytes := bytes + Be(vector[i], 4);
    }
    assert vector[..|vector|] == vector;
    bytes := Be(|vector|, 4) + bytes;
  }

  lemma NoWords()
    ensures WordsBytes([]) == []
  {
  }

  /** One vertex. */
  method SaveEntry(key: nat, node: Node, widen: nat -> nat) returns (r: Result<Bytes, SaveError>, ghost e: Entry)
    requires key < TWO64 && NodeTyped(node)
    ensures r.Ok? <==> MetaSupported(node.metadata)
    ensures r.Ok? ==> e.key == key && EntryFits(e) && ListsNode(e, node) && r.value == EntryBytes(e, widen)
  {
    hide Be, WordsBytes, PairsBytes, ListsMeta, MetaSupported;
    var head := Be(key, 8);
    var vector := SaveVector(node.vector);
    var meta; ghost var list;
    meta, list := SaveMetadata(node.metadata, widen);
    e := Entry(key, node.vector, list);
    if meta.Err? {
      return Err(meta.error), e;
    }
    assert head + vector + meta.value == EntryBytes(e, widen);
    return Ok(head + vector + meta.value), e;
  }

  /** What the loop over a shard has written. */
  ghost predicate ShardWritten(es: seq<Entry>, shard: Shard, done: set<nat>) {
    done <= shard.Keys && DistinctEntries(es) && NodeKeys(es) == done && |es| == |done|
    && forall i :: 0 <= i < |es| ==> es[i].key in shard && ListsNode(es[i], shard[es[i].key]) && EntryFits(es[i])
  }

  lemma NodeKeysSnoc(es: seq<Entry>, e: Entry)
    ensures NodeKeys(es + [e]) == NodeKeys(es) + {e.key}
  {
    var more := es + [e];
    forall x | x in NodeKeys(es)
      ensures x in NodeKeys(more)
    {
      var i :| 0 <= i < |es| && es[i].key == x;
      assert more[i].key == x;
    }
    assert more[|es|].key == e.key;
    forall x | x in NodeKeys(more)
      ensures x in NodeKeys(es) || x == e.key
    {
      var i :| 0 <= i < |more| && more[i].key == x;
      assert i < |es| ==> es[i].key == x;
    }
  }

  lemma ShardWrittenMore(es: seq<Entry>, shard: Shard, done: set<nat>, e: Entry)
    requires ShardWritten(es, shard, done) && e.key in shard && e.key !in done && ListsNode(e, shard[e.key]) && EntryFits(e)
    ensures ShardWritten(es + [e], shard, done + {e.key})
  {
    hide ListsNode, EntryFits, NodeKeys, DistinctEntries;
    NodeKeysSnoc(es, e);
    DistinctEntriesSnoc(es, e);
  }

  lemma DistinctEntriesSnoc(es: seq<Entry>, e: Entry)
    requires DistinctEntries(es) && e.key !in NodeKeys(es)
    ensures DistinctEntries(es + [e])
  {
    assert forall i :: 0 <= i < |es| ==> es[i].key in NodeKeys(es);
  }

  method SaveShard(shard: Shard, widen: nat -> nat) returns (r: Result<Bytes, SaveError>, ghost es: seq<Entry>)
    requires ShardTyped(shard)
    ensures r.Ok? <==> ShardSupported(shard)
    ensures r.Ok? ==> ListsShard(es, shard) && EntriesFit(es) && r.value == ShardBytes(es, widen)
  {
    hide Be, EntriesBytes, EntryBytes, MetaSupported, ListsNode, NodeTyped, EntryFits, NodeKeys, DistinctEntries;
    es := [];
    ShardWrittenNone(shard, widen);
    var bytes: Bytes := [];
    var rest := shard.Keys;
    while rest != {}
      invariant rest <= shard.Keys && ShardWritten(es, shard, shard.Keys - rest) && bytes == EntriesBytes(es, widen)
      invariant forall k :: k in shard.Keys - rest ==> MetaSupported(shard[k].metadata)
      decreases |rest|
    {
      var k :| k in rest;
      var p; ghost var e;
      p, e := SaveEntry(k, shard[k], widen);
      if p.Err? {
        return Err(p.error), es;
      }
      ShardWrittenMore(es, shard, shard.Keys - rest, e);
      EntriesBytesSnoc(es, e, widen);
      assert shard.Keys - (rest - {k}) == shard.Keys - rest + {k};
      bytes := bytes + p.value;
      es := es + [e];
      rest := rest - {k};
    }
    assert shard.Keys - {} == shard.Keys;
    assert |shard.Keys| == |shard|;
    return Ok(Be(|shard|, 8) + bytes), es;
  }

  lemma ShardWrittenNone(shard: Shard, widen: nat -> nat)
    ensures ShardWritten([], shard, shard.Keys - shard.Keys) && EntriesBytes([], widen) == []
  {
  }

  // ---------- loading ----------

  method LoadMetadata(b: Bytes, at: nat, count: nat) returns (r: Read<map<Bytes, Value>>)
    ensures r == ReadPairs(b, at, count, map[])
  {
    hide ReadPair;
    var m: map<Bytes, Value>, now := map[], at;
    for k := 0 to count
      invariant ReadPairs(b, at, count, map[]) == ReadPairs(b, now, count - k, m)
    {
      var p := ReadPair(b, now);
      if p.Fail? {
        return Fail;
      }
      m, now := m[p.value.key := p.value.value], p.at;
    }
    return Got(m, now);
  }

  method LoadVector(b: Bytes, at: nat, count: nat) returns (r: Read<seq<nat>>)
    ensures r == ReadWords(b, at, count, [])
  {
    hide ReadWord;
    var words: seq<nat>, now := [], at;
    for d := 0 to count
      invariant ReadWords(b, at, count, []) == ReadWords(b, now, count - d, words)
    {
      var w := ReadWord(b, now, 4);
      if w.Fail? {
        return Fail;
      }
      words, now := words + [w.value], w.at;
    }
    return Got(words, now);
  }

  method LoadEntry(b: Bytes, at: nat) returns (r: Read<Keyed>)
    ensures r == ReadEntry(b, at)
  {
    hide ReadWord, ReadWords, ReadPairs;
    var key := ReadWord(b, at, 8);
    if key.Fail? { return Fail; }
    var vecLen := ReadWord(b, key.at, 4);
    if vecLen.Fail? { return Fail; }
    var vector := LoadVector(b, vecLen.at, vecLen.value);
    if vector.Fail? { return Fail; }
    var metaCount := ReadWord(b, vector.at, 4);
    if metaCount.Fail? { return Fail; }
    var metadata := LoadMetadata(b, metaCount.at, metaCount.value);
    if metadata.Fail? { return Fail; }
    return Got(Keyed(key.value, Node(vector.value, metadata.value)), metadata.at);
  }

  method LoadShard(b: Bytes, at: nat) returns (r: Read<Shard>)
    ensures r == ReadShard(b, at)
  {
    hide ReadWord, ReadEntry;
    var count := ReadWord(b, at, 8);
    if count.Fail? { return Fail; }
    var m: Shard, now := map[], count.at;
    for j := 0 to count.value
      invariant ReadShard(b, at) == ReadEntries(b, now, count.value - j, m)
    {
      var e := LoadEntry(b, now);
      if e.Fail? {
        return Fail;
      }
      m, now := m[e.value.key := e.value.node], e.at;
    }
    return Got(m, now);
  }

  class Vertices {
    var shards: seq<Shard>
    const widen: nat -> nat

    constructor (widen: nat -> nat)
      ensures this.widen == widen && shards == seq(EDGE_MAP_SHARD_COUNT, _ => map[])
    {
      this.widen := widen;
      shards := seq(EDGE_MAP_SHARD_COUNT, _ => map[]);
    }

    ghost predicate Typed()
      reads this
    {
      |shards| == EDGE_MAP_SHARD_COUNT && forall i :: 0 <= i < |shards| ==> ShardTyped(shards[i])
    }

    /** `SaveVertex`: succeeds exactly if every key and string is short enough and every type is
        supported. */
    method SaveVertex() returns (r: Result<Bytes, SaveError>, ghost lists: seq<seq<Entry>>)
      requires Typed()
      ensures r.Ok? <==> forall i :: 0 <= i < |shards| ==> ShardSupported(shards[i])
      ensures r.Ok? ==> ListsShards(lists, shards) && r.value == ShardsBytes(lists, widen)
    {
      hide ShardTyped, ShardSupported, ListsShard, EntriesFit, ShardBytes, ShardsBytes;
      lists := [];
      var bytes: Bytes := [];
      NoShards(widen);
      for i := 0 to EDGE_MAP_SHARD_COUNT
        invariant ListsShards(lists, shards[..i]) && bytes == ShardsBytes(lists, widen)
        invariant forall j :: 0 <= j < i ==> ShardSupported(shards[j])
      {
        var s; ghost var es;
        s, es := SaveShard(shards[i], widen);
        if s.Err? {
          return Err(s.error), lists;
        }
        ShardsBytesSnoc(lists, es, widen);
        bytes := bytes + s.value;
        lists := lists + [es];
      }
      assert shards[..EDGE_MAP_SHARD_COUNT] == shards;
      return Ok(bytes), lists;
    }

    lemma NoShards(widen: nat -> nat)
      ensures ShardsBytes([], widen) == []
    {
    }

    /** `LoadVertex`: the stored shards are replaced only if all of them could be read. */
    method LoadVertex(data: Bytes) returns (ok: bool)
      modifies this`shards
      ensures var r := ReadShards(data, 0, EDGE_MAP_SHARD_COUNT, []);
              ok == r.Got? && shards == if ok then r.value else old(shards)
    {
      hide ReadShard;
      var loaded: seq<Shard>, now := [], 0;
      for i := 0 to EDGE_MAP_SHARD_COUNT
        invariant ReadShards(data, 0, EDGE_MAP_SHARD_COUNT, []) == ReadShards(data, now, EDGE_MAP_SHARD_COUNT - i, loaded)
        invariant shards == old(shards)
      {
        var s := LoadShard(data, now);
        if s.Fail? {
          return false;
        }
        loaded, now := loaded + [s.value], s.at;
      }
      shards := loaded;
      return true;
    }
  }
}
