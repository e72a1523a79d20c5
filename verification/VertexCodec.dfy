/**
 * `SaveVertex` and `LoadVertex`: loading undoes saving for every order in which the maps are iterated, and no strict
 * prefix of what was saved loads.
 */
module VertexCodec {
  import opened Common
  import opened VertexFormat

  const EDGE_MAP_SHARD_COUNT: nat := 16

  // ---------- reading back what was written ----------

  /** The bytes `x` stand at position `at` of `b`. */
  ghost predicate At(b: Bytes, at: nat, x: Bytes) {
    at + |x| <= |b| && b[at..at + |x|] == x
  }

  lemma AtSplit(b: Bytes, at: nat, x: Bytes, y: Bytes)
    requires At(b, at, x + y)
    ensures At(b, at, x) && At(b, at + |x|, y)
  {
    assert b[at..at + |x|] == (x + y)[..|x|] == x;
    assert b[at + |x|..at + |x| + |y|] == (x + y)[|x|..] == y;
  }

  lemma GetWord(b: Bytes, at: nat, x: nat, n: nat)
    requires At(b, at, Be(x, n)) && x < Pow256(n)
    ensures ReadWord(b, at, n) == Got(x, at + n)
  {
    FromBeUndoes(x, n);
  }

  lemma GetByte(b: Bytes, at: nat, x: Byte)
    requires At(b, at, [x])
    ensures ReadWord(b, at, 1) == Got(x, at + 1)
  {
    assert FromBe([x]) == x by { assert FromBe([]) == 0; assert [x][..0] == []; }
  }

  /** A 32-bit float comes back as a 64-bit one; everything else as it was. */
  function Loaded(v: Value, widen: nat -> nat): Value {
    match v
    case Float32(w) => Float64(Widened(w, widen))
    case _ => v
  }

  lemma GetString(b: Bytes, at: nat, s: Bytes)
    requires At(b, at, StringBytes(s)) && |s| < TWO16
    ensures ReadString(b, at) == Got(s, at + |StringBytes(s)|)
  {
    hide FromBe, Be, Pow256;
    Widths();
    AtSplit(b, at, Be(|s|, 2), s);
    GetWord(b, at, |s|, 2);
  }

  lemma GetBody(b: Bytes, at: nat, v: Value, widen: nat -> nat)
    requires At(b, at, Body(v, widen)) && ValueTyped(v) && ValueSupported(v)
    ensures ReadBody(b, at, Tag(v)) == Got(Loaded(v, widen), at + |Body(v, widen)|)
  {
    hide FromBe, Be, Pow256, ReadWord, At, ReadString, StringBytes;
    Widths();
    match v
    case Int(n) => GetWord(b, at, n % TWO64, 8);
    case Str(s) => GetString(b, at, s);
    case Float32(w) => GetWord(b, at, Widened(w, widen), 8);
    case Float64(w) => GetWord(b, at, w, 8);
    case Bool(x) => GetByte(b, at, if x then 1 else 0);
  }

  lemma GetValue(b: Bytes, at: nat, v: Value, widen: nat -> nat)
    requires At(b, at, ValueBytes(v, widen)) && ValueTyped(v) && ValueSupported(v)
    ensures ReadValue(b, at) == Got(Loaded(v, widen), at + |ValueBytes(v, widen)|)
  {
    hide ReadWord, At, Body, ReadBody, Tag, Loaded;
    AtSplit(b, at, [Tag(v)], Body(v, widen));
    GetByte(b, at, Tag(v));
    GetBody(b, at + 1, v, widen);
  }

  lemma GetPair(b: Bytes, at: nat, p: Pair, widen: nat -> nat)
    requires At(b, at, PairBytes(p, widen)) && PairFits(p)
    ensures ReadPair(b, at) == Got(Pair(p.key, Loaded(p.value, widen)), at + |PairBytes(p, widen)|)
  {
    hide ReadString, ReadValue, ValueBytes, StringBytes, At, Loaded;
    AtSplit(b, at, StringBytes(p.key), ValueBytes(p.value, widen));
    GetString(b, at, p.key);
    GetValue(b, at + |StringBytes(p.key)|, p.value, widen);
  }

  /** The map a reader fills with a list of pairs. */
  function AddPairs(m: map<Bytes, Value>, meta: seq<Pair>, widen: nat -> nat): map<Bytes, Value>
    decreases |meta|
  {
    if meta == [] then m else AddPairs(m[meta[0].key := Loaded(meta[0].value, widen)], meta[1..], widen)
  }

  lemma {:induction false} GetPairs(b: Bytes, at: nat, meta: seq<Pair>, m: map<Bytes, Value>, widen: nat -> nat)
    requires At(b, at, PairsBytes(meta, widen)) && forall i :: 0 <= i < |meta| ==> PairFits(meta[i])
    ensures ReadPairs(b, at, |meta|, m) == Got(AddPairs(m, meta, widen), at + |PairsBytes(meta, widen)|)
    decreases |meta|
  {
    hide ReadPair, PairBytes, At;
    if meta != [] {
      var first := PairBytes(meta[0], widen);
      AtSplit(b, at, first, PairsBytes(meta[1..], widen));
      GetPair(b, at, meta[0], widen);
      GetPairs(b, at + |first|, meta[1..], m[meta[0].key := Loaded(meta[0].value, widen)], widen);
    }
  }

  lemma {:induction false} GetWords(b: Bytes, at: nat, words: seq<nat>, read: seq<nat>)
    requires At(b, at, WordsBytes(words)) && forall i :: 0 <= i < |words| ==> words[i] < TWO32
    ensures ReadWords(b, at, |words|, read) == Got(read + words, at + |WordsBytes(words)|)
    decreases |words|
  {
    hide ReadWord, Be, Pow256, At;
    Widths();
    if words == [] {
      assert read + words == read;
    } else {
      AtSplit(b, at, Be(words[0], 4), WordsBytes(words[1..]));
      GetWord(b, at, words[0], 4);
      GetWords(b, at + 4, words[1..], read + [words[0]]);
      assert read + [words[0]] + words[1..] == read + words;
    }
  }

  function LoadedEntry(e: Entry, widen: nat -> nat): Keyed {
    Keyed(e.key, Node(e.vector, AddPairs(map[], e.meta, widen)))
  }

  /** Where the parts of an entry stand. */
  lemma EntryParts(b: Bytes, at: nat, e: Entry, widen: nat -> nat)
    requires At(b, at, EntryBytes(e, widen))
    ensures var n := |WordsBytes(e.vector)|;
            At(b, at, Be(e.key, 8)) && At(b, at + 8, Be(|e.vector|, 4)) && At(b, at + 12, WordsBytes(e.vector))
            && At(b, at + 12 + n, Be(|e.meta|, 4)) && At(b, at + 16 + n, PairsBytes(e.meta, widen))
            && |EntryBytes(e, widen)| == 16 + n + |PairsBytes(e.meta, widen)|
  {
    hide Be, WordsBytes, PairsBytes, At;
    var words, pairs := WordsBytes(e.vector), PairsBytes(e.meta, widen);
    AtSplit(b, at, Be(e.key, 8) + Be(|e.vector|, 4) + words + Be(|e.meta|, 4), pairs);
    AtSplit(b, at, Be(e.key, 8) + Be(|e.vector|, 4) + words, Be(|e.meta|, 4));
    AtSplit(b, at, Be(e.key, 8) + Be(|e.vector|, 4), words);
    AtSplit(b, at, Be(e.key, 8), Be(|e.vector|, 4));
  }

  lemma GetEntry(b: Bytes, at: nat, e: Entry, widen: nat -> nat)
    requires At(b, at, EntryBytes(e, widen)) && EntryFits(e)
    ensures ReadEntry(b, at) == Got(LoadedEntry(e, widen), at + |EntryBytes(e, widen)|)
  {
    hide ReadWord, ReadWords, ReadPairs, Be, Pow256, WordsBytes, PairsBytes, At, EntryBytes, AddPairs, PairFits;
    Widths();
    EntryParts(b, at, e, widen);
    var n := |WordsBytes(e.vector)|;
    GetWord(b, at, e.key, 8);
    GetWord(b, at + 8, |e.vector|, 4);
    GetWords(b, at + 12, e.vector, []);
    assert [] + e.vector == e.vector;
    GetWord(b, at + 12 + n, |e.meta|, 4);
    GetPairs(b, at + 16 + n, e.meta, map[], widen);
  }

  function AddEntries(m: Shard, es: seq<Entry>, widen: nat -> nat): Shard
    decreases |es|
  {
    if es == [] then m else AddEntries(m[es[0].key := LoadedEntry(es[0], widen).node], es[1..], widen)
  }

  lemma {:induction false} GetEntries(b: Bytes, at: nat, es: seq<Entry>, m: Shard, widen: nat -> nat)
    requires At(b, at, EntriesBytes(es, widen)) && forall i :: 0 <= i < |es| ==> EntryFits(es[i])
    ensures ReadEntries(b, at, |es|, m) == Got(AddEntries(m, es, widen), at + |EntriesBytes(es, widen)|)
    decreases |es|
  {
    hide ReadEntry, EntryBytes, EntryFits, LoadedEntry, At;
    if es != [] {
      var first := EntryBytes(es[0], widen);
      AtSplit(b, at, first, EntriesBytes(es[1..], widen));
      GetEntry(b, at, es[0], widen);
      LoadedKey(es[0], widen);
      GetEntries(b, at + |first|, es[1..], m[es[0].key := LoadedEntry(es[0], widen).node], widen);
    }
  }

  lemma LoadedKey(e: Entry, widen: nat -> nat)
    ensures LoadedEntry(e, widen).key == e.key
  {
  }

  lemma GetShard(b: Bytes, at: nat, es: seq<Entry>, widen: nat -> nat)
    requires At(b, at, ShardBytes(es, widen)) && EntriesFit(es)
    ensures ReadShard(b, at) == Got(AddEntries(map[], es, widen), at + |ShardBytes(es, widen)|)
  {
    hide ReadWord, ReadEntries, Be, Pow256, EntriesBytes, At, EntryFits;
    Widths();
    AtSplit(b, at, Be(|es|, 8), EntriesBytes(es, widen));
    GetWord(b, at, |es|, 8);
    GetEntries(b, at + 8, es, map[], widen);
  }

  function LoadedShards(lists: seq<seq<Entry>>, widen: nat -> nat): seq<Shard> {
    seq(|lists|, i requires 0 <= i < |lists| => AddEntries(map[], lists[i], widen))
  }

  lemma {:induction false} GetShards(b: Bytes, at: nat, lists: seq<seq<Entry>>, read: seq<Shard>, widen: nat -> nat)
    requires At(b, at, ShardsBytes(lists, widen)) && forall i :: 0 <= i < |lists| ==> EntriesFit(lists[i])
    ensures ReadShards(b, at, |lists|, read) == Got(read + LoadedShards(lists, widen), at + |ShardsBytes(lists, widen)|)
    decreases |lists|
  {
    hide ReadShard, ShardBytes, EntriesFit, AddEntries, At;
    if lists == [] {
      assert read + LoadedShards(lists, widen) == read;
    } else {
      var first := ShardBytes(lists[0], widen);
      AtSplit(b, at, first, ShardsBytes(lists[1..], widen));
      GetShard(b, at, lists[0], widen);
      GetShards(b, at + |first|, lists[1..], read + [AddEntries(map[], lists[0], widen)], widen);
      assert read + [AddEntries(map[], lists[0], widen)] + LoadedShards(lists[1..], widen) == read + LoadedShards(lists, widen);
    }
  }

  // ---------- lists of maps ----------

  ghost predicate DistinctKeys(meta: seq<Pair>) {
    forall i, j :: 0 <= i < j < |meta| ==> meta[i].key != meta[j].key
  }

  /** The pairs of a metadata map, each once, in some order. */
  ghost predicate ListsMeta(meta: seq<Pair>, m: map<Bytes, Value>) {
    DistinctKeys(meta) && KeysOf(meta) == m.Keys
    && forall i :: 0 <= i < |meta| ==> meta[i].key in m && m[meta[i].key] == meta[i].value
  }

  function LoadedMeta(m: map<Bytes, Value>, widen: nat -> nat): map<Bytes, Value> {
    map k | k in m :: Loaded(m[k], widen)
  }

  ghost function KeysOf(meta: seq<Pair>): set<Bytes> {
    set i | 0 <= i < |meta| :: meta[i].key
  }

  lemma KeysOfCons(meta: seq<Pair>)
    requires meta != []
    ensures KeysOf(meta) == KeysOf(meta[1..]) + {meta[0].key}
  {
    var rest := meta[1..];
    forall k | k in KeysOf(meta)
      ensures k == meta[0].key || k in KeysOf(rest)
    {
      var i :| 0 <= i < |meta| && meta[i].key == k;
      assert i > 0 ==> rest[i - 1].key == k;
    }
    forall k | k in KeysOf(rest)
      ensures k in KeysOf(meta)
    {
      var i :| 0 <= i < |rest| && rest[i].key == k;
      assert meta[i + 1].key == k;
    }
  }

  /** Filling a map with pairs of distinct keys binds each of them, and other keys stay. */
  lemma {:induction false} AddPairsAt(m: map<Bytes, Value>, meta: seq<Pair>, widen: nat -> nat)
    requires DistinctKeys(meta)
    ensures AddPairs(m, meta, widen).Keys == m.Keys + KeysOf(meta)
    ensures forall i :: 0 <= i < |meta| ==> AddPairs(m, meta, widen)[meta[i].key] == Loaded(meta[i].value, widen)
    ensures forall k :: k in m && k !in KeysOf(meta) ==> AddPairs(m, meta, widen)[k] == m[k]
    decreases |meta|
  {
    if meta != [] {
      var m', rest := m[meta[0].key := Loaded(meta[0].value, widen)], meta[1..];
      assert forall i :: 0 <= i < |rest| ==> rest[i] == meta[i + 1];
      KeysOfCons(meta);
      AddPairsAt(m', rest, widen);
      assert meta[0].key !in KeysOf(rest);
      assert forall i :: 0 < i < |meta| ==> meta[i] == rest[i - 1];
    }
  }

  lemma MetaReadBack(meta: seq<Pair>, m: map<Bytes, Value>, widen: nat -> nat)
    requires ListsMeta(meta, m)
    ensures AddPairs(map[], meta, widen) == LoadedMeta(m, widen)
  {
    AddPairsAt(map[], meta, widen);
  }

  ghost function NodeKeys(es: seq<Entry>): set<nat> {
    set i | 0 <= i < |es| :: es[i].key
  }

  ghost predicate DistinctEntries(es: seq<Entry>) {
    forall i, j :: 0 <= i < j < |es| ==> es[i].key != es[j].key
  }

  /** The vertices of a shard, each once, in some order, each with its metadata in some order. */
  ghost predicate ListsShard(es: seq<Entry>, shard: Shard) {
    DistinctEntries(es) && NodeKeys(es) == shard.Keys
    && forall i :: 0 <= i < |es| ==> es[i].key in shard && ListsNode(es[i], shard[es[i].key])
  }

  ghost predicate ListsNode(e: Entry, node: Node) {
    e.vector == node.vector && ListsMeta(e.meta, node.metadata)
  }

  function LoadedNode(node: Node, widen: nat -> nat): Node {
    Node(node.vector, LoadedMeta(node.metadata, widen))
  }

  /** A shard as it comes back: 32-bit float metadata as 64-bit. */
  function LoadedShard(shard: Shard, widen: nat -> nat): Shard {
    map k | k in shard :: LoadedNode(shard[k], widen)
  }

  lemma NodeKeysCons(es: seq<Entry>)
    requires es != []
    ensures NodeKeys(es) == NodeKeys(es[1..]) + {es[0].key}
  {
    var rest := es[1..];
    forall k | k in NodeKeys(es)
      ensures k == es[0].key || k in NodeKeys(rest)
    {
      var i :| 0 <= i < |es| && es[i].key == k;
      assert i > 0 ==> rest[i - 1].key == k;
    }
    forall k | k in NodeKeys(rest)
      ensures k in NodeKeys(es)
    {
      var i :| 0 <= i < |rest| && rest[i].key == k;
      assert es[i + 1].key == k;
    }
  }

  lemma {:induction false} AddEntriesAt(m: Shard, es: seq<Entry>, widen: nat -> nat)
    requires DistinctEntries(es)
    ensures AddEntries(m, es, widen).Keys == m.Keys + NodeKeys(es)
    ensures forall i :: 0 <= i < |es| ==> AddEntries(m, es, widen)[es[i].key] == LoadedEntry(es[i], widen).node
    ensures forall k :: k in m && k !in NodeKeys(es) ==> AddEntries(m, es, widen)[k] == m[k]
    decreases |es|
  {
    hide LoadedEntry;
    if es != [] {
      var m', rest := m[es[0].key := LoadedEntry(es[0], widen).node], es[1..];
      assert forall i :: 0 <= i < |rest| ==> rest[i] == es[i + 1];
      NodeKeysCons(es);
      AddEntriesAt(m', rest, widen);
      assert es[0].key !in NodeKeys(rest);
      assert forall i :: 0 < i < |es| ==> es[i] == rest[i - 1];
    }
  }

  lemma ShardReadBack(es: seq<Entry>, shard: Shard, widen: nat -> nat)
    requires ListsShard(es, shard)
    ensures AddEntries(map[], es, widen) == LoadedShard(shard, widen)
  {
    hide ListsMeta, AddPairs, LoadedMeta;
    AddEntriesAt(map[], es, widen);
    forall k | k in shard
      ensures AddEntries(map[], es, widen)[k] == LoadedNode(shard[k], widen)
    {
      assert k in NodeKeys(es);
      var i :| 0 <= i < |es| && es[i].key == k;
      assert ListsNode(es[i], shard[k]);
      MetaReadBack(es[i].meta, shard[k].metadata, widen);
    }
  }

  // ---------- the round trip and the prefix property ----------

  ghost predicate ListsShards(lists: seq<seq<Entry>>, shards: seq<Shard>) {
    |lists| == |shards| && forall i :: 0 <= i < |lists| ==> ListsShard(lists[i], shards[i]) && EntriesFit(lists[i])
  }

  function LoadedAll(shards: seq<Shard>, widen: nat -> nat): seq<Shard> {
    seq(|shards|, i requires 0 <= i < |shards| => LoadedShard(shards[i], widen))
  }

  /** For every order in which the maps were iterated: reading the saved bytes gives the stored
      shards again, with 32-bit float metadata widened, and stops exactly at their end. */
  lemma LoadUndoesSave(lists: seq<seq<Entry>>, shards: seq<Shard>, rest: Bytes, widen: nat -> nat)
    requires ListsShards(lists, shards)
    ensures ReadShards(ShardsBytes(lists, widen) + rest, 0, |shards|, [])
         == Got(LoadedAll(shards, widen), |ShardsBytes(lists, widen)|)
  {
    hide ListsShard, EntriesFit, AddEntries, LoadedShard;
    var bytes := ShardsBytes(lists, widen);
    assert At(bytes + rest, 0, bytes);
    GetShards(bytes + rest, 0, lists, [], widen);
    forall i | 0 <= i < |lists|
      ensures AddEntries(map[], lists[i], widen) == LoadedShard(shards[i], widen)
    {
      ShardReadBack(lists[i], shards[i], widen);
    }
    assert [] + LoadedShards(lists, widen) == LoadedAll(shards, widen);
  }

  /** The format is prefix-free: no strict prefix of what was saved can be read. */
  lemma PrefixesFail(lists: seq<seq<Entry>>, shards: seq<Shard>, n: nat, widen: nat -> nat)
    requires ListsShards(lists, shards) && n < |ShardsBytes(lists, widen)|
    ensures ReadShards(ShardsBytes(lists, widen)[..n], 0, |shards|, []) == Fail
  {
    hide ReadShards, ShardsBytes, ListsShards;
    var bytes := ShardsBytes(lists, widen);
    LoadUndoesSave(lists, shards, [], widen);
    assert bytes + [] == bytes == bytes[..n] + bytes[n..];
    ShardsStable(bytes[..n], bytes[n..], 0, |shards|, []);
  }
}
