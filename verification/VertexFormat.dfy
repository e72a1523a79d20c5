/** The byte format of stored vertices, in whatever order their maps are iterated, and what a reader makes of any bytes. */
module VertexFormat {
  import opened Common

  // ---------- what is stored ----------

  /** A metadata value; floats are their bit patterns. `Other` is any type the format lacks. */
  datatype Value = Int(n: int) | Str(s: Bytes) | Float32(bits: nat) | Float64(bits: nat) | Bool(b: bool) | Other

  /** A vertex: the bit patterns of its vector and its metadata. */
  datatype Node = Node(vector: seq<nat>, metadata: map<Bytes, Value>)

  /** One metadata entry, one vertex entry, as they follow each other in the bytes. */
  datatype Pair = Pair(key: Bytes, value: Value)
  datatype Entry = Entry(key: nat, vector: seq<nat>, meta: seq<Pair>)

  // ---------- big-endian words ----------

  function Pow256(n: nat): (p: nat)
    ensures p >= 1
  {
    if n == 0 then 1 else 256 * Pow256(n - 1)
  }

  function Be(x: nat, n: nat): (b: Bytes)
    ensures |b| == n
  {
    if n == 0 then [] else Be(x / 256, n - 1) + [x % 256]
  }

  function FromBe(b: Bytes): (x: nat)
  {
    if b == [] then 0 else 256 * FromBe(b[..|b| - 1]) + b[|b| - 1]
  }

  lemma {:induction false} FromBeUndoes(x: nat, n: nat)
    requires x < Pow256(n)
    ensures FromBe(Be(x, n)) == x
  {
    if n > 0 {
      FromBeUndoes(x / 256, n - 1);
      assert Be(x, n)[..n - 1] == Be(x / 256, n - 1);
    }
  }

  lemma Widths()
    ensures Pow256(2) == TWO16 && Pow256(4) == TWO32 && Pow256(8) == TWO64
  {
    assert Pow256(2) == 256 * Pow256(1);
    assert Pow256(4) == 256 * Pow256(3) == 256 * (256 * Pow256(2));
    assert Pow256(8) == 256 * Pow256(7) == 256 * (256 * Pow256(6)) == 256 * (256 * (256 * (256 * Pow256(4))));
  }

  // ---------- writing ----------

  /** Values in the ranges of their types. */
  predicate ValueTyped(v: Value) {
    match v
    case Int(n) => -TWO63 <= n < TWO63
    case Float32(w) => w < TWO32
    case Float64(w) => w < TWO64
    case _ => true
  }

  /** What can be written: supported types and short strings. */
  predicate ValueSupported(v: Value) {
    match v
    case Str(s) => |s| < TWO16
    case Other => false
    case _ => true
  }

  predicate PairFits(p: Pair) {
    |p.key| < TWO16 && ValueTyped(p.value) && ValueSupported(p.value)
  }

  /** `float64(v)` on bit patterns, a 64-bit word. */
  function Widened(bits: nat, widen: nat -> nat): (w: nat)
    ensures w < TWO64
  {
    widen(bits) % TWO64
  }

  /** The tag byte of a value's type. */
  function Tag(v: Value): Byte {
    match v
    case Int(_) => 0
    case Str(_) => 1
    case Float32(_) => 2
    case Float64(_) => 2
    case Bool(_) => 3
    case Other => 255
  }

  function Body(v: Value, widen: nat -> nat): Bytes {
    match v
    case Int(n) => Be(n % TWO64, 8)
    case Str(s) => StringBytes(s)
    case Float32(w) => Be(Widened(w, widen), 8)
    case Float64(w) => Be(w, 8)
    case Bool(b) => [if b then 1 else 0]
    case Other => []
  }

  function ValueBytes(v: Value, widen: nat -> nat): Bytes {
    [Tag(v)] + Body(v, widen)
  }

  function StringBytes(s: Bytes): Bytes {
    Be(|s|, 2) + s
  }

  function PairBytes(p: Pair, widen: nat -> nat): Bytes {
    StringBytes(p.key) + ValueBytes(p.value, widen)
  }

  function PairsBytes(meta: seq<Pair>, widen: nat -> nat): Bytes {
    if meta == [] then [] else PairBytes(meta[0], widen) + PairsBytes(meta[1..], widen)
  }

  function WordsBytes(words: seq<nat>): Bytes {
    if words == [] then [] else Be(words[0], 4) + WordsBytes(words[1..])
  }

  function EntryBytes(e: Entry, widen: nat -> nat): Bytes {
    Be(e.key, 8) + Be(|e.vector|, 4) + WordsBytes(e.vector) + Be(|e.meta|, 4) + PairsBytes(e.meta, widen)
  }

  function EntriesBytes(es: seq<Entry>, widen: nat -> nat): Bytes {
    if es == [] then [] else EntryBytes(es[0], widen) + EntriesBytes(es[1..], widen)
  }

  function ShardBytes(es: seq<Entry>, widen: nat -> nat): Bytes {
    Be(|es|, 8) + EntriesBytes(es, widen)
  }

  function ShardsBytes(shards: seq<seq<Entry>>, widen: nat -> nat): Bytes {
    if shards == [] then [] else ShardBytes(shards[0], widen) + ShardsBytes(shards[1..], widen)
  }

  ghost predicate MetaFits(meta: seq<Pair>) {
    |meta| < TWO32 && forall i :: 0 <= i < |meta| ==> PairFits(meta[i])
  }

  ghost predicate EntryFits(e: Entry) {
    e.key < TWO64 && |e.vector| < TWO32 && (forall i :: 0 <= i < |e.vector| ==> e.vector[i] < TWO32) && MetaFits(e.meta)
  }

  ghost predicate EntriesFit(es: seq<Entry>) {
    |es| < TWO64 && forall i :: 0 <= i < |es| ==> EntryFits(es[i])
  }

  // ---------- reading ----------

  /** The result of reading from a position: a value and where the reader now stands. */
  datatype Read<T> = Fail | Got(value: T, at: nat)

  function ReadWord(b: Bytes, at: nat, n: nat): Read<nat> {
    if at + n <= |b| then Got(FromBe(b[at..at + n]), at + n) else Fail
  }

  function ReadRaw(b: Bytes, at: nat, n: nat): Read<Bytes> {
    if at + n <= |b| then Got(b[at..at + n], at + n) else Fail
  }

  function Signed(w: nat): int {
    if w < TWO63 then w else w - TWO64
  }

  function ReadString(b: Bytes, at: nat): Read<Bytes> {
    match ReadWord(b, at, 2)
    case Fail => Fail
    case Got(n, at1) => ReadRaw(b, at1, n)
  }

  function ReadBody(b: Bytes, at: nat, typ: nat): Read<Value> {
    if typ == 0 then
      match ReadWord(b, at, 8)
      case Fail => Fail
      case Got(w, at1) => Got(Int(Signed(w)), at1)
    else if typ == 1 then
      match ReadString(b, at)
      case Fail => Fail
      case Got(s, at1) => Got(Str(s), at1)
    else if typ == 2 then
      match ReadWord(b, at, 8)
      case Fail => Fail
      case Got(w, at1) => Got(Float64(w), at1)
    else if typ == 3 then
      match ReadWord(b, at, 1)
      case Fail => Fail
      case Got(w, at1) => Got(Bool(w != 0), at1)
    else Fail
  }

  function ReadValue(b: Bytes, at: nat): Read<Value> {
    match ReadWord(b, at, 1)
    case Fail => Fail
    case Got(typ, at1) => ReadBody(b, at1, typ)
  }

  function ReadPair(b: Bytes, at: nat): Read<Pair> {
    match ReadString(b, at)
    case Fail => Fail
    case Got(key, at1) =>
      match ReadValue(b, at1)
      case Fail => Fail
      case Got(v, at2) => Got(Pair(key, v), at2)
  }

  function ReadPairs(b: Bytes, at: nat, count: nat, m: map<Bytes, Value>): Read<map<Bytes, Value>>
    decreases count
  {
    if count == 0 then Got(m, at)
    else
      match ReadPair(b, at)
      case Fail => Fail
      case Got(p, at1) => ReadPairs(b, at1, count - 1, m[p.key := p.value])
  }

  function ReadWords(b: Bytes, at: nat, count: nat, words: seq<nat>): Read<seq<nat>>
    decreases count
  {
    if count == 0 then Got(words, at)
    else
      match ReadWord(b, at, 4)
      case Fail => Fail
      case Got(w, at1) => ReadWords(b, at1, count - 1, words + [w])
  }

  datatype Keyed = Keyed(key: nat, node: Node)

  function ReadEntry(b: Bytes, at: nat): Read<Keyed> {
    match ReadWord(b, at, 8)
    case Fail => Fail
    case Got(key, at1) =>
      match ReadWord(b, at1, 4)
      case Fail => Fail
      case Got(n, at2) =>
        match ReadWords(b, at2, n, [])
        case Fail => Fail
        case Got(vector, at3) =>
          match ReadWord(b, at3, 4)
          case Fail => Fail
          case Got(count, at4) =>
            match ReadPairs(b, at4, count, map[])
            case Fail => Fail
            case Got(meta, at5) => Got(Keyed(key, Node(vector, meta)), at5)
  }

  type Shard = map<nat, Node>

  function ReadEntries(b: Bytes, at: nat, count: nat, m: Shard): Read<Shard>
    decreases count
  {
    if count == 0 then Got(m, at)
    else
      match ReadEntry(b, at)
      case Fail => Fail
      case Got(e, at1) => ReadEntries(b, at1, count - 1, m[e.key := e.node])
  }

  function ReadShard(b: Bytes, at: nat): Read<Shard> {
    match ReadWord(b, at, 8)
    case Fail => Fail
    case Got(count, at1) => ReadEntries(b, at1, count, map[])
  }

  function ReadShards(b: Bytes, at: nat, count: nat, shards: seq<Shard>): Read<seq<Shard>>
    decreases count
  {
    if count == 0 then Got(shards, at)
    else
      match ReadShard(b, at)
      case Fail => Fail
      case Got(m, at1) => ReadShards(b, at1, count - 1, shards + [m])
  }

  // ---------- a successful read needs no more than it read ----------

  /** Reading succeeds the same way when more bytes follow, and never runs past the end. */
  ghost predicate Stable<T>(short: Read<T>, long: Read<T>, n: nat) {
    short.Got? ==> long == short && short.at <= n
  }

  lemma WordStable(a: Bytes, c: Bytes, at: nat, n: nat)
    ensures Stable(ReadWord(a, at, n), ReadWord(a + c, at, n), |a|)
    ensures Stable(ReadRaw(a, at, n), ReadRaw(a + c, at, n), |a|)
  {
    if at + n <= |a| {
      assert (a + c)[at..at + n] == a[at..at + n];
    }
  }

  lemma StringStable(a: Bytes, c: Bytes, at: nat)
    ensures Stable(ReadString(a, at), ReadString(a + c, at), |a|)
  {
    hide FromBe;
    WordStable(a, c, at, 2);
    if ReadWord(a, at, 2).Got? {
      WordStable(a, c, at + 2, ReadWord(a, at, 2).value);
    }
  }

  lemma BodyStable(a: Bytes, c: Bytes, at: nat, typ: nat)
    ensures Stable(ReadBody(a, at, typ), ReadBody(a + c, at, typ), |a|)
  {
    hide ReadWord, ReadString;
    WordStable(a, c, at, 8);
    WordStable(a, c, at, 1);
    StringStable(a, c, at);
  }

  lemma ValueStable(a: Bytes, c: Bytes, at: nat)
    ensures Stable(ReadValue(a, at), ReadValue(a + c, at), |a|)
  {
    hide ReadWord, ReadBody;
    WordStable(a, c, at, 1);
    var typ := ReadWord(a, at, 1);
    if typ.Got? {
      BodyStable(a, c, typ.at, typ.value);
    }
  }

  lemma PairStable(a: Bytes, c: Bytes, at: nat)
    ensures Stable(ReadPair(a, at), ReadPair(a + c, at), |a|)
  {
    hide ReadString, ReadValue;
    StringStable(a, c, at);
    var key := ReadString(a, at);
    if key.Got? {
      ValueStable(a, c, key.at);
    }
  }

  lemma {:induction false} PairsStable(a: Bytes, c: Bytes, at: nat, count: nat, m: map<Bytes, Value>)
    requires at <= |a|
    ensures Stable(ReadPairs(a, at, count, m), ReadPairs(a + c, at, count, m), |a|)
    decreases count
  {
    hide ReadPair;
    if count > 0 {
      PairStable(a, c, at);
      var r := ReadPair(a, at);
      if r.Got? {
        PairsStable(a, c, r.at, count - 1, m[r.value.key := r.value.value]);
      }
    }
  }

  lemma {:induction false} WordsStable(a: Bytes, c: Bytes, at: nat, count: nat, words: seq<nat>)
    requires at <= |a|
    ensures Stable(ReadWords(a, at, count, words), ReadWords(a + c, at, count, words), |a|)
    decreases count
  {
    hide ReadWord;
    if count > 0 {
      WordStable(a, c, at, 4);
      var r := ReadWord(a, at, 4);
      if r.Got? {
        WordsStable(a, c, r.at, count - 1, words + [r.value]);
      }
    }
  }

  lemma EntryStable(a: Bytes, c: Bytes, at: nat)
    ensures Stable(ReadEntry(a, at), ReadEntry(a + c, at), |a|)
  {
    hide ReadWord, ReadWords, ReadPairs;
    WordStable(a, c, at, 8);
    var key := ReadWord(a, at, 8);
    if key.Got? {
      WordStable(a, c, key.at, 4);
      var n := ReadWord(a, key.at, 4);
      if n.Got? {
        WordsStable(a, c, n.at, n.value, []);
        var vector := ReadWords(a, n.at, n.value, []);
        if vector.Got? {
          WordStable(a, c, vector.at, 4);
          var count := ReadWord(a, vector.at, 4);
          if count.Got? {
            PairsStable(a, c, count.at, count.value, map[]);
          }
        }
      }
    }
  }

  lemma {:induction false} EntriesStable(a: Bytes, c: Bytes, at: nat, count: nat, m: Shard)
    requires at <= |a|
    ensures Stable(ReadEntries(a, at, count, m), ReadEntries(a + c, at, count, m), |a|)
    decreases count
  {
    hide ReadEntry;
    if count > 0 {
      EntryStable(a, c, at);
      var r := ReadEntry(a, at);
      if r.Got? {
        EntriesStable(a, c, r.at, count - 1, m[r.value.key := r.value.node]);
      }
    }
  }

  lemma ShardStable(a: Bytes, c: Bytes, at: nat)
    ensures Stable(ReadShard(a, at), ReadShard(a + c, at), |a|)
  {
    hide ReadWord, ReadEntries;
    WordStable(a, c, at, 8);
    var count := ReadWord(a, at, 8);
    if count.Got? {
      EntriesStable(a, c, count.at, count.value, map[]);
    }
  }

  lemma {:induction false} ShardsStable(a: Bytes, c: Bytes, at: nat, count: nat, shards: seq<Shard>)
    requires at <= |a|
    ensures Stable(ReadShards(a, at, count, shards), ReadShards(a + c, at, count, shards), |a|)
    decreases count
  {
    hide ReadShard;
    if count > 0 {
      ShardStable(a, c, at);
      var r := ReadShard(a, at);
      if r.Got? {
        ShardsStable(a, c, r.at, count - 1, shards + [r.value]);
      }
    }
  }
}
