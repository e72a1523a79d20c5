/** The bytes of small entries of every stored format, one by one: log records and hints, vertices, HNSW snapshots with header. */
module Layouts {
  import opened Common
  import D = DiskvLog
  import opened ListCodec
  import opened VertexFormat
  import opened NamedCodec
  import opened HnswFormat
  import HnswHeader
  import DiskvRecords

  // ---------- words ----------

  /** Any bytes are the big-endian form of the number they stand for. */
  lemma {:induction false} BigEndian(b: Bytes)
    ensures FromBe(b) < Pow256(|b|) && Be(FromBe(b), |b|) == b
  {
    if b != [] {
      var front, last := b[..|b| - 1], b[|b| - 1];
      BigEndian(front);
      assert b == front + [last];
      assert FromBe(b) / 256 == FromBe(front) && FromBe(b) % 256 == last;
    }
  }

  lemma SmallWord(x: nat)
    requires x < 0x100
    ensures Be(x, 1) == [x] && Be(x, 2) == [0, x] && Be(x, 4) == [0, 0, 0, x]
  {
    assert Be(x, 1) == Be(0, 0) + [x];
    assert Be(0, 1) == Be(0, 0) + [0];
    assert Be(0, 2) == Be(0, 1) + [0];
    assert Be(0, 3) == Be(0, 2) + [0];
  }

  lemma TwoBytes(x: nat)
    requires x < TWO16
    ensures Be(x, 2) == [x / 256, x % 256]
  {
    assert Be(x / 256, 1) == Be(0, 0) + [x / 256];
  }

  /** A signed 64-bit number has the eight bytes of its two's complement. */
  lemma SignedWord(w: Bytes)
    requires |w| == 8
    ensures Be(Signed(FromBe(w)) % TWO64, 8) == w && -TWO63 <= Signed(FromBe(w)) < TWO63
  {
    hide Be, FromBe;
    BigEndian(w);
    Widths();
  }

  // ---------- vertices ----------

  /** The tag and the body of each type of value. */
  lemma ValueLayout(w: Bytes, s: Bytes, bits: nat, widen: nat -> nat)
    requires |w| == 8 && |s| < TWO16 && widen(bits) == FromBe(w)
    ensures ValueBytes(Int(Signed(FromBe(w))), widen) == [0] + w
    ensures ValueBytes(Str(s), widen) == [1, |s| / 256, |s| % 256] + s
    ensures ValueBytes(Float64(FromBe(w)), widen) == [2] + w
    ensures ValueBytes(Float32(bits), widen) == [2] + w
    ensures ValueBytes(Bool(false), widen) == [3, 0] && ValueBytes(Bool(true), widen) == [3, 1]
  {
    hide Be, FromBe, Signed, Widened;
    SignedWord(w);
    BigEndian(w);
    TwoBytes(|s|);
    WidenedWord(bits, w, widen);
    assert [1] + ([|s| / 256, |s| % 256] + s) == [1, |s| / 256, |s| % 256] + s;
  }

  lemma WidenedWord(bits: nat, w: Bytes, widen: nat -> nat)
    requires |w| == 8 && widen(bits) == FromBe(w)
    ensures Be(Widened(bits, widen), 8) == w
  {
    hide Be, FromBe;
    BigEndian(w);
    Widths();
  }

  /** What each tag reads, and that no other tag reads. */
  lemma TagsRead(b: Bytes, at: nat)
    requires at < |b|
    ensures b[at] == 0 && at + 9 <= |b| ==> ReadValue(b, at) == Got(Int(Signed(FromBe(b[at + 1..at + 9]))), at + 9)
    ensures b[at] == 1 && at + 3 <= |b| ==>
              var n := 256 * (b[at + 1] as nat) + b[at + 2] as nat;
              ReadValue(b, at) == if at + 3 + n <= |b| then Got(Str(b[at + 3..at + 3 + n]), at + 3 + n) else Fail
    ensures b[at] == 2 && at + 9 <= |b| ==> ReadValue(b, at) == Got(Float64(FromBe(b[at + 1..at + 9])), at + 9)
    ensures b[at] == 3 && at + 2 <= |b| ==> ReadValue(b, at) == Got(Bool(b[at + 1] != 0), at + 2)
    ensures b[at] > 3 ==> ReadValue(b, at) == Fail
  {
    OneByte(b, at);
    if at + 1 < |b| {
      OneByte(b, at + 1);
    }
    if at + 3 <= |b| {
      TwoRead(b[at + 1..at + 3]);
    }
  }

  lemma OneByte(b: Bytes, at: nat)
    requires at < |b|
    ensures ReadWord(b, at, 1) == Got(b[at], at + 1)
  {
    assert b[at..at + 1] == [b[at]];
    assert FromBe([b[at]]) == 256 * FromBe([b[at]][..0]) + b[at];
  }

  lemma TwoRead(b: Bytes)
    requires |b| == 2
    ensures FromBe(b) == 256 * (b[0] as nat) + b[1] as nat
  {
    assert FromBe(b) == 256 * FromBe(b[..1]) + b[1];
    assert FromBe(b[..1]) == 256 * FromBe(b[..1][..0]) + b[0];
  }

  /** A vertex with one component and one metadata value. */
  lemma EntryLayout(key: Bytes, x: Bytes, a: Byte, v: VertexFormat.Value, widen: nat -> nat)
    requires |key| == 8 && |x| == 4
    ensures EntryBytes(Entry(FromBe(key), [FromBe(x)], [Pair([a], v)]), widen)
         == key + [0, 0, 0, 1] + x + [0, 0, 0, 1] + [0, 1, a] + ValueBytes(v, widen)
  {
    hide Be, FromBe, ValueBytes;
    BigEndian(key);
    BigEndian(x);
    SmallWord(1);
    var p := Pair([a], v);
    assert WordsBytes([FromBe(x)]) == Be(FromBe(x), 4) + WordsBytes([]);
    assert PairsBytes([p], widen) == PairBytes(p, widen) + PairsBytes([], widen);
  }

  /** A vertex with one named vector of one component and one integer as metadata. */
  lemma NamedEntryLayout(key: Byte, name: Byte, x: Bytes, a: Byte, w: Bytes)
    requires |x| == 4 && |w| == 8
    ensures NamedEntryBytes(NamedEntry([key], [VectorEntry([name], [FromBe(x)])], [Pair([a], Int(Signed(FromBe(w))))]))
         == [0, 1, key, 0, 0, 0, 1, 0, 1, name, 0, 0, 0, 1] + x + [0, 0, 0, 1, 0, 1, a, 0] + w
  {
    hide Be, FromBe, Signed, Cat;
    BigEndian(x);
    SignedWord(w);
    SmallWord(1);
    var v, p := VectorEntry([name], [FromBe(x)]), Pair([a], Int(Signed(FromBe(w))));
    assert WordsBytes([FromBe(x)]) == Be(FromBe(x), 4) + WordsBytes([]);
    OneWritten(VectorBytes, v);
    OneWritten(MetaBytes, p);
  }

  /** A shard is its length in eight bytes and its vertices; so is one of vertices with named vectors. */
  lemma ShardLayout(e: Entry, n: NamedEntry, widen: nat -> nat)
    ensures ShardBytes([], widen) == NamedShardBytes([]) == [0, 0, 0, 0, 0, 0, 0, 0]
    ensures ShardBytes([e], widen) == [0, 0, 0, 0, 0, 0, 0, 1] + EntryBytes(e, widen)
    ensures NamedShardBytes([n]) == [0, 0, 0, 0, 0, 0, 0, 1] + NamedEntryBytes(n)
  {
    hide Be, EntryBytes, NamedEntryBytes, Cat;
    EightBytes(0);
    EightBytes(1);
    NothingWritten(NamedEntryBytes);
    OneWritten(NamedEntryBytes, n);
    assert EntriesBytes([e], widen) == EntryBytes(e, widen) + EntriesBytes([], widen);
  }

  lemma EightBytes(x: nat)
    requires x < 0x100
    ensures Be(x, 8) == [0, 0, 0, 0, 0, 0, 0, x]
  {
    SmallWord(0);
    assert Be(0, 5) == Be(0, 4) + [0];
    assert Be(0, 6) == Be(0, 5) + [0];
    assert Be(0, 7) == Be(0, 6) + [0];
    assert Be(x, 8) == Be(0, 7) + [x];
  }

  // ---------- HNSW snapshots ----------

  /** A vertex of the first pass, with one component and one metadata value of one byte. */
  lemma VertexLayout(id: Bytes, level: Byte, x: Bytes, a: Byte, c: Byte)
    requires |id| == 8 && |x| == 4
    ensures VertexBytes(VertexEntry(FromBe(id), level, [FromBe(x)], [Field([a], [c])]))
         == id + [0, 0, 0, level] + x + [0, 1, 1, a, 0, 1, c]
  {
    hide Be, FromBe, Cat;
    BigEndian(id);
    BigEndian(x);
    SmallWord(1);
    SmallWord(level);
    var f := Field([a], [c]);
    assert WordsBytes([FromBe(x)]) == Be(FromBe(x), 4) + WordsBytes([]);
    OneWritten(FieldBytes, f);
  }

  /** A vertex of the second pass on level 1: its one edge there first, then none on level 0. */
  lemma EdgeLayout(id: Bytes, to: Bytes, weight: Bytes)
    requires |id| == 8 && |to| == 8 && |weight| == 4
    ensures EdgeBytes(EdgeEntry(FromBe(id), [[Link(FromBe(to), FromBe(weight))], []]))
         == id + [0, 0, 0, 1] + to + weight + [0, 0, 0, 0]
  {
    hide Be, FromBe, Cat;
    BigEndian(id);
    BigEndian(to);
    BigEndian(weight);
    SmallWord(0);
    SmallWord(1);
    var x := Link(FromBe(to), FromBe(weight));
    NothingWritten(LinkBytes);
    OneWritten(LinkBytes, x);
    TwoWritten(LevelBytes, [x], []);
  }

  lemma OneWritten<T>(f: T -> Bytes, x: T)
    ensures Cat(f, [x]) == f(x)
  {
    assert [x][1..] == [];
    assert f(x) + [] == f(x);
  }

  lemma TwoWritten<T>(f: T -> Bytes, x: T, y: T)
    ensures Cat(f, [x, y]) == f(x) + f(y)
  {
    OneWritten(f, y);
    assert [x, y][1..] == [y];
  }

  /** The 33 bytes of the header: the algorithm, the multiplier, five limits and the dimension, then the distance's number. */
  lemma HeaderLayout(alg: Bytes, mult: Bytes, ef: Bytes, efc: Bytes, m: Bytes, mMax: Bytes, mMax0: Bytes, dim: Bytes)
    requires |alg| == |mult| == |ef| == |efc| == |m| == |mMax| == |mMax0| == |dim| == 4
    ensures var words := alg + mult + ef + efc + m + mMax + mMax0 + dim;
            var of := (d: HnswHeader.Distance) => HnswHeader.Header(FromBe(alg), FromBe(mult), FromBe(ef), FromBe(efc), FromBe(m),
                                                                    FromBe(mMax), FromBe(mMax0), FromBe(dim), d);
            && HnswHeader.HeaderBytes(of(HnswHeader.CosineDot)) == words + [1]
            && HnswHeader.HeaderBytes(of(HnswHeader.L2Squared)) == words + [2]
            && HnswHeader.HeaderBytes(of(HnswHeader.Manhattan)) == words + [0]
  {
    hide Be, FromBe;
    FourBytes(alg);
    FourBytes(mult);
    FourBytes(ef);
    FourBytes(efc);
    FourBytes(m);
    FourBytes(mMax);
    FourBytes(mMax0);
    FourBytes(dim);
    SmallWord(0);
    SmallWord(1);
    SmallWord(2);
    EightWords(FromBe(alg), FromBe(mult), FromBe(ef), FromBe(efc), FromBe(m), FromBe(mMax), FromBe(mMax0), FromBe(dim));
  }

  lemma FourBytes(b: Bytes)
    requires |b| == 4
    ensures Be(FromBe(b), 4) == b && HnswHeader.Low32(FromBe(b)) == FromBe(b)
  {
    hide Be, FromBe;
    BigEndian(b);
    Widths();
  }

  lemma {:induction false} WordsSnoc(words: seq<nat>, x: nat)
    ensures WordsBytes(words + [x]) == WordsBytes(words) + Be(x, 4)
  {
    hide Be;
    if words == [] {
      assert [x][1..] == [];
    } else {
      WordsSnoc(words[1..], x);
      assert (words + [x])[1..] == words[1..] + [x];
    }
  }

  lemma FourWords(words: seq<nat>, a: nat, b: nat, c: nat, d: nat)
    ensures WordsBytes(words + [a, b, c, d]) == WordsBytes(words) + Be(a, 4) + Be(b, 4) + Be(c, 4) + Be(d, 4)
  {
    hide Be, WordsBytes;
    WordsSnoc(words, a);
    WordsSnoc(words + [a], b);
    WordsSnoc(words + [a] + [b], c);
    WordsSnoc(words + [a] + [b] + [c], d);
    assert words + [a] + [b] + [c] + [d] == words + [a, b, c, d];
  }

  lemma NoWords()
    ensures WordsBytes([]) == []
  {
  }

  lemma EightWords(a: nat, b: nat, c: nat, d: nat, e: nat, f: nat, g: nat, h: nat)
    ensures WordsBytes([a, b, c, d, e, f, g, h]) == Be(a, 4) + Be(b, 4) + Be(c, 4) + Be(d, 4) + Be(e, 4) + Be(f, 4) + Be(g, 4) + Be(h, 4)
  {
    hide *;
    NoWords();
    FourWords([], a, b, c, d);
    FourWords([a, b, c, d], e, f, g, h);
    assert [] + [a, b, c, d] == [a, b, c, d];
    assert [a, b, c, d] + [e, f, g, h] == [a, b, c, d, e, f, g, h];
    assert [] + Be(a, 4) == Be(a, 4);
  }

  // ---------- the log ----------

  /** Records with a batch id of two bytes, a key of one byte and a value of two, with and without an expiry. */
  lemma RecordLayout(k: Byte, v: Byte, w: Byte)
    ensures DiskvRecords.RecordBytes(D.LogRecord([k], [v, w], D.Normal, 300, 0)) == [0, 0xac, 0x02, 2, 4, 0, k, v, w]
    ensures DiskvRecords.RecordBytes(D.LogRecord([k], [], D.Deleted, 300, 0)) == [1, 0xac, 0x02, 2, 0, 0, k]
    ensures DiskvRecords.RecordBytes(D.LogRecord([k], [v], D.Normal, 5, -1)) == [0, 5, 2, 2, 1, k, v]
    ensures DiskvRecords.RecordBytes(D.LogRecord([k], [v], D.BatchFinished, 5, 64)) == [2, 5, 2, 2, 0x80, 0x01, k, v]
  {
  }

  /** The key of an end record is the id in decimal digits. */
  lemma IdLayout()
    ensures D.IdBytes(0) == [0x30] && D.IdBytes(305) == [0x33, 0x30, 0x35]
  {
    assert D.IdBytes(30) == D.IdBytes(3) + [0x30];
  }

  lemma HintLayout(k: Byte)
    ensures DiskvRecords.HintBytes([k], D.Position(1, 300, 127, 128)) == [1, 0xac, 0x02, 127, 0x80, 0x01, k]
  {
  }
}
