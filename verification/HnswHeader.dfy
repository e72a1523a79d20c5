/** The header of an HNSW snapshot: configuration, dimension and distance, and which headers load. */
module HnswHeader {
  import opened Common
  import opened ListCodec
  import opened VertexFormat
  import opened VertexCodec
  import opened HnswFormat
  import opened HnswSnapshot

  datatype Distance = CosineDot | L2Squared | Manhattan

  /** What the header holds; the multiplier as the bits of a 32-bit float. */
  datatype Header = Header(algorithm: int, levelMultiplier: nat, ef: int, efConstruction: int, m: int, mMax: int, mMax0: int,
                           dim: nat, distance: Distance)

  // ---------- writing ----------

  /** `distToDistIdx`: a distance without a number of its own gets 0. */
  function DistToDistIdx(d: Distance): nat {
    match d
    case CosineDot => 1
    case L2Squared => 2
    case Manhattan => 0
  }

  /** The low 32 bits of an integer. */
  function Low32(x: int): (w: nat)
    ensures w < TWO32
  {
    x % TWO32
  }

  function HeaderWords(x: Header): (words: seq<nat>)
    ensures |words| == 8
  {
    [Low32(x.algorithm), Low32(x.levelMultiplier), Low32(x.ef), Low32(x.efConstruction), Low32(x.m), Low32(x.mMax),
     Low32(x.mMax0), Low32(x.dim)]
  }

  function HeaderBytes(x: Header): Bytes {
    WordsBytes(HeaderWords(x)) + Be(DistToDistIdx(x.distance), 1)
  }

  // ---------- reading ----------

  function Signed32(w: nat): int {
    if w < TWO31 then w else w - TWO32
  }

  function DistIdxToDist(i: nat): Option<Distance> {
    if i == 1 then Some(CosineDot) else if i == 2 then Some(L2Squared) else None
  }

  lemma {:induction false} WordsRead(b: Bytes, at: nat, count: nat, words: seq<nat>)
    ensures var r := ReadWords(b, at, count, words); r.Got? ==> |r.value| == |words| + count
    decreases count
  {
    hide ReadWord;
    if count > 0 && ReadWord(b, at, 4).Got? {
      WordsRead(b, ReadWord(b, at, 4).at, count - 1, words + [ReadWord(b, at, 4).value]);
    }
  }

  function OfWords(w: seq<nat>, d: Distance): Header
    requires |w| == 8
  {
    Header(w[0], w[1], Signed32(w[2]), Signed32(w[3]), Signed32(w[4]), Signed32(w[5]), Signed32(w[6]), w[7], d)
  }

  function ReadHeader(b: Bytes, at: nat): Read<Header> {
    WordsRead(b, at, 8, []);
    match ReadWords(b, at, 8, [])
    case Fail => Fail
    case Got(w, at1) =>
      match ReadWord(b, at1, 1)
      case Fail => Fail
      case Got(i, at2) =>
        match DistIdxToDist(i)
        case None => Fail
        case Some(d) => Got(OfWords(w, d), at2)
  }

  // ---------- what comes back ----------

  predicate IntFits(x: int) {
    -(TWO31 as int) <= x < TWO31
  }

  predicate HeaderFits(x: Header) {
    && 0 <= x.algorithm < TWO32 && x.levelMultiplier < TWO32 && x.dim < TWO32
    && IntFits(x.ef) && IntFits(x.efConstruction) && IntFits(x.m) && IntFits(x.mMax) && IntFits(x.mMax0)
  }

  lemma SignedLow(x: int)
    ensures Signed32(Low32(x)) == x <==> IntFits(x)
  {
  }

  lemma LowFits(x: int)
    ensures Low32(x) == x <==> 0 <= x < TWO32
  {
  }

  /** What a header becomes on its way: every number cut to 32 bits. */
  function CutHeader(x: Header): Header {
    Header(Low32(x.algorithm), Low32(x.levelMultiplier), Signed32(Low32(x.ef)), Signed32(Low32(x.efConstruction)),
           Signed32(Low32(x.m)), Signed32(Low32(x.mMax)), Signed32(Low32(x.mMax0)), Low32(x.dim), x.distance)
  }

  lemma CutIsSameIff(x: Header)
    ensures CutHeader(x) == x <==> HeaderFits(x)
  {
    hide Low32, Signed32;
    LowFits(x.algorithm);
    LowFits(x.levelMultiplier);
    LowFits(x.dim);
    SignedLow(x.ef);
    SignedLow(x.efConstruction);
    SignedLow(x.m);
    SignedLow(x.mMax);
    SignedLow(x.mMax0);
  }

  lemma WordsAreCut(x: Header)
    ensures OfWords(HeaderWords(x), x.distance) == CutHeader(x)
    ensures forall i :: 0 <= i < 8 ==> HeaderWords(x)[i] < TWO32
  {
    hide Low32, Signed32;
  }

  lemma HeaderRead(b: Bytes, at: nat, x: Header)
    requires At(b, at, HeaderBytes(x))
    ensures ReadHeader(b, at) == if x.distance.Manhattan? then Fail else Got(CutHeader(x), at + |HeaderBytes(x)|)
  {
    hide ReadWord, ReadWords, Be, Pow256, At, WordsBytes, HeaderWords, OfWords, CutHeader;
    WordsAreCut(x);
    var words, i := HeaderWords(x), DistToDistIdx(x.distance);
    AtSplit(b, at, WordsBytes(words), Be(i, 1));
    GetWords(b, at, words, []);
    assert [] + words == words;
    ByteWidth();
    GetWord(b, at + |WordsBytes(words)|, i, 1);
  }

  /** A header written is read back unchanged exactly if its numbers fit their widths and its distance has a number: the
      header of an index with the Manhattan distance never loads. */
  lemma HeaderReadBackIff(x: Header)
    ensures ReadHeader(HeaderBytes(x), 0) == Got(x, |HeaderBytes(x)|) <==> HeaderFits(x) && !x.distance.Manhattan?
  {
    hide HeaderBytes, ReadHeader, CutHeader, HeaderFits;
    Whole(HeaderBytes(x));
    HeaderRead(HeaderBytes(x), 0, x);
    CutIsSameIff(x);
  }

  // ---------- the whole ----------

  datatype LoadedIndex = LoadedIndex(header: Option<Header>, index: Loaded)

  /** What `Load` makes of any bytes; without the header the dimension is that of the index loaded into. */
  function ReadIndex(header: bool, dim: nat, shardOf: nat -> nat, b: Bytes): Read<LoadedIndex> {
    if header then
      match ReadHeader(b, 0)
      case Fail => Fail
      case Got(x, at) => MapRead(ReadSnapshot(x.dim, shardOf, b, at), (loaded: Loaded) => LoadedIndex(Some(x), loaded))
    else MapRead(ReadSnapshot(dim, shardOf, b, 0), (loaded: Loaded) => LoadedIndex(None, loaded))
  }
}
