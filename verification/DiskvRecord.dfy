/** The bytes of log and hint records (Protocol Buffers encoding, "Base 128 Varints" and "Signed Integers"). */
module DiskvRecords {
  import opened Common
  import opened DiskvLog


  const MAX_VARINT_LEN64: nat := 10
  const MAX_VARINT_LEN32: nat := 5
  const MAX_LOG_RECORD_HEADER_SIZE: nat := MAX_VARINT_LEN32 * 2 + MAX_VARINT_LEN64 * 2 + 1
  const HINT_BUFFER_SIZE: nat := 25

  // ---------- unsigned varints ----------

  /** Seven bits a byte, low ones first; all bytes but the last have their top bit set. */
  function VarintBytes(x: nat): (b: Bytes)
    ensures |b| >= 1
  {
    if x < 0x80 then [x] else [x % 0x80 + 0x80] + VarintBytes(x / 0x80)
  }

  /** The weight of byte `n`: `1 << (7 * n)`. */
  function Pow128(n: nat): (p: nat)
    ensures p >= 1
  {
    if n == 0 then 1 else 0x80 * Pow128(n - 1)
  }

  /** A number below `128 ^ n` takes at most `n` bytes. */
  lemma {:induction false} VarintLength(x: nat, n: nat)
    requires n > 0 && x < Pow128(n)
    ensures |VarintBytes(x)| <= n
  {
    if x >= 0x80 {
      assert n > 1 by { assert Pow128(1) == 0x80; }
      assert Pow128(n) == 0x80 * Pow128(n - 1);
      VarintLength(x / 0x80, n - 1);
    }
  }

  lemma WordLengths(x: nat)
    ensures x < TWO32 ==> |VarintBytes(x)| <= MAX_VARINT_LEN32
    ensures x < TWO64 ==> |VarintBytes(x)| <= MAX_VARINT_LEN64
  {
    assert Pow128(5) == 0x80 * Pow128(4) == 0x8_0000_0000;
    assert Pow128(10) == 0x80 * Pow128(9) == 0x40_0000_0000_0000_0000;
    if x < TWO32 {
      VarintLength(x, 5);
    }
    if x < TWO64 {
      VarintLength(x, 10);
    }
  }

  /** `binary.PutUvarint`: writes in place; a buffer that is too short would make it panic. */
  method PutUvarint(buf: array<Byte>, index: nat, x: nat) returns (n: nat)
    requires index + |VarintBytes(x)| <= buf.Length
    modifies buf
    ensures n == |VarintBytes(x)| && buf[index..index + n] == VarintBytes(x)
    ensures forall k :: 0 <= k < buf.Length && !(index <= k < index + n) ==> buf[k] == old(buf[k])
  {
    var i, v := 0, x;
    while v >= 0x80
      invariant i + |VarintBytes(v)| == |VarintBytes(x)|
      invariant VarintBytes(x) == buf[index..index + i] + VarintBytes(v)
      invariant forall k :: 0 <= k < buf.Length && !(index <= k < index + i) ==> buf[k] == old(buf[k])
      decreases v
    {
      ghost var done, rest := buf[index..index + i], VarintBytes(v / 0x80);
      buf[index + i] := v % 0x80 + 0x80;
      assert buf[index..index + i + 1] == done + [v % 0x80 + 0x80];
      assert VarintBytes(x) == done + ([v % 0x80 + 0x80] + rest);
      v := v / 0x80;
      i := i + 1;
    }
    buf[index + i] := v;
    assert buf[index..index + i + 1] == buf[index..index + i] + [v];
    n := i + 1;
  }

  /** What `binary.Uvarint` reads from position `i` on: a value and how many bytes the whole
      number took, 0 if the bytes ran out, less if the number is too large for 64 bits. */
  datatype Parsed = Parsed(value: nat, n: int)

  function ParseVarint(buf: Bytes, i: nat): (p: Parsed)
    requires i <= |buf|
    ensures p.n <= |buf| && (p.n <= 0 ==> p.value == 0)
    decreases |buf| - i
  {
    if i == |buf| then Parsed(0, 0)
    else if i == MAX_VARINT_LEN64 then Parsed(0, -(i + 1))
    else if buf[i] < 0x80 then
      if i == MAX_VARINT_LEN64 - 1 && buf[i] > 1 then Parsed(0, -(i + 1)) else Parsed(buf[i], i + 1)
    else
      var rest := ParseVarint(buf, i + 1);
      if rest.n <= 0 then Parsed(0, rest.n) else Parsed(buf[i] - 0x80 + 0x80 * rest.value, rest.n)
  }

  /** `binary.Uvarint`. */
  method Uvarint(buf: Bytes) returns (x: nat, n: int)
    ensures Parsed(x, n) == ParseVarint(buf, 0)
  {
    hide ParseVarint, Joined;
    JoinedStart(ParseVarint(buf, 0));
    x := 0;
    var p: nat := 1;
    for i := 0 to |buf|
      invariant ParseVarint(buf, 0) == Joined(x, p, ParseVarint(buf, i))
    {
      ParseStep(buf, i, x, p);
      if i == MAX_VARINT_LEN64 {
        return 0, -(i + 1);
      }
      var b := buf[i];
      if b < 0x80 {
        if i == MAX_VARINT_LEN64 - 1 && b > 1 {
          return 0, -(i + 1);
        }
        return x + b * p, i + 1;
      }
      x := x + (b - 0x80) * p;
      p := 0x80 * p;
    }
    ParseAtEnd(buf, x, p);
    return 0, 0;
  }

  /** The digits read so far, below the rest of the number. */
  function Joined(x: nat, p: nat, rest: Parsed): Parsed {
    if rest.n <= 0 then Parsed(0, rest.n) else Parsed(x + p * rest.value, rest.n)
  }

  lemma JoinedStart(rest: Parsed)
    requires rest.n <= 0 ==> rest.value == 0
    ensures Joined(0, 1, rest) == rest
  {
  }

  lemma ParseAtEnd(buf: Bytes, x: nat, p: nat)
    ensures Joined(x, p, ParseVarint(buf, |buf|)) == Parsed(0, 0)
  {
  }

  lemma ParseStep(buf: Bytes, i: nat, x: nat, p: nat)
    requires i < |buf|
    ensures var rest := ParseVarint(buf, i);
            if i == MAX_VARINT_LEN64 || (buf[i] < 0x80 && i == MAX_VARINT_LEN64 - 1 && buf[i] > 1)
            then Joined(x, p, rest) == Parsed(0, -(i + 1))
            else if buf[i] < 0x80 then Joined(x, p, rest) == Parsed(x + buf[i] * p, i + 1)
            else Joined(x, p, rest) == Joined(x + (buf[i] - 0x80) * p, 0x80 * p, ParseVarint(buf, i + 1))
  {
    hide ParseVarint, Joined;
    ParseUnfolds(buf, i);
    if i != MAX_VARINT_LEN64 && buf[i] >= 0x80 {
      JoinsDigit(x, p, buf[i] - 0x80, ParseVarint(buf, i + 1));
    } else if i != MAX_VARINT_LEN64 {
      JoinsLast(x, p, buf[i], i + 1);
    }
    JoinsFailure(x, p, -(i + 1));
  }

  lemma ParseUnfolds(buf: Bytes, i: nat)
    requires i < |buf|
    ensures ParseVarint(buf, i)
         == if i == MAX_VARINT_LEN64 || (buf[i] < 0x80 && i == MAX_VARINT_LEN64 - 1 && buf[i] > 1) then Parsed(0, -(i + 1))
            else if buf[i] < 0x80 then Parsed(buf[i], i + 1)
            else Joined(buf[i] - 0x80, 0x80, ParseVarint(buf, i + 1))
  {
  }

  lemma JoinsDigit(x: nat, p: nat, d: nat, rest: Parsed)
    ensures Joined(x, p, Joined(d, 0x80, rest)) == Joined(x + d * p, 0x80 * p, rest)
  {
    Regroup(x, p, d, rest.value);
  }

  lemma JoinsLast(x: nat, p: nat, d: nat, n: nat)
    requires n > 0
    ensures Joined(x, p, Parsed(d, n)) == Parsed(x + d * p, n)
  {
    assert p * d == d * p;
  }

  lemma JoinsFailure(x: nat, p: nat, n: int)
    requires n <= 0
    ensures Joined(x, p, Parsed(0, n)) == Parsed(0, n)
  {
  }

  lemma Regroup(x: nat, p: nat, b: nat, v: nat)
    ensures x + p * (b + 0x80 * v) == (x + b * p) + (0x80 * p) * v
  {
  }

  lemma Weight(x: nat, i: nat)
    requires x >= 0x80 && x * Pow128(i) < TWO64
    ensures (x / 0x80) * Pow128(i + 1) < TWO64 && i < 9
  {
    assert (x / 0x80) * Pow128(i + 1) == (x / 0x80) * 0x80 * Pow128(i);
    assert (x / 0x80) * 0x80 * Pow128(i) <= x * Pow128(i) by { Times((x / 0x80) * 0x80, x, Pow128(i)); }
    if i >= 9 {
      PowGrows(9, i);
      assert Pow128(9) == 0x8000_0000_0000_0000;
      Times(0x80, x, Pow128(i));
      assert false;
    }
  }

  lemma Times(a: nat, b: nat, c: nat)
    requires a <= b
    ensures a * c <= b * c
  {
  }

  lemma {:induction false} PowGrows(a: nat, b: nat)
    requires a <= b
    ensures Pow128(a) <= Pow128(b)
  {
    if a < b {
      PowGrows(a, b - 1);
    }
  }

  /** A varint is read back whatever follows it. */
  lemma {:induction false} ParseUndoesVarint(x: nat, front: Bytes, rest: Bytes)
    requires |front| < MAX_VARINT_LEN64 && x * Pow128(|front|) < TWO64
    ensures ParseVarint(front + VarintBytes(x) + rest, |front|) == Parsed(x, |front| + |VarintBytes(x)|)
    decreases x
  {
    var i, buf := |front|, front + VarintBytes(x) + rest;
    if x < 0x80 {
      if i == 9 {
        assert Pow128(9) == 0x8000_0000_0000_0000;
      }
    } else {
      Weight(x, i);
      assert buf == (front + [x % 0x80 + 0x80]) + VarintBytes(x / 0x80) + rest;
      ParseUndoesVarint(x / 0x80, front + [x % 0x80 + 0x80], rest);
    }
  }

  lemma ReadBack(x: nat, rest: Bytes)
    requires x < TWO64
    ensures ParseVarint(VarintBytes(x) + rest, 0) == Parsed(x, |VarintBytes(x)|)
  {
    ParseUndoesVarint(x, [], rest);
    assert [] + VarintBytes(x) + rest == VarintBytes(x) + rest;
  }

  // ---------- signed varints ----------

  predicate Int64(x: int) {
    -TWO63 <= x < TWO63
  }

  /** `binary.PutVarint`: shift left as a word and flip all bits of a negative number. */
  function Zigzag(x: int): (u: nat)
    requires Int64(x)
    ensures u < TWO64
  {
    var ux := ((x % TWO64) * 2) % TWO64;
    if x < 0 then TWO64 - 1 - ux else ux
  }

  /** `binary.Varint`: shift right and flip all bits of an odd one. */
  function Unzigzag(u: nat): int {
    if u % 2 == 0 then u / 2 else -(u / 2) - 1
  }

  lemma UnzigzagUndoes(x: int)
    requires Int64(x)
    ensures Unzigzag(Zigzag(x)) == x && (0 <= x < TWO63 / 0x1_0000_0000 ==> Zigzag(x) == 2 * x < TWO32)
  {
  }

  // ---------- log records ----------

  /** A record as it is stored: the type is a byte. */
  datatype Raw = Raw(typ: Byte, batchId: nat, key: Bytes, value: Bytes, expire: int)

  function TypeByte(t: RecordType): Byte {
    match t
    case Normal => 0
    case Deleted => 1
    case BatchFinished => 2
  }

  function AsRaw(r: LogRecord): Raw {
    Raw(TypeByte(r.typ), r.batchId, r.key, r.value, r.expire)
  }

  /** Lengths below 2^31, a 64-bit batch id, a 64-bit signed expiry. */
  predicate Encodable(r: LogRecord) {
    r.batchId < TWO64 && |r.key| < TWO32 / 2 && |r.value| < TWO32 / 2 && Int64(r.expire)
  }

  function HeaderBytes(r: LogRecord): Bytes
    requires Encodable(r)
  {
    [TypeByte(r.typ)] + VarintBytes(r.batchId) + VarintBytes(Zigzag(|r.key|)) + VarintBytes(Zigzag(|r.value|)) + VarintBytes(Zigzag(r.expire))
  }

  function RecordBytes(r: LogRecord): Bytes
    requires Encodable(r)
  {
    HeaderBytes(r) + r.key + r.value
  }

  lemma HeaderFits(r: LogRecord)
    requires Encodable(r)
    ensures |HeaderBytes(r)| <= MAX_LOG_RECORD_HEADER_SIZE
    ensures |VarintBytes(r.batchId)| <= 10 && |VarintBytes(Zigzag(|r.key|))| <= 5
    ensures |VarintBytes(Zigzag(|r.value|))| <= 5 && |VarintBytes(Zigzag(r.expire))| <= 10
  {
    hide VarintBytes;
    UnzigzagUndoes(|r.key|);
    UnzigzagUndoes(|r.value|);
    WordLengths(r.batchId);
    WordLengths(Zigzag(|r.key|));
    WordLengths(Zigzag(|r.value|));
    WordLengths(Zigzag(r.expire));
  }

  /** `encodeLogRecord`: the header buffer of 31 bytes is never too short. */
  method EncodeLogRecord(r: LogRecord, header: array<Byte>) returns (bytes: Bytes)
    requires Encodable(r) && header.Length == MAX_LOG_RECORD_HEADER_SIZE
    modifies header
    ensures bytes == RecordBytes(r)
  {
    hide VarintBytes, Zigzag;
    HeaderFits(r);
    header[0] := TypeByte(r.typ);
    var index := 1;
    index := PutNext(header, index, r.batchId);
    index := PutNext(header, index, Zigzag(|r.key|));
    index := PutNext(header, index, Zigzag(|r.value|));
    index := PutNext(header, index, Zigzag(r.expire));
    assert header[..index] == HeaderBytes(r);
    bytes := header[..index];
    bytes := bytes + r.key;
    bytes := bytes + r.value;
  }

  /** One more number behind what the buffer holds. */
  method PutNext(buf: array<Byte>, index: nat, x: nat) returns (next: nat)
    requires index + |VarintBytes(x)| <= buf.Length
    modifies buf
    ensures next == index + |VarintBytes(x)| && buf[..next] == old(buf[..index]) + VarintBytes(x)
  {
    hide VarintBytes;
    var n := PutUvarint(buf, index, x);
    next := index + n;
    assert buf[..next] == buf[..index] + buf[index..next];
    assert buf[..index] == old(buf[..index]);
  }

  /** `buf[index:]`, which panics past the end. */
  function From(buf: Bytes, index: nat): Option<Bytes> {
    if index <= |buf| then Some(buf[index..]) else None
  }

  /** The index is a 32-bit word: advancing it wraps. */
  function Advance(index: nat, n: int): nat {
    (index + n) % TWO32
  }

  /** `copy(make([]byte, size), buf[index:index+uint32(size)])`. */
  function CopyOut(buf: Bytes, index: nat, size: int): Option<Bytes> {
    var hi := Advance(index, size);
    if size < 0 || !(index <= hi <= |buf|) then None
    else if hi - index < size then Some(buf[index..hi] + seq(size - (hi - index), _ => 0))
    else Some(buf[index..index + size])
  }

  datatype Step = Step(value: nat, index: nat)

  /** One `binary.Uvarint(buf[index:])`. */
  function ReadNext(buf: Bytes, index: nat): Option<Step> {
    match From(buf, index)
    case None => None
    case Some(b) =>
      var p := ParseVarint(b, 0);
      Some(Step(p.value, Advance(index, p.n)))
  }

  /** `decodeLogRecord` on any bytes; None where it panics. */
  function Decode(buf: Bytes): Option<Raw> {
    if buf == [] then None
    else
      match ReadNext(buf, 1)
      case None => None
      case Some(batchId) =>
        match ReadNext(buf, batchId.index)
        case None => None
        case Some(keySize) =>
          match ReadNext(buf, keySize.index)
          case None => None
          case Some(valueSize) =>
            match ReadNext(buf, valueSize.index)
            case None => None
            case Some(expire) =>
              var ks, vs := Unzigzag(keySize.value), Unzigzag(valueSize.value);
              match CopyOut(buf, expire.index, ks)
              case None => None
              case Some(key) =>
                match CopyOut(buf, Advance(expire.index, ks), vs)
                case None => None
                case Some(value) => Some(Raw(buf[0], batchId.value, key, value, Unzigzag(expire.value)))
  }

  method DecodeLogRecord(buf: Bytes) returns (r: Option<Raw>)
    ensures r == Decode(buf)
  {
    hide ParseVarint, Unzigzag;
    if buf == [] {
      return None;
    }
    var recordType := buf[0];
    var index := 1;
    if index > |buf| { return None; }
    var batchId, n := Uvarint(buf[index..]);
    index := Advance(index, n);
    if index > |buf| { return None; }
    var u;
    u, n := Uvarint(buf[index..]);
    var keySize := Unzigzag(u);
    index := Advance(index, n);
    if index > |buf| { return None; }
    u, n := Uvarint(buf[index..]);
    var valueSize := Unzigzag(u);
    index := Advance(index, n);
    if index > |buf| { return None; }
    u, n := Uvarint(buf[index..]);
    var expire := Unzigzag(u);
    index := Advance(index, n);
    var key := CopyOut(buf, index, keySize);
    if key.None? { return None; }
    index := Advance(index, keySize);
    var value := CopyOut(buf, index, valueSize);
    if value.None? { return None; }
    return Some(Raw(recordType, batchId, key.value, value.value, expire));
  }

  lemma ReadsNext(front: Bytes, x: nat, rest: Bytes)
    requires x < TWO64 && |front| + |VarintBytes(x)| < TWO32
    ensures ReadNext(front + VarintBytes(x) + rest, |front|) == Some(Step(x, |front| + |VarintBytes(x)|))
  {
    hide VarintBytes, ParseVarint;
    ReadBack(x, rest);
    assert (front + VarintBytes(x) + rest)[|front|..] == VarintBytes(x) + rest;
  }

  /** Decoding undoes encoding exactly when the record takes fewer than 2^32 bytes: the decoder's
      index is a 32-bit word, and beyond that it panics. */
  lemma DecodeUndoesEncodeIff(r: LogRecord)
    requires Encodable(r)
    ensures Decode(RecordBytes(r)) == if |RecordBytes(r)| < TWO32 then Some(AsRaw(r)) else None
  {
    hide VarintBytes, ParseVarint, Zigzag, Unzigzag, ReadNext, CopyOut;
    HeaderFits(r);
    var t, b, k, v, e := [TypeByte(r.typ)], VarintBytes(r.batchId), VarintBytes(Zigzag(|r.key|)), VarintBytes(Zigzag(|r.value|)), VarintBytes(Zigzag(r.expire));
    var buf, tail := RecordBytes(r), r.key + r.value;
    FiveParts(t, b, k, v, e, r.key, r.value);
    ReadsNext(t, r.batchId, k + (v + (e + tail)));
    ReadsNext(t + b, Zigzag(|r.key|), v + (e + tail));
    ReadsNext(t + b + k, Zigzag(|r.value|), e + tail);
    ReadsNext(t + b + k + v, Zigzag(r.expire), tail);
    UnzigzagUndoes(|r.key|);
    UnzigzagUndoes(|r.value|);
    UnzigzagUndoes(r.expire);
    BodyCopied(t + b + k + v + e, r.key, r.value);
  }

  /** The same bytes, split before and after each part. */
  lemma FiveParts(t: Bytes, b: Bytes, k: Bytes, v: Bytes, e: Bytes, key: Bytes, value: Bytes)
    ensures var buf, tail := t + b + k + v + e + key + value, key + value;
            buf == t + b + (k + (v + (e + tail))) && buf == t + b + k + (v + (e + tail))
            && buf == t + b + k + v + (e + tail) && buf == t + b + k + v + e + tail
  {
    assert t + b + k + v + e + key + value == t + b + k + v + e + (key + value);
    assert t + b + k + v + e + (key + value) == t + b + k + v + (e + (key + value));
    assert t + b + k + v + (e + (key + value)) == t + b + k + (v + (e + (key + value)));
    assert t + b + k + (v + (e + (key + value))) == t + b + (k + (v + (e + (key + value))));
  }

  lemma BodyCopied(header: Bytes, key: Bytes, value: Bytes)
    requires |header| <= MAX_LOG_RECORD_HEADER_SIZE && |key| < TWO32 / 2 && |value| < TWO32 / 2
    ensures var buf := header + key + value;
            CopyOut(buf, |header|, |key|) == Some(key) && Advance(|header|, |key|) == |header| + |key|
            && CopyOut(buf, |header| + |key|, |value|) == if |buf| < TWO32 then Some(value) else None
  {
    var buf := header + key + value;
    assert buf[|header|..|header| + |key|] == key;
    assert buf[|header| + |key|..|header| + |key| + |value|] == value;
  }

  // ---------- hint records ----------

  predicate HintFits(pos: Position) {
    pos.segmentId < TWO32 && pos.blockNumber < TWO32 && pos.chunkOffset < TWO63 && pos.chunkSize < TWO32
  }

  function HintBytes(key: Bytes, pos: Position): Bytes {
    VarintBytes(pos.segmentId) + VarintBytes(pos.blockNumber) + VarintBytes(pos.chunkOffset) + VarintBytes(pos.chunkSize) + key
  }

  /** `encodeHintRecord`: the buffer of 25 bytes is never too short. */
  method EncodeHintRecord(key: Bytes, pos: Position) returns (result: Bytes)
    requires HintFits(pos)
    ensures result == HintBytes(key, pos)
  {
    hide VarintBytes;
    WordLengths(pos.segmentId);
    WordLengths(pos.blockNumber);
    WordLengths(pos.chunkOffset);
    WordLengths(pos.chunkSize);
    var buf := new Byte[HINT_BUFFER_SIZE](_ => 0);
    var idx := PutNext(buf, 0, pos.segmentId);
    idx := PutNext(buf, idx, pos.blockNumber);
    idx := PutNext(buf, idx, pos.chunkOffset);
    idx := PutNext(buf, idx, pos.chunkSize);
    result := buf[..idx] + key;
  }

  /** `decodeHintRecord` on any bytes: the index is a signed integer here, and a negative one or
      one past the end makes it panic. Values are cut down to their widths. */
  function DecodeHint(buf: Bytes): Option<(Bytes, Position)> {
    var s := ParseVarint(buf, 0);
    if s.n < 0 then None
    else
      var b := ParseVarint(buf[s.n..], 0);
      if s.n + b.n < 0 || s.n + b.n > |buf| then None
      else
        var i := s.n + b.n;
        var o := ParseVarint(buf[i..], 0);
        if i + o.n < 0 || i + o.n > |buf| then None
        else
          var j := i + o.n;
          var z := ParseVarint(buf[j..], 0);
          if j + z.n < 0 || j + z.n > |buf| then None
          else Some((buf[j + z.n..], Position(s.value % TWO32, b.value % TWO32, o.value % TWO64, z.value % TWO32)))
  }

  /** Decoding undoes encoding for hint records. */
  lemma DecodeHintUndoesEncode(key: Bytes, pos: Position)
    requires HintFits(pos)
    ensures DecodeHint(HintBytes(key, pos)) == Some((key, pos))
  {
    hide VarintBytes, ParseVarint;
    var s, b, o, z := VarintBytes(pos.segmentId), VarintBytes(pos.blockNumber), VarintBytes(pos.chunkOffset), VarintBytes(pos.chunkSize);
    ReadBack(pos.segmentId, b + (o + (z + key)));
    ReadBack(pos.blockNumber, o + (z + key));
    ReadBack(pos.chunkOffset, z + key);
    ReadBack(pos.chunkSize, key);
    DropParts(s, b, o, z, key);
  }

  lemma DropParts(s: Bytes, b: Bytes, o: Bytes, z: Bytes, key: Bytes)
    ensures var buf := s + b + o + z + key;
            buf == s + (b + (o + (z + key))) && buf[|s|..] == b + (o + (z + key)) && buf[|s| + |b|..] == o + (z + key)
            && buf[|s| + |b| + |o|..] == z + key && buf[|s| + |b| + |o| + |z|..] == key
  {
  }
}
