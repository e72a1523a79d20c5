/** The diskv write-ahead log: records, batches laid out in it, and recovery by replay. */
module DiskvLog {
  import opened Common

  // A log is a sequence of chunks, each a record at a position. Committing a batch appends one record per operation
  // and then an end record that names the batch. Recovery stages the records of a batch until it meets the end record.

  type Key = Bytes
  type Value = Bytes

  datatype Position = Position(segmentId: nat, blockNumber: nat, chunkOffset: nat, chunkSize: nat)

  /** `positionEquals`: the chunk size is only an estimate and is not compared. */
  predicate PositionEquals(a: Position, b: Position) {
    a.segmentId == b.segmentId && a.blockNumber == b.blockNumber && a.chunkOffset == b.chunkOffset
  }

  datatype RecordType = Normal | Deleted | BatchFinished

  datatype LogRecord = LogRecord(key: Key, value: Value, typ: RecordType, batchId: nat, expire: int) {
    predicate IsExpired(now: int) {
      0 < expire <= now
    }
  }

  datatype Chunk = Chunk(record: LogRecord, pos: Position)

  // ---------- batch ids as text ----------

  /** The id a `BatchFinished` record carries is its decimal text. */
  function IdBytes(id: nat): (b: Bytes)
    ensures b != []
  {
    if id < 10 then [48 + id] else IdBytes(id / 10) + [48 + id % 10]
  }

  function ParseId(b: Bytes): Option<nat>
  {
    if b == [] then None
    else
      var d := b[|b| - 1];
      if !(48 <= d < 58) then None
      else if |b| == 1 then Some(d - 48)
      else match ParseId(b[..|b| - 1])
        case None => None
        case Some(n) => Some(10 * n + d - 48)
  }

  lemma {:induction false} ParseIdUndoesIdBytes(id: nat)
    ensures ParseId(IdBytes(id)) == Some(id)
  {
    if id >= 10 {
      ParseIdUndoesIdBytes(id / 10);
      var b := IdBytes(id);
      assert b[..|b| - 1] == IdBytes(id / 10);
    }
  }

  // ---------- replay ----------

  datatype IndexRecord = IndexRecord(key: Key, typ: RecordType, pos: Position)

  type Index = map<Key, Position>

  /** What `loadIndexFromWAL` holds between two chunks.  `failed` is its error return. */
  datatype Recovery = Recovery(index: Index, staged: map<nat, seq<IndexRecord>>, failed: bool)

  function StagedUnder(staged: map<nat, seq<IndexRecord>>, id: nat): seq<IndexRecord> {
    if id in staged then staged[id] else []
  }

  function ApplyIndexRecord(index: Index, r: IndexRecord): Index {
    match r.typ
    case Normal => index[r.key := r.pos]
    case Deleted => index - {r.key}
    case BatchFinished => index
  }

  function ApplyIndexRecords(index: Index, rs: seq<IndexRecord>): Index {
    if rs == [] then index
    else ApplyIndexRecord(ApplyIndexRecords(index, rs[..|rs| - 1]), rs[|rs| - 1])
  }

  /** One turn of the recovery loop. */
  function ReplayChunk(s: Recovery, c: Chunk, now: int): Recovery {
    var r := c.record;
    if s.failed then s
    else if r.typ.BatchFinished? then
      match ParseId(r.key)
      case None => s.(failed := true)
      case Some(id) =>
        Recovery(ApplyIndexRecords(s.index, StagedUnder(s.staged, id)), s.staged - {id}, false)
    else if r.typ.Normal? && r.batchId == 0 then s.(index := s.index[r.key := c.pos])
    else if r.IsExpired(now) then s.(index := s.index - {r.key})
    else s.(staged := s.staged[r.batchId := StagedUnder(s.staged, r.batchId) + [IndexRecord(r.key, r.typ, c.pos)]])
  }

  function Replay(s: Recovery, log: seq<Chunk>, now: int): Recovery {
    if log == [] then s
    else ReplayChunk(Replay(s, log[..|log| - 1], now), log[|log| - 1], now)
  }

  lemma {:induction false} ReplayConcat(s: Recovery, a: seq<Chunk>, b: seq<Chunk>, now: int)
    ensures Replay(s, a + b, now) == Replay(Replay(s, a, now), b, now)
  {
    if b == [] {
      assert a + b == a;
    } else {
      ReplayConcat(s, a, b[..|b| - 1], now);
      assert (a + b)[..|a + b| - 1] == a + b[..|b| - 1];
    }
  }

  // ---------- batches and what they mean ----------

  datatype Op = Put(key: Key, value: Value) | Del(key: Key)

  /** The meaning of an operation on the key/value map: the reference semantics. */
  function ApplyOp(kv: map<Key, Value>, op: Op): map<Key, Value> {
    match op
    case Put(k, v) => kv[k := v]
    case Del(k) => kv - {k}
  }

  function ApplyOps(kv: map<Key, Value>, ops: seq<Op>): map<Key, Value> {
    if ops == [] then kv else ApplyOp(ApplyOps(kv, ops[..|ops| - 1]), ops[|ops| - 1])
  }

  function OpRecord(op: Op, id: nat): LogRecord {
    match op
    case Put(k, v) => LogRecord(k, v, Normal, id, 0)
    case Del(k) => LogRecord(k, [], Deleted, id, 0)
  }

  /** The end record: its key names the batch, its own batch id stays 0. */
  function EndRecord(id: nat): LogRecord {
    LogRecord(IdBytes(id), [], BatchFinished, 0, 0)
  }

  /** A batch as it lies in the log.  A batch cut short by a crash has no end record; its
      operations are then those that reached the log. */
  datatype Block = Block(id: nat, ops: seq<Op>, at: seq<Position>, sealed: bool)

  function BlockSize(b: Block): nat {
    |b.ops| + if b.sealed then 1 else 0
  }

  predicate WellFormed(b: Block) {
    b.id != 0 && |b.at| == BlockSize(b)
  }

  predicate AllWellFormed(blocks: seq<Block>) {
    forall i :: 0 <= i < |blocks| ==> WellFormed(blocks[i])
  }

  function OpChunks(b: Block): (cs: seq<Chunk>)
    requires |b.ops| <= |b.at|
    ensures |cs| == |b.ops|
  {
    seq(|b.ops|, i requires 0 <= i < |b.ops| => Chunk(OpRecord(b.ops[i], b.id), b.at[i]))
  }

  function BlockChunks(b: Block): (cs: seq<Chunk>)
    requires WellFormed(b)
    ensures |cs| == BlockSize(b)
  {
    OpChunks(b) + if b.sealed then [Chunk(EndRecord(b.id), b.at[|b.ops|])] else []
  }

  function LogOf(blocks: seq<Block>): seq<Chunk>
    requires AllWellFormed(blocks)
  {
    if blocks == [] then []
    else LogOf(blocks[..|blocks| - 1]) + BlockChunks(blocks[|blocks| - 1])
  }

  lemma LogOfSnoc(blocks: seq<Block>, b: Block)
    requires AllWellFormed(blocks) && WellFormed(b)
    ensures AllWellFormed(blocks + [b]) && LogOf(blocks + [b]) == LogOf(blocks) + BlockChunks(b)
  {
    hide BlockChunks;
    assert (blocks + [b])[..|blocks|] == blocks;
  }

  function OpIndexRecords(b: Block): (rs: seq<IndexRecord>)
    requires |b.ops| <= |b.at|
    ensures |rs| == |b.ops|
  {
    seq(|b.ops|, i requires 0 <= i < |b.ops| =>
      IndexRecord(b.ops[i].key, OpRecord(b.ops[i], b.id).typ, b.at[i]))
  }

  /** The index after the sealed batches among `blocks` took effect in order; batches that
      were cut short contribute nothing. */
  function IndexAfter(base: Index, blocks: seq<Block>): Index
    requires AllWellFormed(blocks)
  {
    if blocks == [] then base
    else
      var prev := IndexAfter(base, blocks[..|blocks| - 1]);
      var b := blocks[|blocks| - 1];
      if b.sealed then ApplyIndexRecords(prev, OpIndexRecords(b)) else prev
  }

  lemma {:induction false} IndexAfterConcat(base: Index, a: seq<Block>, b: seq<Block>)
    requires AllWellFormed(a)
    requires AllWellFormed(b)
    ensures IndexAfter(base, a + b) == IndexAfter(IndexAfter(base, a), b)
  {
    if b == [] {
      assert a + b == a;
    } else {
      assert (a + b)[..|a + b| - 1] == a + b[..|b| - 1];
      IndexAfterConcat(base, a, b[..|b| - 1]);
    }
  }

  /** The key/value map after the same batches: recovery is measured against it. */
  function KvAfter(kv: map<Key, Value>, blocks: seq<Block>): map<Key, Value> {
    if blocks == [] then kv
    else
      var prev := KvAfter(kv, blocks[..|blocks| - 1]);
      var b := blocks[|blocks| - 1];
      if b.sealed then ApplyOps(prev, b.ops) else prev
  }

  lemma {:induction false} KvAfterConcat(kv: map<Key, Value>, a: seq<Block>, b: seq<Block>)
    ensures KvAfter(kv, a + b) == KvAfter(KvAfter(kv, a), b)
  {
    if b == [] {
      assert a + b == a;
    } else {
      assert (a + b)[..|a + b| - 1] == a + b[..|b| - 1];
      KvAfterConcat(kv, a, b[..|b| - 1]);
    }
  }

  /** The ids of batches without an end record. */
  function TornIds(blocks: seq<Block>): set<nat> {
    set b <- blocks | !b.sealed && b.ops != [] :: b.id
  }

  /** No batch reuses the id of an earlier batch whose end record is missing. */
  predicate FreshIds(torn: set<nat>, blocks: seq<Block>) {
    blocks == []
    || (var front, last := blocks[..|blocks| - 1], blocks[|blocks| - 1];
        FreshIds(torn, front) && last.id !in torn && last.id !in TornIds(front))
  }

  // ---------- recovery of whole batches ----------

  lemma ReplayOp(s: Recovery, b: Block, i: nat, now: int)
    requires WellFormed(b) && i < |b.ops| && !s.failed
    ensures ReplayChunk(s, OpChunks(b)[i], now)
         == s.(staged := s.staged[b.id := StagedUnder(s.staged, b.id) + [OpIndexRecords(b)[i]]])
  {
  }

  /** Replaying records of one batch only stages them, in order. */
  lemma {:induction false} ReplayStages(s: Recovery, b: Block, n: nat, now: int)
    requires WellFormed(b) && n <= |b.ops| && !s.failed && b.id !in s.staged
    ensures Replay(s, OpChunks(b)[..n], now) == StagedBatch(s, b, n)
  {
    hide OpChunks, OpIndexRecords, ReplayChunk;
    if n > 0 {
      ReplayStages(s, b, n - 1, now);
      assert OpChunks(b)[..n][..n - 1] == OpChunks(b)[..n - 1];
      ReplayOp(StagedBatch(s, b, n - 1), b, n - 1, now);
      StagedBatchNext(s, b, n);
    }
  }

  /** The recovery state after the first `n` records of a batch were staged. */
  function StagedBatch(s: Recovery, b: Block, n: nat): Recovery
    requires |b.ops| <= |b.at| && n <= |b.ops|
  {
    if n == 0 then s else s.(staged := s.staged[b.id := OpIndexRecords(b)[..n]])
  }

  lemma StagedBatchNext(s: Recovery, b: Block, n: nat)
    requires |b.ops| <= |b.at| && 0 < n <= |b.ops| && b.id !in s.staged
    ensures var t := StagedBatch(s, b, n - 1);
            t.(staged := t.staged[b.id := StagedUnder(t.staged, b.id) + [OpIndexRecords(b)[n - 1]]]) == StagedBatch(s, b, n)
  {
    var rs := OpIndexRecords(b);
    hide OpIndexRecords;
    assert rs[..n] == rs[..n - 1] + [rs[n - 1]];
    if n > 1 {
      assert s.staged[b.id := rs[..n - 1]][b.id := rs[..n]] == s.staged[b.id := rs[..n]];
    }
  }

  lemma ReplayEnd(s: Recovery, b: Block, now: int)
    requires WellFormed(b) && b.sealed && !s.failed && b.id !in s.staged
    ensures ReplayChunk(StagedBatch(s, b, |b.ops|), Chunk(EndRecord(b.id), b.at[|b.ops|]), now)
         == s.(index := ApplyIndexRecords(s.index, OpIndexRecords(b)))
  {
    ParseIdUndoesIdBytes(b.id);
    hide OpIndexRecords, ParseId;
    var mid := StagedBatch(s, b, |b.ops|);
    assert OpIndexRecords(b)[..|b.ops|] == OpIndexRecords(b);
    assert StagedUnder(mid.staged, b.id) == OpIndexRecords(b);
    assert mid.staged - {b.id} == s.staged;
  }

  lemma ReplayBlock(s: Recovery, b: Block, now: int)
    requires WellFormed(b) && !s.failed && b.id !in s.staged
    ensures b.sealed ==>
              (Replay(s, BlockChunks(b), now) == s.(index := ApplyIndexRecords(s.index, OpIndexRecords(b))))
    ensures !b.sealed ==> var r := Replay(s, BlockChunks(b), now);
                          r.index == s.index && !r.failed && r.staged.Keys == s.staged.Keys + TornIds([b])
  {
    var cs := BlockChunks(b);
    ReplayStages(s, b, |b.ops|, now);
    hide OpChunks, OpIndexRecords, ReplayChunk, ApplyIndexRecords;
    assert OpChunks(b)[..|b.ops|] == OpChunks(b);
    if b.sealed {
      ReplayEnd(s, b, now);
      assert cs[..|cs| - 1] == OpChunks(b);
    } else {
      assert cs == OpChunks(b);
      assert TornIds([b]) == if b.ops == [] then {} else {b.id};
    }
  }

  lemma TornIdsSnoc(front: seq<Block>, last: Block)
    ensures TornIds(front + [last]) == TornIds(front) + TornIds([last])
  {
    var all := front + [last];
    assert forall b :: b in all <==> b in front || b == last;
  }

  lemma FreshIdsSnoc(torn: set<nat>, front: seq<Block>, last: Block)
    ensures FreshIds(torn, front + [last]) <==> FreshIds(torn, front) && last.id !in torn && last.id !in TornIds(front)
  {
    assert (front + [last])[..|front|] == front;
  }

  /** Recovery theorem: replaying a log of batches gives exactly the effect of its sealed
      batches, applied in log order; only the ids of torn batches stay staged. */
  lemma {:induction false} ReplayBlocks(s: Recovery, blocks: seq<Block>, now: int)
    requires AllWellFormed(blocks)
    requires !s.failed && FreshIds(s.staged.Keys, blocks)
    ensures var r := Replay(s, LogOf(blocks), now);
            !r.failed && r.index == IndexAfter(s.index, blocks)
            && r.staged.Keys == s.staged.Keys + TornIds(blocks)
  {
    if blocks == [] {
      assert TornIds(blocks) == {};
    } else {
      var front, last := blocks[..|blocks| - 1], blocks[|blocks| - 1];
      assert blocks == front + [last];
      FreshIdsSnoc(s.staged.Keys, front, last);
      TornIdsSnoc(front, last);
      ReplayBlocks(s, front, now);
      ReplayBlock(Replay(s, LogOf(front), now), last, now);
      ReplayConcat(s, LogOf(front), BlockChunks(last), now);
    }
  }

  // ---------- crash atomicity ----------

  /** Cutting a log of batches after `n` chunks leaves whole batches followed by at most one
      batch that lost its tail. */
  function CutBlocks(blocks: seq<Block>, n: nat): (r: seq<Block>)
    requires AllWellFormed(blocks)
    requires n <= |LogOf(blocks)|
  {
    if blocks == [] then []
    else
      var front, last := blocks[..|blocks| - 1], blocks[|blocks| - 1];
      var m := |LogOf(front)|;
      if n <= m then CutBlocks(front, n)
      else if n == |LogOf(blocks)| then blocks
      else front + [CutBlock(last, n - m)]
  }

  /** How many of the batches lie wholly in the first `n` chunks. */
  function WholeBlocks(blocks: seq<Block>, n: nat): (k: nat)
    requires AllWellFormed(blocks)
    ensures k <= |blocks|
  {
    if blocks == [] then 0
    else if |LogOf(blocks)| <= n then |blocks|
    else WholeBlocks(blocks[..|blocks| - 1], n)
  }

  /** A batch that lost its tail after `k` chunks. */
  function CutBlock(b: Block, k: nat): Block
    requires WellFormed(b) && k < BlockSize(b)
  {
    Block(b.id, b.ops[..k], b.at[..k], false)
  }

  lemma CutBlockIsPrefix(b: Block, k: nat)
    requires WellFormed(b) && k < BlockSize(b)
    ensures WellFormed(CutBlock(b, k)) && BlockChunks(CutBlock(b, k)) == BlockChunks(b)[..k]
  {
  }

  lemma TakeConcat<T>(a: seq<T>, b: seq<T>, n: nat)
    requires n <= |a| + |b|
    ensures (a + b)[..n] == if n <= |a| then a[..n] else a + b[..n - |a|]
  {
  }

  lemma {:induction false} CutBlocksIsPrefix(blocks: seq<Block>, n: nat)
    requires AllWellFormed(blocks)
    requires n <= |LogOf(blocks)|
    ensures AllWellFormed(CutBlocks(blocks, n))
    ensures LogOf(CutBlocks(blocks, n)) == LogOf(blocks)[..n]
  {
    hide BlockChunks;
    if blocks != [] {
      var front, last := blocks[..|blocks| - 1], blocks[|blocks| - 1];
      var m := |LogOf(front)|;
      if n <= m {
        CutBlocksIsPrefix(front, n);
        TakeConcat(LogOf(front), BlockChunks(last), n);
      } else if n < |LogOf(blocks)| {
        CutBlockIsPrefix(last, n - m);
        LogOfSnoc(front, CutBlock(last, n - m));
        TakeConcat(LogOf(front), BlockChunks(last), n);
      } else {
        assert LogOf(blocks)[..n] == LogOf(blocks);
      }
    }
  }

  lemma {:induction false} CutBlocksKeepsIdsFresh(torn: set<nat>, blocks: seq<Block>, n: nat)
    requires AllWellFormed(blocks)
    requires n <= |LogOf(blocks)| && FreshIds(torn, blocks)
    ensures FreshIds(torn, CutBlocks(blocks, n))
  {
    if blocks != [] {
      var front, last := blocks[..|blocks| - 1], blocks[|blocks| - 1];
      var m := |LogOf(front)|;
      if n <= m {
        CutBlocksKeepsIdsFresh(torn, front, n);
      } else if n < |LogOf(blocks)| {
        FreshIdsSnoc(torn, front, CutBlock(last, n - m));
      }
    }
  }

  lemma {:induction false} CutBlocksMeaning(base: Index, blocks: seq<Block>, n: nat)
    requires AllWellFormed(blocks)
    requires n <= |LogOf(blocks)|
    ensures AllWellFormed(CutBlocks(blocks, n))
    ensures IndexAfter(base, CutBlocks(blocks, n)) == IndexAfter(base, blocks[..WholeBlocks(blocks, n)])
  {
    hide BlockChunks, ApplyIndexRecords, OpIndexRecords;
    CutBlocksIsPrefix(blocks, n);
    if blocks != [] {
      var front, last := blocks[..|blocks| - 1], blocks[|blocks| - 1];
      var m := |LogOf(front)|;
      if n <= m {
        CutBlocksMeaning(base, front, n);
        if n < |LogOf(blocks)| {
          assert front[..WholeBlocks(front, n)] == blocks[..WholeBlocks(blocks, n)];
        } else {
          // the last batch occupies no chunk: it is torn and empty
          WholeBlocksAll(front);
          assert blocks[..|blocks|] == blocks;
          assert front[..|front|] == front;
        }
      } else if n < |LogOf(blocks)| {
        var cut := CutBlocks(blocks, n);
        assert cut[..|cut| - 1] == front;
        WholeBlocksFrom(front, n);
        assert blocks[..|front|] == front;
      } else {
        assert blocks[..|blocks|] == blocks;
      }
    }
  }

  lemma WholeBlocksFrom(blocks: seq<Block>, n: nat)
    requires AllWellFormed(blocks)
    requires |LogOf(blocks)| <= n
    ensures WholeBlocks(blocks, n) == |blocks|
  {
  }

  lemma WholeBlocksAll(blocks: seq<Block>)
    requires AllWellFormed(blocks)
    ensures WholeBlocks(blocks, |LogOf(blocks)|) == |blocks|
  {
  }

  /** Crash atomicity: after a crash that keeps any prefix of the log, recovery yields the
      effect of exactly the batches whose chunks all lie in that prefix. */
  lemma {:induction false} RecoveryIsAtomic(blocks: seq<Block>, n: nat, now: int)
    requires AllWellFormed(blocks)
    requires FreshIds({}, blocks) && n <= |LogOf(blocks)|
    ensures var r := Replay(Recovery(map[], map[], false), LogOf(blocks)[..n], now);
            !r.failed && r.index == IndexAfter(map[], blocks[..WholeBlocks(blocks, n)])
  {
    CutBlocksIsPrefix(blocks, n);
    CutBlocksKeepsIdsFresh({}, blocks, n);
    CutBlocksMeaning(map[], blocks, n);
    var start := Recovery(map[], map[], false);
    assert start.staged.Keys == {};
    ReplayBlocks(start, CutBlocks(blocks, n), now);
  }

  // ---------- a batch id that is used twice ----------

  lemma ReplayTorn(s: Recovery, b: Block, now: int)
    requires WellFormed(b) && !b.sealed && !s.failed && b.id !in s.staged
    ensures Replay(s, BlockChunks(b), now) == StagedBatch(s, b, |b.ops|)
  {
    ReplayStages(s, b, |b.ops|, now);
    hide OpChunks, OpIndexRecords, ReplayChunk;
    assert OpChunks(b)[..|b.ops|] == OpChunks(b) == BlockChunks(b);
  }

  /** The records of a torn batch stay staged under its id while batches with other ids follow. */
  lemma {:induction false} TornStaysStaged(s: Recovery, blocks: seq<Block>, i: nat, now: int)
    requires AllWellFormed(blocks) && !s.failed && FreshIds(s.staged.Keys, blocks)
    requires i < |blocks| && !blocks[i].sealed && blocks[i].ops != []
    ensures StagedUnder(Replay(s, LogOf(blocks), now).staged, blocks[i].id) == OpIndexRecords(blocks[i])
  {
    hide BlockChunks, OpIndexRecords, ApplyIndexRecords;
    var front, last := blocks[..|blocks| - 1], blocks[|blocks| - 1];
    assert blocks == front + [last];
    FreshIdsSnoc(s.staged.Keys, front, last);
    ReplayBlocks(s, front, now);
    ReplayConcat(s, LogOf(front), BlockChunks(last), now);
    var mid := Replay(s, LogOf(front), now);
    ReplayBlock(mid, last, now);
    if !last.sealed {
      ReplayTorn(mid, last, now);
    }
    if i < |front| {
      TornStaysStaged(s, front, i, now);
      assert blocks[i] in front;
    } else {
      assert OpIndexRecords(last)[..|last.ops|] == OpIndexRecords(last);
    }
  }

  /** The recovery state after the first `n` records of a batch were staged behind others of its id. */
  function StagedMore(s: Recovery, b: Block, n: nat): Recovery
    requires |b.ops| <= |b.at| && n <= |b.ops|
  {
    if n == 0 then s else s.(staged := s.staged[b.id := StagedUnder(s.staged, b.id) + OpIndexRecords(b)[..n]])
  }

  lemma {:induction false} ReplayStagesMore(s: Recovery, b: Block, n: nat, now: int)
    requires WellFormed(b) && n <= |b.ops| && !s.failed
    ensures Replay(s, OpChunks(b)[..n], now) == StagedMore(s, b, n)
  {
    hide OpChunks, OpIndexRecords, ReplayChunk;
    if n > 0 {
      ReplayStagesMore(s, b, n - 1, now);
      assert OpChunks(b)[..n][..n - 1] == OpChunks(b)[..n - 1];
      ReplayOp(StagedMore(s, b, n - 1), b, n - 1, now);
      StagedMoreNext(s, b, n);
    }
  }

  lemma StagedMoreNext(s: Recovery, b: Block, n: nat)
    requires |b.ops| <= |b.at| && 0 < n <= |b.ops|
    ensures var t := StagedMore(s, b, n - 1);
            t.(staged := t.staged[b.id := StagedUnder(t.staged, b.id) + [OpIndexRecords(b)[n - 1]]]) == StagedMore(s, b, n)
  {
    var was, rs := StagedUnder(s.staged, b.id), OpIndexRecords(b);
    hide OpIndexRecords;
    assert rs[..n] == rs[..n - 1] + [rs[n - 1]];
    assert was + rs[..n] == was + rs[..n - 1] + [rs[n - 1]];
    assert n == 1 ==> was + rs[..n - 1] == was;
    assert s.staged[b.id := was + rs[..n - 1]][b.id := was + rs[..n]] == s.staged[b.id := was + rs[..n]];
  }

  /** The end record of a batch releases everything that is staged under its id. */
  lemma ReplayReleases(s: Recovery, b: Block, now: int)
    requires WellFormed(b) && b.sealed && !s.failed
    ensures Replay(s, BlockChunks(b), now).index == ApplyIndexRecords(s.index, StagedUnder(s.staged, b.id) + OpIndexRecords(b))
  {
    ReplayStagesMore(s, b, |b.ops|, now);
    ParseIdUndoesIdBytes(b.id);
    hide OpIndexRecords, OpChunks, ParseId, ApplyIndexRecords;
    var cs, rs := BlockChunks(b), OpIndexRecords(b);
    assert cs[..|cs| - 1] == OpChunks(b) == OpChunks(b)[..|b.ops|];
    assert rs[..|b.ops|] == rs;
    assert StagedUnder(s.staged, b.id) + [] == StagedUnder(s.staged, b.id);
    assert StagedUnder(StagedMore(s, b, |b.ops|).staged, b.id) == StagedUnder(s.staged, b.id) + rs;
  }

  /** The freshness of ids is needed: when a later batch reuses the id of a torn batch, its end record also releases the
      torn batch's records, whatever lies before and between the two. */
  lemma ReusedIdAppliesTornBatch(before: seq<Block>, torn: Block, between: seq<Block>, late: Block, now: int)
    requires AllWellFormed(before) && AllWellFormed(between) && WellFormed(torn) && WellFormed(late)
    requires !torn.sealed && late.sealed && torn.id == late.id && late.id !in TornIds(between)
    requires FreshIds({}, before + [torn] + between)
    ensures var blocks, built := before + [torn] + between, IndexAfter(map[], before + between);
            AllWellFormed(blocks + [late])
            && IndexAfter(map[], blocks + [late]) == ApplyIndexRecords(built, OpIndexRecords(late))
            && KvAfter(map[], blocks + [late]) == ApplyOps(KvAfter(map[], before + between), late.ops)
            && Replay(Recovery(map[], map[], false), LogOf(blocks + [late]), now).index
               == ApplyIndexRecords(built, OpIndexRecords(torn) + OpIndexRecords(late))
  {
    hide BlockChunks, OpIndexRecords, ApplyIndexRecords, ApplyOps, TornIds, FreshIds;
    var start, blocks := Recovery(map[], map[], false), before + [torn] + between;
    assert AllWellFormed(blocks);
    SkipTorn(before, torn, between);
    LogOfSnoc(blocks, late);
    assert (blocks + [late])[..|blocks|] == blocks;
    assert start.staged.Keys == {};
    ReplayBlocks(start, blocks, now);
    ReplayConcat(start, LogOf(blocks), BlockChunks(late), now);
    TornRecords(before, torn, between, now);
    ReplayReleases(Replay(start, LogOf(blocks), now), late, now);
  }

  lemma SkipTorn(before: seq<Block>, torn: Block, between: seq<Block>)
    requires AllWellFormed(before) && AllWellFormed(between) && WellFormed(torn) && !torn.sealed
    ensures AllWellFormed(before + [torn] + between)
    ensures IndexAfter(map[], before + [torn] + between) == IndexAfter(map[], before + between)
    ensures KvAfter(map[], before + [torn] + between) == KvAfter(map[], before + between)
  {
    hide OpIndexRecords, ApplyIndexRecords, ApplyOps, WellFormed;
    IndexAfterConcat(map[], before, between);
    IndexAfterConcat(map[], before + [torn], between);
    KvAfterConcat(map[], before, between);
    KvAfterConcat(map[], before + [torn], between);
    assert (before + [torn])[..|before|] == before;
  }

  lemma TornRecords(before: seq<Block>, torn: Block, between: seq<Block>, now: int)
    requires AllWellFormed(before + [torn] + between) && !torn.sealed && torn.id !in TornIds(between)
    requires FreshIds({}, before + [torn] + between)
    ensures |torn.ops| <= |torn.at|
    ensures StagedUnder(Replay(Recovery(map[], map[], false), LogOf(before + [torn] + between), now).staged, torn.id)
         == OpIndexRecords(torn)
  {
    hide BlockChunks, ApplyIndexRecords;
    var start, blocks := Recovery(map[], map[], false), before + [torn] + between;
    assert blocks[|before|] == torn;
    assert start.staged.Keys == {};
    if torn.ops != [] {
      TornStaysStaged(start, blocks, |before|, now);
    } else {
      ReplayBlocks(start, blocks, now);
      FreshIdHere(before, torn, between);
    }
  }

  lemma FreshIdHere(before: seq<Block>, torn: Block, between: seq<Block>)
    requires FreshIds({}, before + [torn] + between) && torn.ops == [] && torn.id !in TornIds(between)
    ensures torn.id !in TornIds(before + [torn] + between)
  {
    var blocks := before + [torn] + between;
    FreshIdsPrefix(blocks, |before| + 1);
    assert blocks[..|before| + 1] == before + [torn];
    FreshIdsSnoc({}, before, torn);
    forall b | b in blocks && !b.sealed && b.ops != []
      ensures b.id != torn.id
    {
      assert b in before || b == torn || b in between;
    }
  }

  lemma {:induction false} FreshIdsPrefix(blocks: seq<Block>, n: nat)
    requires FreshIds({}, blocks) && n <= |blocks|
    ensures FreshIds({}, blocks[..n])
  {
    if n < |blocks| {
      FreshIdsPrefix(blocks[..|blocks| - 1], n);
      assert blocks[..|blocks| - 1][..n] == blocks[..n];
    } else {
      assert blocks[..n] == blocks;
    }
  }
}
