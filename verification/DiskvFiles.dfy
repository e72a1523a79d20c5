/** Segment files, reads by position, and how a batch of operations moves the index. */
module DiskvFiles {
  import opened Common
  import opened DiskvLog

  /** The chunks of each segment file, by segment id. */
  type Files = map<nat, seq<Chunk>>

  function Segment(files: Files, id: nat): seq<Chunk> {
    if id in files then files[id] else []
  }

  /** All chunks of segments `lo..=hi`, in reading order. */
  function ReadRange(files: Files, lo: nat, hi: nat): seq<Chunk>
    requires 1 <= lo
  {
    if hi < lo then [] else ReadRange(files, lo, hi - 1) + Segment(files, hi)
  }

  predicate DistinctPositions(cs: seq<Chunk>) {
    forall i, j :: 0 <= i < j < |cs| ==> !PositionEquals(cs[i].pos, cs[j].pos)
  }

  /** Positions identify chunks: each names its own segment and no two are equal. */
  predicate PositionsOk(files: Files) {
    forall s <- files ::
      DistinctPositions(files[s]) && forall i :: 0 <= i < |files[s]| ==> files[s][i].pos.segmentId == s
  }

  /** The record at a position, as the log reader finds it. */
  function Find(cs: seq<Chunk>, pos: Position): Option<LogRecord> {
    if cs == [] then None
    else if PositionEquals(cs[0].pos, pos) then Some(cs[0].record)
    else Find(cs[1..], pos)
  }

  function ReadAt(files: Files, pos: Position): Option<LogRecord> {
    Find(Segment(files, pos.segmentId), pos)
  }

  /** Reading through the index gives exactly the key/value map, and every indexed position
      holds a normal record of its key. */
  predicate Represents(files: Files, index: Index, kv: map<Key, Value>) {
    index.Keys == kv.Keys
    && forall k <- index ::
         ReadAt(files, index[k]).Some?
         && ReadAt(files, index[k]).value.typ.Normal?
         && ReadAt(files, index[k]).value.key == k
         && ReadAt(files, index[k]).value.value == kv[k]
         && ReadAt(files, index[k]).value.expire == 0
  }

  datatype Hint = Hint(key: Key, pos: Position)

  /** `loadIndexFromHintFile`: the hints are put into the index in file order. */
  function HintIndex(hints: seq<Hint>): Index {
    if hints == [] then map[]
    else HintIndex(hints[..|hints| - 1])[hints[|hints| - 1].key := hints[|hints| - 1].pos]
  }

  // ---------- reading ----------

  lemma {:induction false} FindsChunk(cs: seq<Chunk>, i: nat, pos: Position)
    requires DistinctPositions(cs) && i < |cs| && PositionEquals(cs[i].pos, pos)
    ensures Find(cs, pos) == Some(cs[i].record)
  {
    if i > 0 {
      assert !PositionEquals(cs[0].pos, cs[i].pos);
      FindsChunk(cs[1..], i - 1, pos);
    }
  }

  lemma {:induction false} FindAppend(cs: seq<Chunk>, more: seq<Chunk>, pos: Position)
    requires Find(cs, pos).Some?
    ensures Find(cs + more, pos) == Find(cs, pos)
  {
    if !PositionEquals(cs[0].pos, pos) {
      FindAppend(cs[1..], more, pos);
      assert (cs + more)[1..] == cs[1..] + more;
    }
  }

  lemma {:induction false} FoundSomewhere(cs: seq<Chunk>, pos: Position) returns (i: nat)
    requires Find(cs, pos).Some?
    ensures i < |cs| && PositionEquals(cs[i].pos, pos) && cs[i].record == Find(cs, pos).value
  {
    if PositionEquals(cs[0].pos, pos) {
      i := 0;
    } else {
      i := FoundSomewhere(cs[1..], pos);
      i := i + 1;
    }
  }

  lemma {:induction false} ReadRangeFrame(f: Files, g: Files, lo: nat, hi: nat)
    requires 1 <= lo
    requires forall s :: lo <= s <= hi ==> Segment(f, s) == Segment(g, s)
    ensures ReadRange(f, lo, hi) == ReadRange(g, lo, hi)
  {
    if lo <= hi {
      ReadRangeFrame(f, g, lo, hi - 1);
    }
  }

  lemma {:induction false} ReadRangeChunk(files: Files, lo: nat, hi: nat, i: nat)
    requires 1 <= lo && PositionsOk(files) && i < |ReadRange(files, lo, hi)|
    ensures var c := ReadRange(files, lo, hi)[i];
            lo <= c.pos.segmentId <= hi && ReadAt(files, c.pos) == Some(c.record)
            && c.pos.segmentId in files
  {
    var front := ReadRange(files, lo, hi - 1);
    if i < |front| {
      ReadRangeChunk(files, lo, hi - 1, i);
    } else {
      FindsChunk(files[hi], i - |front|, files[hi][i - |front|].pos);
    }
  }

  lemma {:induction false} ReadRangeDistinct(files: Files, lo: nat, hi: nat)
    requires 1 <= lo && PositionsOk(files)
    ensures DistinctPositions(ReadRange(files, lo, hi))
  {
    if lo <= hi {
      ReadRangeDistinct(files, lo, hi - 1);
      var front, all := ReadRange(files, lo, hi - 1), ReadRange(files, lo, hi);
      forall i, j | 0 <= i < j < |all|
        ensures !PositionEquals(all[i].pos, all[j].pos)
      {
        if i < |front| <= j {
          ReadRangeChunk(files, lo, hi - 1, i);
          assert hi in files;
        } else if |front| <= i {
          assert hi in files;
          assert !PositionEquals(files[hi][i - |front|].pos, files[hi][j - |front|].pos);
        }
      }
    }
  }

  /** A chunk found by position lies in every range that covers its segment. */
  lemma {:induction false} FoundInRange(files: Files, lo: nat, hi: nat, pos: Position) returns (i: nat)
    requires 1 <= lo <= pos.segmentId <= hi
    requires ReadAt(files, pos).Some?
    ensures i < |ReadRange(files, lo, hi)| && PositionEquals(ReadRange(files, lo, hi)[i].pos, pos)
    ensures ReadRange(files, lo, hi)[i].record == ReadAt(files, pos).value
  {
    if pos.segmentId == hi {
      i := FoundSomewhere(files[hi], pos);
      i := i + |ReadRange(files, lo, hi - 1)|;
    } else {
      i := FoundInRange(files, lo, hi - 1, pos);
    }
  }

  // ---------- which keys a run of batches decides ----------

  predicate OpsTouch(ops: seq<Op>, k: Key) {
    exists i :: 0 <= i < |ops| && ops[i].key == k
  }

  /** A sealed batch among `blocks` writes or deletes `k`. */
  predicate Touched(blocks: seq<Block>, k: Key) {
    exists i :: 0 <= i < |blocks| && blocks[i].sealed && OpsTouch(blocks[i].ops, k)
  }

  predicate SameAt<V(==)>(m: map<Key, V>, n: map<Key, V>, k: Key) {
    (k in m <==> k in n) && (k in m ==> m[k] == n[k])
  }

  lemma {:induction false} OpsUntouched(index: Index, b: Block, n: nat, k: Key)
    requires WellFormed(b) && n <= |b.ops| && !OpsTouch(b.ops[..n], k)
    ensures SameAt(ApplyIndexRecords(index, OpIndexRecords(b)[..n]), index, k)
  {
    if n > 0 {
      assert b.ops[..n][n - 1].key != k;
      assert !OpsTouch(b.ops[..n - 1], k);
      OpsUntouched(index, b, n - 1, k);
      assert OpIndexRecords(b)[..n][..n - 1] == OpIndexRecords(b)[..n - 1];
    }
  }

  /** The last operation on `k` decides its index entry, whatever the index was before. */
  lemma {:induction false} OpsDecide(m: Index, m': Index, b: Block, n: nat, k: Key)
    requires WellFormed(b) && n <= |b.ops| && OpsTouch(b.ops[..n], k)
    ensures var r, r' := ApplyIndexRecords(m, OpIndexRecords(b)[..n]), ApplyIndexRecords(m', OpIndexRecords(b)[..n]);
            SameAt(r, r', k) && (k in r ==> r[k] in b.at)
  {
    assert OpIndexRecords(b)[..n][..n - 1] == OpIndexRecords(b)[..n - 1];
    assert OpIndexRecords(b)[..n][n - 1] == OpIndexRecords(b)[n - 1];
    if b.ops[n - 1].key != k {
      var i :| 0 <= i < n && b.ops[..n][i].key == k;
      assert b.ops[..n - 1][i].key == k;
      OpsDecide(m, m', b, n - 1, k);
    }
  }

  lemma {:induction false} IndexAfterUntouched(base: Index, blocks: seq<Block>, k: Key)
    requires AllWellFormed(blocks) && !Touched(blocks, k)
    ensures SameAt(IndexAfter(base, blocks), base, k)
  {
    if blocks != [] {
      var front, last := blocks[..|blocks| - 1], blocks[|blocks| - 1];
      assert !Touched(front, k);
      IndexAfterUntouched(base, front, k);
      if last.sealed {
        assert last.ops[..|last.ops|] == last.ops;
        assert OpIndexRecords(last)[..|last.ops|] == OpIndexRecords(last);
        OpsUntouched(IndexAfter(base, front), last, |last.ops|, k);
      }
    }
  }

  lemma {:induction false} IndexAfterTouched(base: Index, base': Index, blocks: seq<Block>, k: Key)
    requires AllWellFormed(blocks) && Touched(blocks, k)
    ensures SameAt(IndexAfter(base, blocks), IndexAfter(base', blocks), k)
    ensures k in IndexAfter(base, blocks) ==>
              exists i :: 0 <= i < |blocks| && IndexAfter(base, blocks)[k] in blocks[i].at
  {
    var front, last := blocks[..|blocks| - 1], blocks[|blocks| - 1];
    assert last.ops[..|last.ops|] == last.ops;
    assert OpIndexRecords(last)[..|last.ops|] == OpIndexRecords(last);
    if last.sealed && OpsTouch(last.ops, k) {
      OpsDecide(IndexAfter(base, front), IndexAfter(base', front), last, |last.ops|, k);
    } else {
      var i :| 0 <= i < |blocks| && blocks[i].sealed && OpsTouch(blocks[i].ops, k);
      assert front[i] == blocks[i];
      assert Touched(front, k);
      IndexAfterTouched(base, base', front, k);
      if last.sealed {
        OpsUntouched(IndexAfter(base, front), last, |last.ops|, k);
        OpsUntouched(IndexAfter(base', front), last, |last.ops|, k);
      }
      if k in IndexAfter(base, blocks) {
        var j :| 0 <= j < |front| && IndexAfter(base, front)[k] in front[j].at;
        assert IndexAfter(base, blocks)[k] in blocks[j].at;
      }
    }
  }

  lemma {:induction false} KvUntouched(kv: map<Key, Value>, ops: seq<Op>, k: Key)
    requires !OpsTouch(ops, k)
    ensures SameAt(ApplyOps(kv, ops), kv, k)
  {
    if ops != [] {
      var front := ops[..|ops| - 1];
      assert !OpsTouch(front, k);
      KvUntouched(kv, front, k);
    }
  }

  // ---------- a block's chunks in the log ----------

  /** Every position of a block is the position of one of the log's chunks. */
  lemma {:induction false} BlockPositionInLog(blocks: seq<Block>, i: nat, p: Position) returns (j: nat)
    requires AllWellFormed(blocks) && i < |blocks| && p in blocks[i].at
    ensures j < |LogOf(blocks)| && LogOf(blocks)[j].pos == p
  {
    var front, last := blocks[..|blocks| - 1], blocks[|blocks| - 1];
    if i == |blocks| - 1 {
      var n :| 0 <= n < |last.at| && last.at[n] == p;
      assert BlockChunks(last)[n].pos == p;
      j := |LogOf(front)| + n;
    } else {
      j := BlockPositionInLog(front, i, p);
    }
  }

  lemma OpRepresents(files: Files, index: Index, kv: map<Key, Value>, op: Op, id: nat, pos: Position)
    requires Represents(files, index, kv)
    requires ReadAt(files, pos) == Some(OpRecord(op, id))
    ensures Represents(files, ApplyIndexRecord(index, IndexRecord(op.key, OpRecord(op, id).typ, pos)), ApplyOp(kv, op))
  {
    var index' := ApplyIndexRecord(index, IndexRecord(op.key, OpRecord(op, id).typ, pos));
    forall k | k in index'
      ensures ReadAt(files, index'[k]).Some?
    {
      assert k == op.key || k in index;
    }
  }

  /** Applying a batch's operations to index and map in step keeps the two together. */
  lemma {:induction false} CommitRepresents(files: Files, index: Index, kv: map<Key, Value>, b: Block, n: nat)
    requires WellFormed(b) && n <= |b.ops|
    requires Represents(files, index, kv)
    requires forall i :: 0 <= i < |b.ops| ==> ReadAt(files, b.at[i]) == Some(OpRecord(b.ops[i], b.id))
    ensures Represents(files, ApplyIndexRecords(index, OpIndexRecords(b)[..n]), ApplyOps(kv, b.ops[..n]))
  {
    if n > 0 {
      CommitRepresents(files, index, kv, b, n - 1);
      assert OpIndexRecords(b)[..n][..n - 1] == OpIndexRecords(b)[..n - 1];
      assert OpIndexRecords(b)[..n][n - 1] == OpIndexRecords(b)[n - 1];
      assert b.ops[..n][..n - 1] == b.ops[..n - 1];
      assert b.ops[..n][n - 1] == b.ops[n - 1];
      OpRepresents(files, ApplyIndexRecords(index, OpIndexRecords(b)[..n - 1]), ApplyOps(kv, b.ops[..n - 1]),
                   b.ops[n - 1], b.id, b.at[n - 1]);
    }
  }

  lemma RepresentsInMoreFiles(files: Files, files': Files, index: Index, kv: map<Key, Value>)
    requires Represents(files, index, kv)
    requires forall p :: ReadAt(files, p).Some? ==> ReadAt(files', p) == ReadAt(files, p)
    ensures Represents(files', index, kv)
  {
    forall k | k in index
      ensures ReadAt(files', index[k]) == ReadAt(files, index[k])
    {
    }
  }
}
