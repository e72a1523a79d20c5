/** Compaction beside commits, its installation, and recovery after a crash. */
module DiskvMerge {
  import opened Common
  import opened DiskvLog
  import opened DiskvFiles
  import opened DiskvStore

  // ---------- where the index points relative to the rotation ----------

  lemma {:induction false} HintKeys(hints: seq<Hint>, k: Key)
    ensures k in HintIndex(hints) <==> exists i :: 0 <= i < |hints| && hints[i].key == k
  {
    if hints != [] {
      var front := hints[..|hints| - 1];
      HintKeys(front, k);
      assert forall i :: 0 <= i < |front| ==> front[i] == hints[i];
    }
  }

  lemma TouchedSplit(blocks: seq<Block>, cut: nat, k: Key)
    requires cut <= |blocks|
    ensures Touched(blocks, k) <==> Touched(blocks[..cut], k) || Touched(blocks[cut..], k)
  {
    var a, b := blocks[..cut], blocks[cut..];
    assert forall i :: 0 <= i < |a| ==> a[i] == blocks[i];
    assert forall i :: 0 <= i < |b| ==> b[i] == blocks[cut + i];
    if Touched(blocks, k) {
      var i :| 0 <= i < |blocks| && blocks[i].sealed && OpsTouch(blocks[i].ops, k);
      if i < cut {
        assert a[i].sealed && OpsTouch(a[i].ops, k);
      } else {
        assert b[i - cut].sealed && OpsTouch(b[i - cut].ops, k);
      }
    }
  }

  /** A key decided by batches in a range of segments is indexed in that range. */
  lemma TouchedPosition(files: Files, lo: nat, hi: nat, base: Index, blocks: seq<Block>, k: Key)
    requires 1 <= lo && PositionsOk(files) && AllWellFormed(blocks)
    requires ReadRange(files, lo, hi) == LogOf(blocks)
    requires Touched(blocks, k) && k in IndexAfter(base, blocks)
    ensures lo <= IndexAfter(base, blocks)[k].segmentId <= hi
  {
    IndexAfterTouched(base, base, blocks, k);
    var p := IndexAfter(base, blocks)[k];
    var i :| 0 <= i < |blocks| && p in blocks[i].at;
    var j := BlockPositionInLog(blocks, i, p);
    ReadRangeChunk(files, lo, hi, j);
  }

  lemma SplitIndex(s: Store, h: History)
    requires LogInv(s, h) && SplitInv(s, h)
    ensures s.index == IndexAfter(IndexAfter(HintIndex(s.hint), h.blocks[..h.cut]), h.blocks[h.cut..])
  {
    assert h.blocks == h.blocks[..h.cut] + h.blocks[h.cut..];
    IndexAfterConcat(HintIndex(s.hint), h.blocks[..h.cut], h.blocks[h.cut..]);
  }

  /** The rotation separates the index: keys decided since then lie above the limit, all other
      keys at or below it. */
  lemma IndexSplitsAtLimit(s: Store, h: History, k: Key)
    requires LogInv(s, h) && SplitInv(s, h) && k in s.index
    ensures Touched(h.blocks[h.cut..], k) <==> s.index[k].segmentId > s.merge.limit
  {
    hide ReadRange, LogOf, IndexAfter, FreshIds, Represents, Touched;
    var a, b := h.blocks[..h.cut], h.blocks[h.cut..];
    var base := HintIndex(s.hint);
    var mid := IndexAfter(base, a);
    SplitIndex(s, h);
    if Touched(b, k) {
      TouchedPosition(s.files, s.merge.limit + 1, s.active, mid, b, k);
    } else {
      IndexAfterUntouched(mid, b, k);
      if Touched(a, k) {
        TouchedPosition(s.files, s.mergeFin + 1, s.merge.limit, base, a, k);
      } else {
        IndexAfterUntouched(base, a, k);
        TouchedSplit(h.blocks, h.cut, k);
      }
    }
  }

  lemma ReadAtEqualPositions(files: Files, p: Position, q: Position)
    requires PositionEquals(p, q)
    ensures ReadAt(files, p) == ReadAt(files, q)
  {
    FindEqualPositions(Segment(files, p.segmentId), p, q);
  }

  lemma FindEqualPositions(cs: seq<Chunk>, p: Position, q: Position)
    requires PositionEquals(p, q)
    ensures Find(cs, p) == Find(cs, q)
  {
  }

  /** The old chunk a live index entry points at is that key's current record. */
  lemma IndexedChunkIsCurrent(s: Store, h: History, i: nat)
    requires LogInv(s, h) && i < |OldChunks(s)| && PointsAt(s.index, OldChunks(s)[i])
    ensures var c := OldChunks(s)[i];
            c.record == LogRecord(c.record.key, h.kv[c.record.key], Normal, c.record.batchId, 0)
  {
    var c := OldChunks(s)[i];
    ReadRangeChunk(s.files, 1, s.merge.limit, i);
    ReadAtEqualPositions(s.files, s.index[c.record.key], c.pos);
  }

  // ---------- begin, scan, finish ----------

  function HistoryAfterBegin(s: Store, h: History): History {
    if IsEmptyLog(s) then h else h.(cut := |h.blocks|)
  }

  lemma RotationKeepsReads(s: Store)
    requires FilesInv(s.files, s.active)
    ensures var files := s.files[s.active + 1 := []];
            FilesInv(files, s.active + 1)
            && (forall id: nat :: Segment(files, id) == Segment(s.files, id))
            && (forall p :: ReadAt(files, p) == ReadAt(s.files, p))
  {
  }

  lemma BeginKeepsLogInv(s: Store, h: History)
    requires LogInv(s, h) && !IsEmptyLog(s)
    ensures LogInv(AfterBeginMerge(s), h.(cut := |h.blocks|)) && 1 <= s.active && s.mergeFin < s.active
    ensures ReadRange(AfterBeginMerge(s).files, s.mergeFin + 1, s.active) == LogOf(h.blocks)
  {
    hide IndexAfter, HintIndex, BlocksInv, Represents, ReadAt, HintsInv, LogOf, PositionsOk;
    var t := AfterBeginMerge(s);
    RotationKeepsReads(s);
    ReadRangeFrame(s.files, t.files, s.mergeFin + 1, s.active);
    assert ReadRange(t.files, s.mergeFin + 1, t.active) == ReadRange(t.files, s.mergeFin + 1, s.active) + Segment(t.files, t.active);
    RepresentsInMoreFiles(s.files, t.files, s.index, h.kv);
  }

  lemma BeginKeepsInv(s: Store, h: History)
    requires Inv(s, h)
    ensures Inv(AfterBeginMerge(s), HistoryAfterBegin(s, h))
  {
    hide LogInv;
    if !IsEmptyLog(s) {
      BeginKeepsLogInv(s, h);
      EmptyMergeInv(AfterBeginMerge(s), h.(cut := |h.blocks|));
    }
  }

  /** A merge directory that was just created, over a segment that was just rotated. */
  lemma EmptyMergeInv(s: Store, h: History)
    requires LogInv(s, h) && h.cut == |h.blocks| && s.active > 1 && s.mergeFin < s.active - 1
    requires s.merge == Merge(Scanning, map[1 := []], 1, [], s.active - 1, 0) && Segment(s.files, s.active) == []
    requires ReadRange(s.files, s.mergeFin + 1, s.active - 1) == LogOf(h.blocks)
    ensures MergeInv(s, h)
  {
    hide IndexAfter, FreshIds, Represents, ReadAt, HintsInv;
    assert h.blocks[..h.cut] == h.blocks && h.blocks[h.cut..] == [];
    assert ReadRange(s.files, s.active, s.active) == [];
  }

  /** A surviving key has not been copied before, so nothing is copied twice. */
  lemma SurvivorIsNew(s: Store, h: History, now: int)
    requires LogInv(s, h) && MergeInv(s, h) && s.merge.scanned < |OldChunks(s)|
    requires Survives(s.index, OldChunks(s)[s.merge.scanned], now)
    ensures OldChunks(s)[s.merge.scanned].record.key !in HintIndex(s.merge.hints)
  {
    var all, n := OldChunks(s), s.merge.scanned;
    var k := all[n].record.key;
    ReadRangeChunk(s.files, 1, s.merge.limit, n);
    IndexSplitsAtLimit(s, h, k);
    ReadRangeDistinct(s.files, 1, s.merge.limit);
    forall i | 0 <= i < n
      ensures !PositionEquals(all[..n][i].pos, s.index[k])
    {
      assert !PositionEquals(all[i].pos, all[n].pos);
    }
    assert !Sound(h.blocks[h.cut..], all[..n], s.index, h.kv, s.merge, k);
  }

  lemma CopyKeepsFiles(m: Merge, r: LogRecord, rotate: bool, pos: Position)
    requires FilesInv(m.files, m.active)
    requires FreshPositions(m.files, TargetSegment(m.active, rotate), [pos])
    ensures var m' := CopyRecord(m, r, rotate, pos);
            FilesInv(m'.files, m'.active) && ReadAt(m'.files, pos) == Some(r.(batchId := 0))
            && (forall p :: ReadAt(m.files, p).Some? ==> ReadAt(m'.files, p) == ReadAt(m.files, p))
            && HintIndex(m'.hints) == HintIndex(m.hints)[r.key := pos]
  {
    var m' := CopyRecord(m, r, rotate, pos);
    var seg := TargetSegment(m.active, rotate);
    var before, c := Segment(m.files, seg), Chunk(r.(batchId := 0), pos);
    assert [pos][0] == pos;
    assert DistinctPositions(before + [c]);
    FindsChunk(before + [c], |before|, pos);
    forall p | ReadAt(m.files, p).Some?
      ensures ReadAt(m'.files, p) == ReadAt(m.files, p)
    {
      if p.segmentId == seg {
        FindAppend(before, [c], p);
      }
    }
    assert m'.hints[..|m'.hints| - 1] == m.hints;
  }

  lemma CopyKeepsSound(m: Merge, r: LogRecord, rotate: bool, pos: Position,
                       later: seq<Block>, cs: seq<Chunk>, c: Chunk, index: Index, kv: map<Key, Value>, k: Key)
    requires FilesInv(m.files, m.active) && TargetSegment(m.active, rotate) <= m.limit
    requires FreshPositions(m.files, TargetSegment(m.active, rotate), [pos])
    requires c.record == r && PointsAt(index, c) && r.key in kv && r == LogRecord(r.key, kv[r.key], Normal, r.batchId, 0)
    requires k == r.key || Sound(later, cs, index, kv, m, k)
    ensures Sound(later, cs + [c], index, kv, CopyRecord(m, r, rotate, pos), k)
  {
    var m' := CopyRecord(m, r, rotate, pos);
    CopyKeepsFiles(m, r, rotate, pos);
    assert [pos][0] == pos;
    if k == r.key {
      assert (cs + [c])[|cs|] == c;
      assert HintReads(m'.files, HintIndex(m'.hints), m'.limit, k, kv[k]);
    } else if !Touched(later, k) {
      var i :| 0 <= i < |cs| && PositionEquals(cs[i].pos, index[k]);
      assert (cs + [c])[i] == cs[i];
      assert HintReads(m'.files, HintIndex(m'.hints), m'.limit, k, kv[k]);
    }
  }

  /** What a scan step must establish about the new merge directory. */
  lemma ScanStepInv(s: Store, h: History, m: Merge)
    requires SplitInv(s, h) && s.merge.scanned < |OldChunks(s)|
    requires m.phase.Scanning? && m.limit == s.merge.limit && m.scanned == s.merge.scanned + 1
    requires FilesInv(m.files, m.active) && m.active <= m.limit && DistinctHints(m.hints)
    requires var cs := ScannedChunks(s) + [OldChunks(s)[s.merge.scanned]];
             Covered(cs, s.index, HintIndex(m.hints)) && AllSound(h.blocks[h.cut..], cs, s.index, h.kv, m)
    ensures MergeInv(s.(merge := m), h)
  {
    hide ReadRange, LogOf, Covered, AllSound, FilesInv;
    var t := s.(merge := m);
    assert OldChunks(t) == OldChunks(s);
    assert ScannedChunks(t) == ScannedChunks(s) + [OldChunks(s)[s.merge.scanned]];
  }

  lemma CopyKeepsAllSound(s: Store, h: History, rotate: bool, pos: Position, now: int)
    requires LogInv(s, h) && MergeInv(s, h) && CanScan(s, rotate, pos)
    requires Survives(s.index, OldChunks(s)[s.merge.scanned], now)
    ensures var m, c := AfterScan(s, rotate, pos, now).merge, OldChunks(s)[s.merge.scanned];
            AllSound(h.blocks[h.cut..], ScannedChunks(s) + [c], s.index, h.kv, m)
  {
    var c, cs, later := OldChunks(s)[s.merge.scanned], ScannedChunks(s), h.blocks[h.cut..];
    var m := CopyRecord(s.merge, c.record, rotate, pos);
    CopyKeepsFiles(s.merge, c.record, rotate, pos);
    IndexedChunkIsCurrent(s, h, s.merge.scanned);
    forall k | k in HintIndex(m.hints)
      ensures Sound(later, cs + [c], s.index, h.kv, m, k)
    {
      CopyKeepsSound(s.merge, c.record, rotate, pos, later, cs, c, s.index, h.kv, k);
    }
  }

  lemma CopyKeepsMergeInv(s: Store, h: History, rotate: bool, pos: Position, now: int)
    requires LogInv(s, h) && MergeInv(s, h) && CanScan(s, rotate, pos)
    requires Survives(s.index, OldChunks(s)[s.merge.scanned], now)
    ensures MergeInv(AfterScan(s, rotate, pos, now), h)
  {
    var c, cs := OldChunks(s)[s.merge.scanned], ScannedChunks(s);
    var m := CopyRecord(s.merge, c.record, rotate, pos);
    assert FilesInv(m.files, m.active) && HintIndex(m.hints) == HintIndex(s.merge.hints)[c.record.key := pos] by {
      CopyKeepsFiles(s.merge, c.record, rotate, pos);
    }
    CopyKeepsAllSound(s, h, rotate, pos, now);
    SurvivorIsNew(s, h, now);
    DistinctHintsSnoc(s.merge.hints, Hint(c.record.key, pos));
    CoveredSnoc(cs, c, s.index, HintIndex(s.merge.hints), HintIndex(m.hints));
    ScanStepInv(s, h, m);
  }

  lemma DistinctHintsSnoc(hints: seq<Hint>, hint: Hint)
    requires DistinctHints(hints) && hint.key !in HintIndex(hints)
    ensures DistinctHints(hints + [hint])
  {
    HintKeys(hints, hint.key);
  }

  lemma CoveredSnoc(cs: seq<Chunk>, c: Chunk, index: Index, hints: Index, hints': Index)
    requires Covered(cs, index, hints) && hints.Keys <= hints'.Keys
    requires PointsAt(index, c) && c.record.typ.Normal? ==> c.record.key in hints'
    ensures Covered(cs + [c], index, hints')
  {
  }

  lemma SkipKeepsMergeInv(s: Store, h: History, rotate: bool, pos: Position, now: int)
    requires LogInv(s, h) && MergeInv(s, h) && CanScan(s, rotate, pos)
    requires !Survives(s.index, OldChunks(s)[s.merge.scanned], now)
    ensures MergeInv(AfterScan(s, rotate, pos, now), h)
  {
    var c, cs, later := OldChunks(s)[s.merge.scanned], ScannedChunks(s), h.blocks[h.cut..];
    var m := s.merge.(scanned := s.merge.scanned + 1);
    if PointsAt(s.index, c) {
      IndexedChunkIsCurrent(s, h, s.merge.scanned);
    }
    CoveredSnoc(cs, c, s.index, HintIndex(s.merge.hints), HintIndex(m.hints));
    forall k | k in HintIndex(m.hints)
      ensures Sound(later, cs + [c], s.index, h.kv, m, k)
    {
      SoundInMoreChunks(later, cs, c, s.index, h.kv, s.merge, m, k);
    }
    ScanStepInv(s, h, m);
  }

  lemma SoundInMoreChunks(later: seq<Block>, cs: seq<Chunk>, c: Chunk, index: Index, kv: map<Key, Value>, m: Merge, m': Merge, k: Key)
    requires Sound(later, cs, index, kv, m, k)
    requires m'.files == m.files && m'.hints == m.hints && m'.limit == m.limit
    ensures Sound(later, cs + [c], index, kv, m', k)
  {
    if !Touched(later, k) {
      var i :| 0 <= i < |cs| && PositionEquals(cs[i].pos, index[k]);
      assert (cs + [c])[i] == cs[i];
    }
  }

  lemma ScanKeepsInv(s: Store, h: History, rotate: bool, pos: Position, now: int)
    requires Inv(s, h) && CanScan(s, rotate, pos)
    ensures Inv(AfterScan(s, rotate, pos, now), h)
  {
    hide MergeInv, ReadRange, LogOf, IndexAfter, HintIndex, Represents, HintsInv, FilesInv, BlocksInv;
    if Survives(s.index, OldChunks(s)[s.merge.scanned], now) {
      CopyKeepsMergeInv(s, h, rotate, pos, now);
    } else {
      SkipKeepsMergeInv(s, h, rotate, pos, now);
    }
  }

  lemma FinishKeepsInv(s: Store, h: History)
    requires Inv(s, h) && CanFinish(s)
    ensures Inv(AfterFinishMerge(s), h)
  {
    hide ReadRange, LogOf, IndexAfter, HintIndex, FreshIds, Touched, PositionsOk, Represents, AmongChunks, HintReads, HintsInv, FilesInv, BlocksInv;
    var t := AfterFinishMerge(s);
    assert OldChunks(t) == OldChunks(s) && ScannedChunks(t) == ScannedChunks(s);
    assert forall k :: Sound(h.blocks[h.cut..], ScannedChunks(s), s.index, h.kv, s.merge, k)
                   ==> Sound(h.blocks[h.cut..], ScannedChunks(s), s.index, h.kv, t.merge, k);
  }

  // ---------- installation and recovery ----------

  lemma {:induction false} FreshIdsSuffix(blocks: seq<Block>, cut: nat)
    requires cut <= |blocks| && FreshIds({}, blocks)
    ensures FreshIds({}, blocks[cut..])
  {
    if cut < |blocks| {
      var front, last := blocks[..|blocks| - 1], blocks[|blocks| - 1];
      FreshIdsSuffix(front, cut);
      assert blocks[cut..] == front[cut..] + [last];
      assert TornIds(front[cut..]) <= TornIds(front);
      FreshIdsSnoc({}, front[cut..], last);
    }
  }

  /** Recovery builds what the batches after the merged segments do to the hints. */
  lemma LoadIndexReplaysBatches(t: Store, blocks: seq<Block>, now: int)
    requires BlocksInv(blocks)
    requires ReadRange(t.files, t.mergeFin + 1, t.active) == LogOf(blocks)
    ensures !LoadIndex(t, now).failed && LoadIndex(t, now).index == IndexAfter(HintIndex(t.hint), blocks)
  {
    var start := Recovery(HintIndex(t.hint), map[], false);
    assert start.staged.Keys == {};
    ReplayBlocks(start, blocks, now);
  }

  lemma InstalledSegments(s: Store)
    requires FilesInv(s.files, s.active) && s.merge.phase.Finished? && s.merge.limit < s.active
    ensures forall id: nat :: Segment(InstalledFiles(s), id)
              == if 1 <= id <= s.merge.limit then Segment(s.merge.files, id) else Segment(s.files, id)
  {
  }

  lemma InstalledFilesInv(s: Store)
    requires FilesInv(s.files, s.active) && s.merge.phase.Finished? && s.merge.limit < s.active
    requires FilesInv(s.merge.files, s.merge.active)
    ensures FilesInv(InstalledFiles(s), s.active)
  {
    InstalledSegments(s);
    var files := InstalledFiles(s);
    forall id | id in files
      ensures DistinctPositions(files[id])
      ensures forall i :: 0 <= i < |files[id]| ==> files[id][i].pos.segmentId == id
    {
      assert files[id] == Segment(files, id);
    }
  }

  predicate HoldsRecord(files: Files, p: Position, k: Key, v: Value) {
    var r := ReadAt(files, p);
    r.Some? && r.value == LogRecord(k, v, Normal, r.value.batchId, 0)
  }

  /** A key decided after the rotation is indexed as before. */
  lemma InstalledTouchedKey(s: Store, h: History, k: Key)
    requires LogInv(s, h) && MergeInv(s, h) && s.merge.phase.Finished? && Touched(h.blocks[h.cut..], k)
    ensures var m := IndexAfter(HintIndex(s.merge.hints), h.blocks[h.cut..]);
            (k in m <==> k in h.kv) && (k in m ==> HoldsRecord(InstalledFiles(s), m[k], k, h.kv[k]))
  {
    var a, b := h.blocks[..h.cut], h.blocks[h.cut..];
    assert h.blocks == a + b;
    var base := HintIndex(s.hint);
    IndexAfterConcat(base, a, b);
    IndexAfterTouched(HintIndex(s.merge.hints), IndexAfter(base, a), b, k);
    if k in s.index {
      IndexSplitsAtLimit(s, h, k);
      InstalledSegments(s);
    }
  }

  /** A key left alone since the rotation is live iff it was copied, with its current value. */
  lemma InstalledUntouchedKey(s: Store, h: History, k: Key)
    requires LogInv(s, h) && MergeInv(s, h) && s.merge.phase.Finished? && !Touched(h.blocks[h.cut..], k)
    ensures var hints := HintIndex(s.merge.hints);
            (k in hints <==> k in h.kv) && (k in hints ==> HoldsRecord(InstalledFiles(s), hints[k], k, h.kv[k]))
  {
    hide LogOf, IndexAfter, FreshIds, Touched, PositionsOk;
    var hints := HintIndex(s.merge.hints);
    if k in s.index {
      IndexSplitsAtLimit(s, h, k);
      assert s.index[k].segmentId in s.files;
      var i := FoundInRange(s.files, 1, s.merge.limit, s.index[k]);
      assert ScannedChunks(s)[i] == OldChunks(s)[i];
      assert PointsAt(s.index, ScannedChunks(s)[i]);
    }
    if k in hints {
      assert Sound(h.blocks[h.cut..], ScannedChunks(s), s.index, h.kv, s.merge, k);
      InstalledSegments(s);
    }
  }

  lemma InstalledRepresents(s: Store, h: History)
    requires LogInv(s, h) && MergeInv(s, h) && s.merge.phase.Finished?
    ensures Represents(InstalledFiles(s), IndexAfter(HintIndex(s.merge.hints), h.blocks[h.cut..]), h.kv)
  {
    var hints, later := HintIndex(s.merge.hints), h.blocks[h.cut..];
    var m := IndexAfter(hints, later);
    forall k
      ensures (k in m <==> k in h.kv) && (k in m ==> HoldsRecord(InstalledFiles(s), m[k], k, h.kv[k]))
    {
      if Touched(later, k) {
        InstalledTouchedKey(s, h, k);
      } else {
        InstalledUntouchedKey(s, h, k);
        IndexAfterUntouched(hints, later, k);
      }
    }
  }

  lemma InstalledLog(s: Store, h: History)
    requires FilesInv(s.files, s.active) && BlocksInv(h.blocks) && SplitInv(s, h) && s.merge.phase.Finished?
    ensures BlocksInv(h.blocks[h.cut..])
    ensures ReadRange(InstalledFiles(s), s.merge.limit + 1, s.active) == LogOf(h.blocks[h.cut..])
  {
    hide LogOf, FreshIds, PositionsOk, InstalledUpTo;
    FreshIdsSuffix(h.blocks, h.cut);
    InstalledSegments(s);
    ReadRangeFrame(s.files, InstalledFiles(s), s.merge.limit + 1, s.active);
  }

  lemma InstalledHints(s: Store, h: History)
    requires MergeInv(s, h)
    ensures HintsInv(HintIndex(s.merge.hints), h.blocks[h.cut..], s.merge.limit)
  {
    var hints, later := HintIndex(s.merge.hints), h.blocks[h.cut..];
    forall k | k in hints
      ensures Touched(later, k) || hints[k].segmentId <= s.merge.limit
    {
      assert Sound(later, ScannedChunks(s), s.index, h.kv, s.merge, k);
    }
  }

  /** Installing a finished merge and reloading keeps the invariant with the same map. */
  lemma InstallKeepsInv(s: Store, h: History, now: int)
    requires Inv(s, h) && s.merge.phase.Finished?
    ensures Inv(Reopened(s, now), HistoryAfterReopen(s, h))
  {
    hide ReadRange, LogOf, IndexAfter, HintIndex, FreshIds, PositionsOk, Represents, InstalledUpTo, HintsInv, FilesInv;
    InstalledLog(s, h);
    InstalledFilesInv(s);
    LoadIndexReplaysBatches(Installed(s), h.blocks[h.cut..], now);
    InstalledRepresents(s, h);
    InstalledHints(s, h);
  }

  /** Without a finished merge the data files are what they were. */
  lemma UnfinishedKeepsFiles(s: Store)
    requires !s.merge.phase.Finished?
    ensures InstalledFiles(s) == s.files
  {
    InstalledUpToZero(s.files, s.merge.files);
  }

  lemma RepresentedAboveZero(s: Store, h: History, k: Key)
    requires LogInv(s, h) && k in s.index
    ensures s.index[k].segmentId >= 1
  {
    assert s.index[k].segmentId in s.files;
  }

  /** An interrupted first merge leaves hints that full replay overrules. */
  lemma FirstMergeHintsAreTouched(s: Store, h: History, k: Key)
    requires LogInv(s, h) && MergeInv(s, h) && s.mergeFin == 0 && k in HintIndex(s.merge.hints)
    ensures Touched(h.blocks, k)
  {
    assert Sound(h.blocks[h.cut..], ScannedChunks(s), s.index, h.kv, s.merge, k);
    TouchedSplit(h.blocks, h.cut, k);
    if !Touched(h.blocks[h.cut..], k) {
      IndexedWithoutMergeIsTouched(s, h, k);
    }
  }

  /** When nothing was ever merged, every live key was decided by a replayed batch. */
  lemma IndexedWithoutMergeIsTouched(s: Store, h: History, k: Key)
    requires LogInv(s, h) && s.mergeFin == 0 && k in s.index
    ensures Touched(h.blocks, k)
  {
    RepresentedAboveZero(s, h, k);
    if !Touched(h.blocks, k) {
      IndexAfterUntouched(HintIndex(s.hint), h.blocks, k);
    }
  }

  lemma UnfinishedReopenRestoresKey(s: Store, h: History, k: Key)
    requires Inv(s, h) && s.merge.phase.Scanning? && s.mergeFin == 0
    ensures SameAt(IndexAfter(HintIndex(s.merge.hints), h.blocks), s.index, k)
  {
    var stale := HintIndex(s.merge.hints);
    if Touched(h.blocks, k) {
      IndexAfterTouched(stale, HintIndex(s.hint), h.blocks, k);
    } else {
      IndexAfterUntouched(stale, h.blocks, k);
      if k in s.index {
        IndexedWithoutMergeIsTouched(s, h, k);
      } else if k in stale {
        FirstMergeHintsAreTouched(s, h, k);
      }
    }
  }

  lemma UnfinishedReopenRestoresIndex(s: Store, h: History)
    requires Inv(s, h) && s.merge.phase.Scanning? && s.mergeFin == 0
    ensures IndexAfter(HintIndex(s.merge.hints), h.blocks) == s.index
  {
    var index' := IndexAfter(HintIndex(s.merge.hints), h.blocks);
    forall k
      ensures (k in index' <==> k in s.index) && (k in s.index ==> index'[k] == s.index[k])
    {
      UnfinishedReopenRestoresKey(s, h, k);
    }
  }

  /** Reopening with no merge, or with an interrupted first merge, changes nothing a reader sees. */
  lemma UnfinishedReopenKeepsInv(s: Store, h: History, now: int)
    requires Inv(s, h) && !s.merge.phase.Finished?
    requires s.merge.phase.Scanning? ==> s.mergeFin == 0
    ensures Inv(Reopened(s, now), HistoryAfterReopen(s, h))
  {
    UnfinishedKeepsFiles(s);
    LoadIndexReplaysBatches(Installed(s), h.blocks, now);
    if s.merge.phase.Scanning? {
      UnfinishedReopenRestoresIndex(s, h);
      forall k | k in HintIndex(s.merge.hints)
        ensures Touched(h.blocks, k)
      {
        FirstMergeHintsAreTouched(s, h, k);
      }
      assert HintsInv(HintIndex(s.merge.hints), h.blocks, 0);
    }
  }
}
