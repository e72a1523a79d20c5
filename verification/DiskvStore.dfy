/** The diskv store as a state machine over commits, crashes and compaction. */
module DiskvStore {
  import opened Common
  import opened DiskvLog
  import opened DiskvFiles

  // `Store` is what the program keeps: files on disk, the in-memory index, the merge directory. `History` is bookkeeping
  // for the proofs: the batches in the segments that are still replayed, how many of them precede the running merge's
  // rotation, and the key/value map that the committed batches mean.

  datatype MergePhase = NoMerge | Scanning | Finished

  /** The merge directory: its data files, hint file and progress over the old segments. */
  datatype Merge = Merge(phase: MergePhase, files: Files, active: nat, hints: seq<Hint>, limit: nat, scanned: nat)

  /** `mergeFin` is the segment id in the MERGEFIN file, 0 when there is none. */
  datatype Store = Store(files: Files, active: nat, index: Index, hint: seq<Hint>, mergeFin: nat, merge: Merge)

  datatype History = History(blocks: seq<Block>, cut: nat, kv: map<Key, Value>)

  const NO_MERGE_DIR := Merge(NoMerge, map[], 1, [], 0, 0)

  function EmptyStore(): Store {
    Store(map[1 := []], 1, map[], [], 0, NO_MERGE_DIR)
  }

  // ---------- the steps ----------

  function TargetSegment(active: nat, rotate: bool): nat {
    if rotate then active + 1 else active
  }

  /** What the log promises of the positions it hands out. */
  predicate FreshPositions(files: Files, segment: nat, at: seq<Position>) {
    (forall i :: 0 <= i < |at| ==> at[i].segmentId == segment)
    && (forall i, j :: 0 <= i < j < |at| ==> !PositionEquals(at[i], at[j]))
    && (forall i, j :: 0 <= i < |at| && 0 <= j < |Segment(files, segment)| ==>
          !PositionEquals(Segment(files, segment)[j].pos, at[i]))
  }

  /** `WriteAll`: the chunks of a batch go to one segment, a new one if the active is full. */
  function AppendBlock(s: Store, b: Block, rotate: bool): Store
    requires WellFormed(b)
  {
    var seg := TargetSegment(s.active, rotate);
    s.(files := s.files[seg := Segment(s.files, seg) + BlockChunks(b)], active := seg)
  }

  predicate CanAppend(s: Store, h: History, b: Block, rotate: bool) {
    WellFormed(b) && b.id !in TornIds(h.blocks)
    && FreshPositions(s.files, TargetSegment(s.active, rotate), b.at)
  }

  /** `Commit`: append a whole batch, then move the index operation by operation. */
  function AfterCommit(s: Store, b: Block, rotate: bool): Store
    requires WellFormed(b)
  {
    AppendBlock(s, b, rotate).(index := ApplyIndexRecords(s.index, OpIndexRecords(b)))
  }

  function IsEmptyLog(s: Store): bool {
    s.files.Keys == {s.active} && Segment(s.files, s.active) == []
  }

  /** `doMerge` up to its scan: rotate the log and recreate the merge directory. */
  function AfterBeginMerge(s: Store): Store {
    if IsEmptyLog(s) then s
    else s.(files := s.files[s.active + 1 := []], active := s.active + 1,
            merge := Merge(Scanning, map[1 := []], 1, [], s.active, 0))
  }

  /** The chunks the merge reads: all segments up to the one that was active. */
  function OldChunks(s: Store): seq<Chunk> {
    ReadRange(s.files, 1, s.merge.limit)
  }

  /** A record is copied iff it is normal, not expired, and the live index still points at it. */
  predicate Survives(index: Index, c: Chunk, now: int) {
    c.record.typ.Normal? && (c.record.expire == 0 || c.record.expire > now)
    && PointsAt(index, c)
  }

  function CopyRecord(m: Merge, r: LogRecord, rotate: bool, pos: Position): Merge {
    var seg := TargetSegment(m.active, rotate);
    m.(files := m.files[seg := Segment(m.files, seg) + [Chunk(r.(batchId := 0), pos)]], active := seg,
       hints := m.hints + [Hint(r.key, pos)], scanned := m.scanned + 1)
  }

  /** One turn of `doMerge`'s loop over the old chunks. */
  function AfterScan(s: Store, rotate: bool, pos: Position, now: int): Store
    requires s.merge.scanned < |OldChunks(s)|
  {
    var c := OldChunks(s)[s.merge.scanned];
    if Survives(s.index, c, now) then s.(merge := CopyRecord(s.merge, c.record, rotate, pos))
    else s.(merge := s.merge.(scanned := s.merge.scanned + 1))
  }

  /** The merged output must fit into the segments it replaces. */
  predicate CanScan(s: Store, rotate: bool, pos: Position) {
    s.merge.phase.Scanning? && s.merge.scanned < |OldChunks(s)|
    && TargetSegment(s.merge.active, rotate) <= s.merge.limit
    && FreshPositions(s.merge.files, TargetSegment(s.merge.active, rotate), [pos])
  }

  function AfterFinishMerge(s: Store): Store {
    s.(merge := s.merge.(phase := Finished))
  }

  predicate CanFinish(s: Store) {
    s.merge.phase.Scanning? && s.merge.scanned == |OldChunks(s)|
  }

  /** The merge directory's finished segment id; 0 while the merge is unfinished. */
  function FinishedLimit(m: Merge): nat {
    if m.phase.Finished? then m.limit else 0
  }

  /** The data files once segments `1..=n` are replaced by the merged ones; empty merged files
      are not moved. */
  function InstalledUpTo(files: Files, merged: Files, n: nat): Files {
    map id | id in files.Keys + merged.Keys && (if 1 <= id <= n then Segment(merged, id) != [] else id in files)
      :: if 1 <= id <= n then Segment(merged, id) else Segment(files, id)
  }

  lemma InstalledUpToZero(files: Files, merged: Files)
    ensures InstalledUpTo(files, merged, 0) == files
  {
    assert forall id :: id in InstalledUpTo(files, merged, 0) <==> id in files;
  }

  /** Removing segment `n` and moving its merged file in is one more step. */
  lemma InstalledUpToNext(files: Files, merged: Files, n: nat)
    requires n >= 1
    ensures var f := InstalledUpTo(files, merged, n - 1) - {n};
            InstalledUpTo(files, merged, n) == (if n in merged && merged[n] != [] then f[n := merged[n]] else f)
  {
    var f := InstalledUpTo(files, merged, n - 1) - {n};
    var g := if n in merged && merged[n] != [] then f[n := merged[n]] else f;
    var h := InstalledUpTo(files, merged, n);
    assert forall id :: id in h <==> id in g;
    assert forall id :: id in h ==> h[id] == g[id];
  }

  /** `loadMergeFiles` on the data files. */
  function InstalledFiles(s: Store): Files {
    InstalledUpTo(s.files, s.merge.files, FinishedLimit(s.merge))
  }

  function Installed(s: Store): Store {
    s.(files := InstalledFiles(s),
       mergeFin := if s.merge.phase.Finished? then s.merge.limit else s.mergeFin,
       hint := if s.merge.phase.NoMerge? then s.hint else s.merge.hints,
       merge := NO_MERGE_DIR)
  }

  /** `loadIndex`: hints first, then replay of the segments after the merged ones. */
  function LoadIndex(s: Store, now: int): Recovery {
    Replay(Recovery(HintIndex(s.hint), map[], false), ReadRange(s.files, s.mergeFin + 1, s.active), now)
  }

  function Reopened(s: Store, now: int): Store {
    var t := Installed(s);
    t.(index := LoadIndex(t, now).index)
  }

  // ---------- history ----------

  function AddBlock(h: History, b: Block): History {
    h.(blocks := h.blocks + [b], kv := if b.sealed then ApplyOps(h.kv, b.ops) else h.kv)
  }

  function HistoryAfterReopen(s: Store, h: History): History
    requires h.cut <= |h.blocks|
  {
    if s.merge.phase.Finished? then History(h.blocks[h.cut..], 0, h.kv) else h
  }

  // ---------- the invariant ----------

  /** Segment ids run up to the active one, and positions identify chunks. */
  predicate FilesInv(files: Files, active: nat) {
    active in files && (forall id <- files :: 1 <= id <= active) && PositionsOk(files)
  }

  predicate BlocksInv(blocks: seq<Block>) {
    AllWellFormed(blocks) && FreshIds({}, blocks)
  }

  /** A hint either leads into the merged segments or is overruled by a replayed batch. */
  predicate HintsInv(hints: Index, blocks: seq<Block>, mergeFin: nat) {
    forall k <- hints :: Touched(blocks, k) || hints[k].segmentId <= mergeFin
  }

  /** The files hold the history's batches, and the index is what replay would build. */
  ghost predicate LogInv(s: Store, h: History) {
    FilesInv(s.files, s.active) && s.mergeFin < s.active
    && BlocksInv(h.blocks)
    && ReadRange(s.files, s.mergeFin + 1, s.active) == LogOf(h.blocks)
    && s.index == IndexAfter(HintIndex(s.hint), h.blocks)
    && Represents(s.files, s.index, h.kv)
    && HintsInv(HintIndex(s.hint), h.blocks, s.mergeFin)
  }

  /** Every scanned old chunk the live index still points at was copied. */
  predicate Covered(scanned: seq<Chunk>, index: Index, hints: Index) {
    forall i :: 0 <= i < |scanned| ==>
      PointsAt(index, scanned[i]) && scanned[i].record.typ.Normal? ==> scanned[i].record.key in hints
  }

  predicate PointsAt(index: Index, c: Chunk) {
    c.record.key in index && PositionEquals(index[c.record.key], c.pos)
  }

  /** The position is one of the given chunks'. */
  predicate AmongChunks(cs: seq<Chunk>, p: Position) {
    exists i :: 0 <= i < |cs| && PositionEquals(cs[i].pos, p)
  }

  /** A copied key is decided by a batch after the rotation, or the live index still points at
      the scanned chunk it was copied from and its hint reads its current value. */
  predicate Sound(later: seq<Block>, scanned: seq<Chunk>, index: Index, kv: map<Key, Value>, m: Merge, k: Key) {
    Touched(later, k)
    || (k in index && k in kv && AmongChunks(scanned, index[k]) && HintReads(m.files, HintIndex(m.hints), m.limit, k, kv[k]))
  }

  /** The hint of `k` leads to a normal record of `k` with value `v` in the merged files. */
  predicate HintReads(files: Files, hints: Index, limit: nat, k: Key, v: Value) {
    k in hints && ReadAt(files, hints[k]) == Some(LogRecord(k, v, Normal, 0, 0)) && 1 <= hints[k].segmentId <= limit
  }

  /** No key was copied twice. */
  predicate DistinctHints(hints: seq<Hint>) {
    forall i, j :: 0 <= i < j < |hints| ==> hints[i].key != hints[j].key
  }

  predicate AllSound(later: seq<Block>, scanned: seq<Chunk>, index: Index, kv: map<Key, Value>, m: Merge) {
    forall k <- HintIndex(m.hints) :: Sound(later, scanned, index, kv, m, k)
  }

  function ScannedChunks(s: Store): seq<Chunk>
    requires s.merge.scanned <= |OldChunks(s)|
  {
    OldChunks(s)[..s.merge.scanned]
  }

  /** The rotation splits both the log and the history. */
  ghost predicate SplitInv(s: Store, h: History) {
    h.cut <= |h.blocks| && s.mergeFin <= s.merge.limit < s.active
    && AllWellFormed(h.blocks[..h.cut]) && AllWellFormed(h.blocks[h.cut..])
    && ReadRange(s.files, s.mergeFin + 1, s.merge.limit) == LogOf(h.blocks[..h.cut])
    && ReadRange(s.files, s.merge.limit + 1, s.active) == LogOf(h.blocks[h.cut..])
  }

  ghost predicate MergeInv(s: Store, h: History) {
    SplitInv(s, h)
    && FilesInv(s.merge.files, s.merge.active) && s.merge.active <= s.merge.limit
    && DistinctHints(s.merge.hints)
    && s.merge.scanned <= |OldChunks(s)|
    && Covered(ScannedChunks(s), s.index, HintIndex(s.merge.hints))
    && AllSound(h.blocks[h.cut..], ScannedChunks(s), s.index, h.kv, s.merge)
    && (s.merge.phase.Finished? ==> s.merge.scanned == |OldChunks(s)|)
  }

  ghost predicate Inv(s: Store, h: History) {
    LogInv(s, h) && h.cut <= |h.blocks| && (!s.merge.phase.NoMerge? ==> MergeInv(s, h))
  }

  // ---------- appending a batch ----------

  lemma AppendKeepsPositions(s: Store, b: Block, rotate: bool)
    requires PositionsOk(s.files) && WellFormed(b)
    requires FreshPositions(s.files, TargetSegment(s.active, rotate), b.at)
    ensures PositionsOk(AppendBlock(s, b, rotate).files)
  {
    var seg := TargetSegment(s.active, rotate);
    var before, cs := Segment(s.files, seg), BlockChunks(b);
    var all := before + cs;
    forall i | 0 <= i < |cs|
      ensures cs[i].pos == b.at[i]
    {
    }
    forall i, j | 0 <= i < j < |all|
      ensures !PositionEquals(all[i].pos, all[j].pos)
    {
    }
  }

  lemma AppendExtendsReads(s: Store, b: Block, rotate: bool, p: Position)
    requires WellFormed(b) && ReadAt(s.files, p).Some?
    ensures ReadAt(AppendBlock(s, b, rotate).files, p) == ReadAt(s.files, p)
  {
    var seg := TargetSegment(s.active, rotate);
    if p.segmentId == seg {
      FindAppend(Segment(s.files, seg), BlockChunks(b), p);
    }
  }

  lemma AppendReadsBlock(s: Store, b: Block, rotate: bool, i: nat)
    requires PositionsOk(s.files) && WellFormed(b) && i < |b.ops|
    requires FreshPositions(s.files, TargetSegment(s.active, rotate), b.at)
    ensures ReadAt(AppendBlock(s, b, rotate).files, b.at[i]) == Some(OpRecord(b.ops[i], b.id))
  {
    AppendKeepsPositions(s, b, rotate);
    var seg := TargetSegment(s.active, rotate);
    var all := Segment(s.files, seg) + BlockChunks(b);
    assert AppendBlock(s, b, rotate).files[seg] == all;
    var at := |Segment(s.files, seg)| + i;
    assert all[at] == BlockChunks(b)[i] == Chunk(OpRecord(b.ops[i], b.id), b.at[i]);
    FindsChunk(all, at, b.at[i]);
  }

  /** The log read from any segment up to the active one grows by the batch's chunks. */
  lemma AppendExtendsLog(s: Store, b: Block, rotate: bool, lo: nat)
    requires WellFormed(b) && 1 <= lo <= s.active && FilesInv(s.files, s.active)
    ensures var t := AppendBlock(s, b, rotate);
            ReadRange(t.files, lo, t.active) == ReadRange(s.files, lo, s.active) + BlockChunks(b)
  {
    hide BlockChunks, PositionsOk;
    var t := AppendBlock(s, b, rotate);
    var hi := t.active;
    assert forall id :: id != hi ==> Segment(t.files, id) == Segment(s.files, id);
    assert Segment(t.files, hi) == Segment(s.files, hi) + BlockChunks(b);
    ReadRangeFrame(s.files, t.files, lo, hi - 1);
    assert ReadRange(t.files, lo, hi) == ReadRange(s.files, lo, hi - 1) + Segment(t.files, hi);
    if rotate {
      assert Segment(s.files, hi) == [];
    } else {
      assert ReadRange(s.files, lo, hi) == ReadRange(s.files, lo, hi - 1) + Segment(s.files, hi);
    }
  }

  lemma BlocksSnoc(h: History, b: Block, base: Index)
    requires AllWellFormed(h.blocks) && WellFormed(b) && FreshIds({}, h.blocks) && b.id !in TornIds(h.blocks)
    ensures var bs := h.blocks + [b];
            AllWellFormed(bs) && FreshIds({}, bs) && LogOf(bs) == LogOf(h.blocks) + BlockChunks(b)
            && IndexAfter(base, bs)
                 == (if b.sealed then ApplyIndexRecords(IndexAfter(base, h.blocks), OpIndexRecords(b))
                     else IndexAfter(base, h.blocks))
  {
    FreshIdsSnoc({}, h.blocks, b);
    assert (h.blocks + [b])[..|h.blocks|] == h.blocks;
  }

  lemma TouchedSnoc(blocks: seq<Block>, b: Block, k: Key)
    ensures Touched(blocks + [b], k) <==> Touched(blocks, k) || (b.sealed && OpsTouch(b.ops, k))
  {
    var bs := blocks + [b];
    assert forall i :: 0 <= i < |blocks| ==> bs[i] == blocks[i];
    if b.sealed && OpsTouch(b.ops, k) {
      assert bs[|blocks|] == b;
    }
    if Touched(blocks, k) {
      var i :| 0 <= i < |blocks| && blocks[i].sealed && OpsTouch(blocks[i].ops, k);
      assert bs[i].sealed && OpsTouch(bs[i].ops, k);
    }
  }

  /** The store after a batch reached the log: indexed if whole, only on disk if torn. */
  function AfterAppend(s: Store, b: Block, rotate: bool): Store
    requires WellFormed(b)
  {
    if b.sealed then AfterCommit(s, b, rotate) else AppendBlock(s, b, rotate)
  }

  lemma AppendRepresents(s: Store, h: History, b: Block, rotate: bool)
    requires PositionsOk(s.files) && Represents(s.files, s.index, h.kv) && CanAppend(s, h, b, rotate)
    ensures Represents(AfterAppend(s, b, rotate).files, AfterAppend(s, b, rotate).index, AddBlock(h, b).kv)
  {
    var files := AppendBlock(s, b, rotate).files;
    forall p | ReadAt(s.files, p).Some?
      ensures ReadAt(files, p) == ReadAt(s.files, p)
    {
      AppendExtendsReads(s, b, rotate, p);
    }
    RepresentsInMoreFiles(s.files, files, s.index, h.kv);
    if b.sealed {
      forall i | 0 <= i < |b.ops|
        ensures ReadAt(files, b.at[i]) == Some(OpRecord(b.ops[i], b.id))
      {
        AppendReadsBlock(s, b, rotate, i);
      }
      CommitRepresents(files, s.index, h.kv, b, |b.ops|);
      assert OpIndexRecords(b)[..|b.ops|] == OpIndexRecords(b) && b.ops[..|b.ops|] == b.ops;
    }
  }

  lemma AppendKeepsLogInv(s: Store, h: History, b: Block, rotate: bool)
    requires LogInv(s, h) && CanAppend(s, h, b, rotate)
    ensures LogInv(AfterAppend(s, b, rotate), AddBlock(h, b))
  {
    hide ReadRange, LogOf, BlockChunks, IndexAfter, HintIndex, Represents, PositionsOk, Touched, FreshPositions;
    AppendKeepsPositions(s, b, rotate);
    AppendExtendsLog(s, b, rotate, s.mergeFin + 1);
    BlocksSnoc(h, b, HintIndex(s.hint));
    AppendRepresents(s, h, b, rotate);
    forall k | k in HintIndex(s.hint)
      ensures Touched(h.blocks, k) ==> Touched(h.blocks + [b], k)
    {
      TouchedSnoc(h.blocks, b, k);
    }
  }

  /** A batch changes neither index nor map at keys it does not mention, and gives the keys it
      does mention positions in the segment it was written to. */
  lemma AppendMovesOnlyItsKeys(s: Store, h: History, b: Block, rotate: bool, k: Key)
    requires CanAppend(s, h, b, rotate)
    ensures var t, g := AfterAppend(s, b, rotate), AddBlock(h, b);
            if b.sealed && OpsTouch(b.ops, k) then k in t.index ==> t.index[k].segmentId >= s.active
            else SameAt(t.index, s.index, k) && SameAt(g.kv, h.kv, k)
  {
    if b.sealed {
      assert OpIndexRecords(b)[..|b.ops|] == OpIndexRecords(b) && b.ops[..|b.ops|] == b.ops;
      if OpsTouch(b.ops, k) {
        OpsDecide(s.index, s.index, b, |b.ops|, k);
      } else {
        OpsUntouched(s.index, b, |b.ops|, k);
        KvUntouched(h.kv, b.ops, k);
      }
    }
  }

  lemma AppendKeepsOldSegments(s: Store, b: Block, rotate: bool, lo: nat)
    requires WellFormed(b) && 1 <= lo && s.merge.limit < s.active
    ensures ReadRange(AppendBlock(s, b, rotate).files, lo, s.merge.limit) == ReadRange(s.files, lo, s.merge.limit)
  {
    ReadRangeFrame(s.files, AppendBlock(s, b, rotate).files, lo, s.merge.limit);
  }

  lemma LaterBlocksGrow(h: History, b: Block)
    requires h.cut <= |h.blocks| && AllWellFormed(h.blocks) && WellFormed(b)
    ensures var blocks := AddBlock(h, b).blocks;
            blocks[..h.cut] == h.blocks[..h.cut] && blocks[h.cut..] == h.blocks[h.cut..] + [b]
            && AllWellFormed(blocks[h.cut..])
            && LogOf(blocks[h.cut..]) == LogOf(h.blocks[h.cut..]) + BlockChunks(b)
  {
    hide BlockChunks;
    var later := h.blocks[h.cut..];
    assert (h.blocks + [b])[..h.cut] == h.blocks[..h.cut];
    assert (h.blocks + [b])[h.cut..] == later + [b];
    assert (later + [b])[..|later|] == later;
  }

  lemma AppendKeepsSplit(s: Store, h: History, b: Block, rotate: bool)
    requires FilesInv(s.files, s.active) && AllWellFormed(h.blocks) && SplitInv(s, h) && WellFormed(b)
    ensures SplitInv(AfterAppend(s, b, rotate), AddBlock(h, b))
  {
    hide ReadRange, LogOf, BlockChunks, PositionsOk;
    LaterBlocksGrow(h, b);
    AppendKeepsOldSegments(s, b, rotate, s.mergeFin + 1);
    AppendExtendsLog(s, b, rotate, s.merge.limit + 1);
  }

  lemma AppendKeepsCovered(s: Store, h: History, b: Block, rotate: bool, cs: seq<Chunk>, hints: Index)
    requires CanAppend(s, h, b, rotate) && Covered(cs, s.index, hints)
    requires forall i :: 0 <= i < |cs| ==> cs[i].pos.segmentId < s.active
    ensures Covered(cs, AfterAppend(s, b, rotate).index, hints)
  {
    var t := AfterAppend(s, b, rotate);
    forall i | 0 <= i < |cs| && PointsAt(t.index, cs[i]) && cs[i].record.typ.Normal?
      ensures cs[i].record.key in hints
    {
      AppendMovesOnlyItsKeys(s, h, b, rotate, cs[i].record.key);
      assert PointsAt(s.index, cs[i]);
    }
  }

  lemma AppendKeepsSound(s: Store, h: History, b: Block, rotate: bool, later: seq<Block>, cs: seq<Chunk>, k: Key)
    requires CanAppend(s, h, b, rotate) && Sound(later, cs, s.index, h.kv, s.merge, k)
    ensures Sound(later + [b], cs, AfterAppend(s, b, rotate).index, AddBlock(h, b).kv, s.merge, k)
  {
    TouchedSnoc(later, b, k);
    AppendMovesOnlyItsKeys(s, h, b, rotate, k);
  }

  lemma AppendKeepsMergeInv(s: Store, h: History, b: Block, rotate: bool)
    requires LogInv(s, h) && MergeInv(s, h) && CanAppend(s, h, b, rotate)
    ensures MergeInv(AfterAppend(s, b, rotate), AddBlock(h, b))
  {
    var t, g := AfterAppend(s, b, rotate), AddBlock(h, b);
    AppendKeepsSplit(s, h, b, rotate);
    LaterBlocksGrow(h, b);
    AppendKeepsOldSegments(s, b, rotate, 1);
    assert OldChunks(t) == OldChunks(s);
    var cs := ScannedChunks(s);
    forall i | 0 <= i < |cs|
      ensures cs[i].pos.segmentId < s.active
    {
      ReadRangeChunk(s.files, 1, s.merge.limit, i);
    }
    AppendKeepsCovered(s, h, b, rotate, cs, HintIndex(s.merge.hints));
    forall k | k in HintIndex(t.merge.hints)
      ensures Sound(g.blocks[g.cut..], cs, t.index, g.kv, t.merge, k)
    {
      AppendKeepsSound(s, h, b, rotate, h.blocks[h.cut..], cs, k);
    }
  }

  /** Committing a batch, or losing its tail in a crash, keeps the invariant. */
  lemma AppendKeepsInv(s: Store, h: History, b: Block, rotate: bool)
    requires Inv(s, h) && CanAppend(s, h, b, rotate)
    ensures Inv(AfterAppend(s, b, rotate), AddBlock(h, b))
  {
    AppendKeepsLogInv(s, h, b, rotate);
    if !s.merge.phase.NoMerge? {
      AppendKeepsMergeInv(s, h, b, rotate);
    }
  }
}
