/**
 * The diskv database object: its methods change the store in place, loop by loop, and are proved to take exactly the
 * steps of `DiskvStore` and `DiskvRuns`.
 */
module DiskvDb {
  import opened Common
  import opened DiskvLog
  import opened DiskvFiles
  import opened DiskvStore
  import opened DiskvMerge
  import opened DiskvRuns

  datatype DbError =
    | ErrKeyIsEmpty | ErrKeyNotFound | ErrReadOnlyBatch | ErrBatchCommitted | ErrBatchRollbacked
    | ErrDBClosed | ErrWrite

  datatype Unit = Unit

  /** One commit by another goroutine while a merge scans. */
  datatype OtherCommit = OtherCommit(block: Block, rotate: bool)

  /** Where the merged copy of a scanned record would go, and the clock at that moment. */
  datatype Target = Target(rotate: bool, pos: Position, now: int)

  function CommitEvents(cs: seq<OtherCommit>): (es: seq<Event>)
    ensures |es| == |cs|
  {
    seq(|cs|, i requires 0 <= i < |cs| => Commit(cs[i].block, cs[i].rotate))
  }

  function ScanEvent(t: Target): Event {
    ScanOne(t.rotate, t.pos, t.now)
  }

  /** Turn `i` of a merge: other goroutines' commits, then the scan step. */
  function TurnEvents(cs: seq<OtherCommit>, t: Target): seq<Event> {
    CommitEvents(cs) + [ScanEvent(t)]
  }

  /** The interleaving of a merge's scan with other goroutines: before the index look-up for
      old chunk `i`, the commits `others[i]` happen. */
  function ScanEvents(others: seq<seq<OtherCommit>>, targets: seq<Target>): seq<Event>
    requires |others| == |targets|
  {
    if others == [] then []
    else
      var n := |others| - 1;
      ScanEvents(others[..n], targets[..n]) + TurnEvents(others[n], targets[n])
  }

  /** A whole merge: rotation, the scan with the commits between its turns, the commits after its last look-up, the end. */
  function MergeEvents(others: seq<seq<OtherCommit>>, targets: seq<Target>, last: seq<OtherCommit>): seq<Event>
    requires |others| == |targets|
  {
    [BeginMerge] + (ScanEvents(others, targets) + CommitEvents(last)) + [FinishMerge]
  }

  /** The chunks pending records become at the given positions. */
  function ChunksAt(records: seq<LogRecord>, at: seq<Position>): (cs: seq<Chunk>)
    requires |records| <= |at|
    ensures |cs| == |records|
  {
    seq(|records|, i requires 0 <= i < |records| => Chunk(records[i], at[i]))
  }

  function BlockRecords(b: Block): seq<LogRecord>
    requires WellFormed(b)
  {
    seq(|b.ops|, i requires 0 <= i < |b.ops| => OpRecord(b.ops[i], b.id)) + if b.sealed then [EndRecord(b.id)] else []
  }

  lemma BlockChunksAreRecords(b: Block)
    requires WellFormed(b)
    ensures |BlockRecords(b)| == |b.at| && ChunksAt(BlockRecords(b), b.at) == BlockChunks(b)
  {
  }

  class DB {
    var files: Files
    var active: nat
    var pending: seq<LogRecord>
    var index: Index
    var hint: seq<Hint>
    var mergeFin: nat
    var merge: Merge
    var closed: bool
    ghost var history: History

    function View(): Store
      reads this
    {
      Store(files, active, index, hint, mergeFin, merge)
    }

    ghost function State(): Config
      reads this
    {
      Config(View(), history)
    }

    ghost predicate Valid()
      reads this
    {
      Inv(View(), history) && pending == [] && history.cut <= |history.blocks|
    }

    /** The key/value map the database stands for. */
    ghost function Contents(): map<Key, Value>
      reads this
    {
      history.kv
    }

    constructor ()
      ensures Valid() && State() == START && Contents() == map[] && !closed
    {
      files, active, pending, index := map[1 := []], 1, [], map[];
      hint, mergeFin, merge, closed := [], 0, NO_MERGE_DIR, false;
      history := START.history;
      new;
      StartInv();
    }

    // ---------- the write-ahead log ----------

    method PendingWrite(r: LogRecord)
      modifies this`pending
      ensures pending == old(pending) + [r]
    {
      pending := pending + [r];
    }

    /** `WriteAll` when it succeeds: the pending records go, in order, to the positions the log
        allots them in one segment. */
    method WriteAll(rotate: bool, at: seq<Position>)
      requires |at| == |pending|
      modifies this`pending, this`files, this`active
      ensures pending == [] && active == TargetSegment(old(active), rotate)
      ensures files == old(files)[active := Segment(old(files), active) + ChunksAt(old(pending), at)]
    {
      if rotate {
        active := active + 1;
      }
      var chunks: seq<Chunk> := [];
      var i := 0;
      while i < |pending|
        invariant i <= |pending|
        invariant chunks == ChunksAt(pending[..i], at)
      {
        chunks := chunks + [Chunk(pending[i], at[i])];
        i := i + 1;
      }
      assert pending[..i] == pending;
      files := files[active := Segment(files, active) + chunks];
      pending := [];
    }

    /** Buffer one record per operation, then the end record. */
    method BufferBlock(b: Block)
      requires pending == [] && WellFormed(b) && b.sealed
      modifies this`pending
      ensures pending == BlockRecords(b)
    {
      var i := 0;
      while i < |b.ops|
        invariant i <= |b.ops|
        invariant pending == BlockRecords(b)[..i]
      {
        PendingWrite(OpRecord(b.ops[i], b.id));
        i := i + 1;
      }
      PendingWrite(EndRecord(b.id));
    }

    /** Move the index operation by operation. */
    method IndexBlock(b: Block)
      requires WellFormed(b)
      modifies this`index
      ensures index == ApplyIndexRecords(old(index), OpIndexRecords(b))
    {
      ghost var rs := OpIndexRecords(b);
      var i := 0;
      while i < |b.ops|
        invariant i <= |b.ops|
        invariant index == ApplyIndexRecords(old(index), rs[..i])
      {
        assert rs[..i + 1][..i] == rs[..i];
        if b.ops[i].Del? {
          index := index - {b.ops[i].key};
        } else {
          index := index[b.ops[i].key := b.at[i]];
        }
        i := i + 1;
      }
      assert rs[..i] == rs;
    }

    method WriteBlock(b: Block, rotate: bool)
      requires pending == [] && WellFormed(b) && b.sealed
      modifies this`pending, this`files, this`active, this`index
      ensures pending == [] && View() == AfterCommit(old(View()), b, rotate)
    {
      BlockChunksAreRecords(b);
      BufferBlock(b);
      WriteAll(rotate, b.at);
      IndexBlock(b);
    }

    /** The writing half of `Commit`: log the batch, then index it. */
    method CommitBlock(b: Block, rotate: bool)
      requires Valid() && b.sealed && CanAppend(View(), history, b, rotate)
      modifies this
      ensures Valid() && closed == old(closed)
      ensures State() == Step(old(State()), Commit(b, rotate))
      ensures Contents() == ApplyOps(old(Contents()), b.ops)
    {
      hide Inv;
      ghost var next := Step(State(), Commit(b, rotate));
      StepKeepsInv(State(), Commit(b, rotate));
      WriteBlock(b, rotate);
      history := AddBlock(history, b);
      assert State() == next;
    }

    // ---------- recovery ----------

    method LoadIndexFromHintFile()
      requires index == map[]
      modifies this`index
      ensures index == HintIndex(hint)
    {
      var i := 0;
      while i < |hint|
        invariant i <= |hint| && index == HintIndex(hint[..i])
      {
        assert hint[..i + 1][..i] == hint[..i];
        index := index[hint[i].key := hint[i].pos];
        i := i + 1;
      }
      assert hint[..i] == hint;
    }

    /** The records of a finished batch take effect in the order they were staged. */
    method IndexStaged(rs: seq<IndexRecord>)
      modifies this`index
      ensures index == ApplyIndexRecords(old(index), rs)
    {
      var i := 0;
      while i < |rs|
        invariant i <= |rs| && index == ApplyIndexRecords(old(index), rs[..i])
      {
        assert rs[..i + 1][..i] == rs[..i];
        if rs[i].typ.Normal? {
          index := index[rs[i].key := rs[i].pos];
        }
        if rs[i].typ.Deleted? {
          index := index - {rs[i].key};
        }
        i := i + 1;
      }
      assert rs[..i] == rs;
    }

    /** One chunk of the recovery loop: index a finished batch, index a merged record at once,
        drop an expired one, stage anything else. */
    method LoadChunk(c: Chunk, staged: map<nat, seq<IndexRecord>>, now: int)
      returns (staged': map<nat, seq<IndexRecord>>, ok: bool)
      modifies this`index
      ensures Recovery(index, staged', !ok) == ReplayChunk(Recovery(old(index), staged, false), c, now)
    {
      var r := c.record;
      staged', ok := staged, true;
      if r.typ.BatchFinished? {
        var id := ParseId(r.key);
        if id.None? {
          return staged, false;
        }
        IndexStaged(StagedUnder(staged, id.value));
        staged' := staged - {id.value};
      } else if r.typ.Normal? && r.batchId == 0 {
        index := index[r.key := c.pos];
      } else if r.IsExpired(now) {
        index := index - {r.key};
      } else {
        staged' := staged[r.batchId := StagedUnder(staged, r.batchId) + [IndexRecord(r.key, r.typ, c.pos)]];
      }
    }

    method LoadSegment(chunks: seq<Chunk>, staged: map<nat, seq<IndexRecord>>, now: int)
      returns (staged': map<nat, seq<IndexRecord>>, ok: bool)
      modifies this`index
      ensures Recovery(index, staged', !ok) == Replay(Recovery(old(index), staged, false), chunks, now)
    {
      ghost var start := Recovery(index, staged, false);
      staged', ok := staged, true;
      var i := 0;
      while i < |chunks|
        invariant i <= |chunks|
        invariant ok && Recovery(index, staged', false) == Replay(start, chunks[..i], now)
      {
        assert chunks[..i + 1][..i] == chunks[..i];
        staged', ok := LoadChunk(chunks[i], staged', now);
        i := i + 1;
        if !ok {
          assert chunks == chunks[..i] + chunks[i..];
          ReplayConcat(start, chunks[..i], chunks[i..], now);
          ReplayAfterFailure(Replay(start, chunks[..i], now), chunks[i..], now);
          return;
        }
      }
      assert chunks[..i] == chunks;
    }

    /** `loadIndexFromWAL`: skip the merged segments, stage the records of each batch, and
        index them when the batch's end record arrives. */
    method LoadIndexFromWal(now: int) returns (ok: bool)
      modifies this`index
      ensures var r := Replay(Recovery(old(index), map[], false), ReadRange(files, mergeFin + 1, active), now);
              index == r.index && ok == !r.failed
    {
      hide ReplayChunk, ApplyIndexRecords, Replay;
      ReplayNothing(Recovery(index, map[], false), now);
      ghost var start := Recovery(index, map[], false);
      var staged: map<nat, seq<IndexRecord>> := map[];
      var seg := 1;
      ok := true;
      while seg <= active
        invariant 1 <= seg <= active + 1 && ok
        invariant Recovery(index, staged, false) == Replay(start, ReadRange(files, mergeFin + 1, seg - 1), now)
      {
        if seg > mergeFin {
          ReplayNextSegment(start, files, mergeFin + 1, seg, now);
          staged, ok := LoadSegment(if seg in files then files[seg] else [], staged, now);
          if !ok {
            ReplayStaysFailed(start, files, mergeFin + 1, seg, active, now);
            return;
          }
        }
        seg := seg + 1;
      }
      assert seg - 1 == active;
    }
  
    // ---------- merge ----------

    /** The file loop of `loadMergeFiles`: remove each old segment, move the merged one in. */
    method ReplaceSegments(fin: nat)
      modifies this`files
      ensures files == InstalledUpTo(old(files), merge.files, fin)
    {
      hide InstalledUpTo;
      InstalledUpToZero(files, merge.files);
      var id := 1;
      while id <= fin
        invariant 1 <= id <= fin + 1
        invariant files == InstalledUpTo(old(files), merge.files, id - 1)
      {
        InstalledUpToNext(old(files), merge.files, id);
        files := files - {id};
        if id in merge.files && merge.files[id] != [] {
          files := files[id := merge.files[id]];
        }
        id := id + 1;
      }
    }

    /** `loadMergeFiles`: replace the merged segments, then move the MERGEFIN and hint files. */
    method LoadMergeFiles()
      modifies this`files, this`mergeFin, this`hint, this`merge
      ensures View() == Installed(old(View()))
    {
      hide InstalledUpTo;
      InstalledUpToZero(files, merge.files);
      if merge.phase.NoMerge? {
        merge := NO_MERGE_DIR;
        return;
      }
      ReplaceSegments(FinishedLimit(merge));
      if merge.phase.Finished? {
        mergeFin := merge.limit;
      }
      hint := merge.hints;
      merge := NO_MERGE_DIR;
    }

    method ReloadFiles(now: int) returns (ok: bool)
      modifies this`files, this`mergeFin, this`hint, this`merge, this`index
      ensures View() == Reopened(old(View()), now)
      ensures ok == !LoadIndex(Installed(old(View())), now).failed
    {
      LoadMergeFiles();
      index := map[];
      LoadIndexFromHintFile();
      ok := LoadIndexFromWal(now);
    }

    /** Close, install a finished merge, open the files again and rebuild the index. */
    method Reload(now: int) returns (ok: bool)
      requires Valid() && InterruptionSafe(View())
      modifies this
      ensures Valid() && ok && closed == old(closed)
      ensures State() == Step(old(State()), Reopen(now))
      ensures Contents() == old(Contents())
    {
      hide Inv;
      ghost var next := Step(State(), Reopen(now));
      StepKeepsInv(State(), Reopen(now));
      ReopenedLogParses(View(), history, now);
      ok := ReloadFiles(now);
      history := next.history;
      assert State() == next;
    }

    /** One commit by another goroutine leaves a running merge's input alone. */
    method CommitOther(c: OtherCommit)
      requires Valid() && c.block.sealed && CanAppend(View(), history, c.block, c.rotate)
      modifies this
      ensures Valid() && closed == old(closed) && merge == old(merge) && mergeFin == old(mergeFin) && active >= old(active)
      ensures State() == Step(old(State()), Commit(c.block, c.rotate))
      ensures old(merge.limit < active) ==> OldChunks(View()) == old(OldChunks(View()))
    {
      hide Inv;
      if merge.limit < active {
        AppendKeepsOldSegments(View(), c.block, c.rotate, 1);
      }
      CommitBlock(c.block, c.rotate);
    }

    /** Commits by other goroutines, one after the other. */
    method CommitOthers(cs: seq<OtherCommit>)
      requires Valid() && RunFrom(State(), CommitEvents(cs)).Some?
      modifies this
      ensures Valid() && closed == old(closed) && merge == old(merge) && mergeFin == old(mergeFin)
      ensures Some(State()) == RunFrom(old(State()), CommitEvents(cs))
      ensures old(merge.limit < active) ==> merge.limit < active && OldChunks(View()) == old(OldChunks(View()))
    {
      hide Inv, Step, CanAppend;
      var i := 0;
      ghost var before, es, chunks := State(), CommitEvents(cs), OldChunks(View());
      while i < |cs|
        invariant i <= |cs|
        invariant Valid() && closed == old(closed) && merge == old(merge) && mergeFin == old(mergeFin)
        invariant Some(State()) == RunFrom(before, es[..i])
        invariant old(merge.limit < active) ==> merge.limit < active && OldChunks(View()) == chunks
      {
        RunFromStep(before, es, i);
        CommitOther(cs[i]);
        i := i + 1;
      }
      assert es[..i] == es;
    }

    method CopyIfLive(t: Target)
      requires merge.scanned < |OldChunks(View())|
      modifies this`merge
      ensures View() == AfterScan(old(View()), t.rotate, t.pos, t.now)
    {
      var c := ReadRange(files, 1, merge.limit)[merge.scanned];
      var r := c.record;
      if r.typ.Normal? && (r.expire == 0 || r.expire > t.now)
         && r.key in index && PositionEquals(index[r.key], c.pos) {
        merge := CopyRecord(merge, r, t.rotate, t.pos);
      } else {
        merge := merge.(scanned := merge.scanned + 1);
      }
    }

    /** One turn of the merge loop: copy the record if the live index still points at it. */
    method ScanChunk(t: Target)
      requires Valid() && CanScan(View(), t.rotate, t.pos)
      modifies this`merge
      ensures Valid() && State() == Step(old(State()), ScanEvent(t))
      ensures merge.scanned == old(merge.scanned) + 1 && merge.limit == old(merge.limit) && merge.phase.Scanning?
    {
      hide Inv;
      ghost var next := Step(State(), ScanEvent(t));
      StepKeepsInv(State(), ScanEvent(t));
      CopyIfLive(t);
      assert State() == next;
    }

    /** Other goroutines commit, then the loop takes its turn. */
    method MergeTurn(cs: seq<OtherCommit>, t: Target)
      requires Valid() && merge.phase.Scanning?
      requires RunFrom(State(), CommitEvents(cs)).Some? && Enabled(RunFrom(State(), CommitEvents(cs)).value, ScanEvent(t))
      modifies this
      ensures Valid() && closed == old(closed)
      ensures State() == Step(RunFrom(old(State()), CommitEvents(cs)).value, ScanEvent(t))
      ensures merge.scanned == old(merge.scanned) + 1 && merge.limit == old(merge.limit) && merge.phase.Scanning?
      ensures |OldChunks(View())| == old(|OldChunks(View())|)
    {
      hide Inv;
      LimitBelowActive(View(), history);
      CommitOthers(cs);
      ScanChunk(t);
    }

    /** The scan loop, other goroutines committing before each look-up. */
    method ScanAll(others: seq<seq<OtherCommit>>, targets: seq<Target>)
      requires Valid() && merge.phase.Scanning? && merge.scanned == 0
      requires |others| == |targets| == |OldChunks(View())|
      requires RunFrom(State(), ScanEvents(others, targets)).Some?
      modifies this
      ensures Valid() && closed == old(closed) && CanFinish(View()) && merge.limit == old(merge.limit)
      ensures Some(State()) == RunFrom(old(State()), ScanEvents(others, targets))
    {
      hide Inv;
      ghost var before := State();
      var i := 0;
      while i < |others|
        invariant i <= |others| && Valid() && closed == old(closed)
        invariant merge.phase.Scanning? && merge.scanned == i && merge.limit == old(merge.limit)
        invariant |OldChunks(View())| == |others|
        invariant Some(State()) == RunFrom(before, ScanEvents(others[..i], targets[..i]))
      {
        ScanTurn(before, others, targets, i);
        MergeTurn(others[i], targets[i]);
        i := i + 1;
      }
      assert others[..i] == others && targets[..i] == targets;
    }

    method RotateFiles()
      requires !IsEmptyLog(View())
      modifies this`files, this`active, this`merge
      ensures View() == AfterBeginMerge(old(View()))
    {
      files, active, merge := files[active + 1 := []], active + 1, Merge(Scanning, map[1 := []], 1, [], active, 0);
    }

    method Rotate()
      requires Valid() && !IsEmptyLog(View())
      modifies this
      ensures Valid() && closed == old(closed) && State() == Step(old(State()), BeginMerge)
      ensures OldChunks(View()) == ReadRange(old(files), 1, old(active)) && merge.limit == old(active)
      ensures merge.phase.Scanning? && merge.scanned == 0
    {
      hide Inv;
      BeginFacts(View(), history);
      ghost var next := HistoryAfterBegin(View(), history);
      RotateFiles();
      history := next;
    }

    method FinishScan()
      requires Valid() && CanFinish(View())
      modifies this`merge
      ensures Valid() && State() == Step(old(State()), FinishMerge)
      ensures merge.phase.Finished? && merge.limit == old(merge.limit)
    {
      FinishKeepsInv(View(), history);
      merge := merge.(phase := Finished);
    }

    /** `doMerge`: rotate the log, then scan the old segments while other goroutines commit, before each look-up and after
        the last one. The outcome is the run of exactly those steps, whatever the interleaving. */
    method DoMerge(others: seq<seq<OtherCommit>>, targets: seq<Target>, last: seq<OtherCommit>) returns (r: Result<Unit, DbError>)
      requires Valid() && |others| == |targets| == |ReadRange(files, 1, active)|
      requires !closed && !IsEmptyLog(View()) ==>
                 RunFrom(State(), [BeginMerge] + (ScanEvents(others, targets) + CommitEvents(last))).Some?
      modifies this
      ensures Valid() && closed == old(closed)
      ensures closed ==> r == Err(ErrDBClosed) && State() == old(State())
      ensures !closed ==> r == Ok(Unit)
      ensures !closed && old(IsEmptyLog(View())) ==> State() == old(State())
      ensures !closed && !old(IsEmptyLog(View())) ==> merge.phase.Finished? && merge.limit == old(active)
      ensures !closed && !old(IsEmptyLog(View())) ==> Some(State()) == RunFrom(old(State()), MergeEvents(others, targets, last))
    {
      hide Inv;
      if closed {
        return Err(ErrDBClosed);
      }
      if IsEmptyLog(View()) {
        return Ok(Unit);
      }
      ghost var before := State();
      ghost var scan, more := ScanEvents(others, targets), CommitEvents(last);
      RunFromOne(before, BeginMerge);
      RunFromConcat(before, [BeginMerge], scan + more);
      Rotate();
      RunFromConcat(State(), scan, more);
      ScanAll(others, targets);
      LimitBelowActive(View(), history);
      CommitOthers(last);
      RunFromSnoc(before, [BeginMerge] + (scan + more), FinishMerge);
      FinishScan();
      r := Ok(Unit);
    }

    /** `Merge`: compaction, and on request its installation at once. Other goroutines may commit once more before the lock
        for the installation is taken. */
    method MergeAll(reopenAfterDone: bool, others: seq<seq<OtherCommit>>, targets: seq<Target>, last: seq<OtherCommit>,
                    after: seq<OtherCommit>, now: int)
      returns (r: Result<Unit, DbError>)
      requires Valid() && |others| == |targets| == |ReadRange(files, 1, active)|
      requires !closed ==>
                 RunFrom(State(), (if IsEmptyLog(View()) then [] else MergeEvents(others, targets, last)) + CommitEvents(after)).Some?
      requires IsEmptyLog(View()) ==> InterruptionSafe(View())
      modifies this
      ensures Valid() && closed == old(closed)
      ensures closed ==> r == Err(ErrDBClosed) && State() == old(State())
      ensures !closed ==> r == Ok(Unit)
      ensures !closed ==>
                Contents() == MeaningFrom(old(Contents()), (if old(IsEmptyLog(View())) then [] else ScanEvents(others, targets) + CommitEvents(last))
                                                           + if reopenAfterDone then CommitEvents(after) else [])
    {
      hide Inv;
      ghost var before, more := State(), CommitEvents(after);
      ghost var merging := if IsEmptyLog(View()) then [] else MergeEvents(others, targets, last);
      ghost var commits := if IsEmptyLog(View()) then [] else ScanEvents(others, targets) + CommitEvents(last);
      if !closed {
        RunFromConcat(before, merging, more);
        if !IsEmptyLog(View()) {
          RunFromFront(before, [BeginMerge] + commits, FinishMerge);
        }
      }
      r := DoMerge(others, targets, last);
      if r.Err? {
        return;
      }
      MergedMeans(before, State(), merging, commits);
      assert commits + [] == commits;
      if reopenAfterDone {
        ghost var merged := State();
        CommitOthers(after);
        RunFromKeepsInv(merged, more);
        MeaningFromConcat(before.history.kv, commits, more);
        var _ := Reload(now);
      }
    }
  }

  // ---------- facts about runs ----------

  lemma ReopenedLogParses(s: Store, h: History, now: int)
    requires Inv(s, h) && InterruptionSafe(s)
    ensures !LoadIndex(Installed(s), now).failed
  {
    hide ReadRange, LogOf, IndexAfter, HintIndex, FreshIds, PositionsOk, Represents, FilesInv, HintsInv;
    if s.merge.phase.Finished? {
      InstalledLog(s, h);
      LoadIndexReplaysBatches(Installed(s), h.blocks[h.cut..], now);
    } else {
      UnfinishedKeepsFiles(s);
      LoadIndexReplaysBatches(Installed(s), h.blocks, now);
    }
  }

  lemma LimitBelowActive(s: Store, h: History)
    requires Inv(s, h) && !s.merge.phase.NoMerge?
    ensures s.merge.limit < s.active
  {
  }

  lemma RunFromOne(c: Config, e: Event)
    requires c.history.cut <= |c.history.blocks| && Enabled(c, e)
    ensures RunFrom(c, [e]) == Some(Step(c, e))
  {
    assert [e][..0] == [];
    assert RunFrom(c, []) == Some(c);
  }

  /** Every step of a run that goes through was enabled when its turn came. */
  lemma RunFromStep(c: Config, es: seq<Event>, i: nat)
    requires c.history.cut <= |c.history.blocks| && RunFrom(c, es).Some? && i < |es|
    ensures RunFrom(c, es[..i]).Some? && Enabled(RunFrom(c, es[..i]).value, es[i])
    ensures RunFrom(c, es[..i + 1]) == Some(Step(RunFrom(c, es[..i]).value, es[i]))
  {
    assert es == es[..i] + [es[i]] + es[i + 1..];
    RunFromConcat(c, es[..i] + [es[i]], es[i + 1..]);
    RunTurn(c, es[..i], es[i]);
    assert es[..i + 1] == es[..i] + [es[i]];
  }

  lemma {:induction false} ScanEventsSplit(others: seq<seq<OtherCommit>>, targets: seq<Target>, i: nat)
    returns (rest: seq<Event>)
    requires |others| == |targets| && i < |others|
    ensures ScanEvents(others, targets)
         == ScanEvents(others[..i], targets[..i]) + TurnEvents(others[i], targets[i]) + rest
  {
    var n := |others| - 1;
    if i == n {
      rest := [];
    } else {
      rest := ScanEventsSplit(others[..n], targets[..n], i);
      assert others[..n][..i] == others[..i] && targets[..n][..i] == targets[..i];
      rest := rest + TurnEvents(others[n], targets[n]);
    }
  }

  lemma ScanEventsSnoc(others: seq<seq<OtherCommit>>, targets: seq<Target>, i: nat)
    requires |others| == |targets| && i < |others|
    ensures ScanEvents(others[..i + 1], targets[..i + 1])
         == ScanEvents(others[..i], targets[..i]) + TurnEvents(others[i], targets[i])
  {
    assert others[..i + 1][..i] == others[..i] && targets[..i + 1][..i] == targets[..i];
  }

  /** In a merge run that goes through, turn `i` can take its commits and then its scan step. */
  lemma ScanTurn(c: Config, others: seq<seq<OtherCommit>>, targets: seq<Target>, i: nat)
    requires c.history.cut <= |c.history.blocks| && |others| == |targets| && i < |others|
    requires RunFrom(c, ScanEvents(others, targets)).Some?
    ensures RunFrom(c, ScanEvents(others[..i], targets[..i])).Some?
    ensures var before := RunFrom(c, ScanEvents(others[..i], targets[..i])).value;
            var mid := RunFrom(before, CommitEvents(others[i]));
            mid.Some? && Enabled(mid.value, ScanEvent(targets[i]))
            && (RunFrom(c, ScanEvents(others[..i + 1], targets[..i + 1])) == Some(Step(mid.value, ScanEvent(targets[i]))))
  {
    var a := ScanEvents(others[..i], targets[..i]);
    var turn := TurnEvents(others[i], targets[i]);
    var rest := ScanEventsSplit(others, targets, i);
    RunFromConcat(c, a + turn, rest);
    RunFromConcat(c, a, turn);
    ScanEventsSnoc(others, targets, i);
    RunTurn(RunFrom(c, a).value, CommitEvents(others[i]), ScanEvent(targets[i]));
  }

  lemma RunTurn(c: Config, es: seq<Event>, e: Event)
    requires c.history.cut <= |c.history.blocks| && RunFrom(c, es + [e]).Some?
    ensures RunFrom(c, es).Some? && Enabled(RunFrom(c, es).value, e)
    ensures RunFrom(c, es + [e]) == Some(Step(RunFrom(c, es).value, e))
  {
    hide Step, Enabled;
    assert (es + [e])[..|es|] == es;
  }

  lemma BeginFacts(s: Store, h: History)
    requires Inv(s, h) && !IsEmptyLog(s)
    ensures Inv(AfterBeginMerge(s), HistoryAfterBegin(s, h))
    ensures OldChunks(AfterBeginMerge(s)) == ReadRange(s.files, 1, s.active)
  {
    BeginKeepsInv(s, h);
    ReadRangeFrame(s.files, AfterBeginMerge(s).files, 1, s.active);
  }

  lemma RunFromFront(c: Config, es: seq<Event>, e: Event)
    requires c.history.cut <= |c.history.blocks| && RunFrom(c, es + [e]).Some?
    ensures RunFrom(c, es).Some?
  {
    hide Step, Enabled;
    assert (es + [e])[..|es|] == es;
  }

  lemma MergedMeans(before: Config, merged: Config, merging: seq<Event>, commits: seq<Event>)
    requires Inv(before.store, before.history) && RunFrom(before, merging) == Some(merged)
    requires merging == commits == [] || merging == [BeginMerge] + commits + [FinishMerge]
    ensures merged.history.kv == MeaningFrom(before.history.kv, commits)
  {
    hide Inv;
    RunFromKeepsInv(before, merging);
    if merging != [] {
      MergeMeaning(before.history.kv, commits);
    }
  }

  /** Beginning and finishing a merge commits nothing. */
  lemma MergeMeaning(kv: map<Key, Value>, es: seq<Event>)
    ensures MeaningFrom(kv, [BeginMerge] + es + [FinishMerge]) == MeaningFrom(kv, es)
  {
    var all := [BeginMerge] + es + [FinishMerge];
    assert all[..|all| - 1] == [BeginMerge] + es;
    MeaningFromConcat(kv, [BeginMerge], es);
    assert [BeginMerge][..0] == [];
    assert MeaningFrom(kv, [BeginMerge]) == MeaningFrom(kv, []) == kv;
  }

  lemma {:induction false} MeaningFromConcat(kv: map<Key, Value>, a: seq<Event>, b: seq<Event>)
    ensures MeaningFrom(kv, a + b) == MeaningFrom(MeaningFrom(kv, a), b)
  {
    if b == [] {
      assert a + b == a;
    } else {
      assert (a + b)[..|a + b| - 1] == a + b[..|b| - 1];
      MeaningFromConcat(kv, a, b[..|b| - 1]);
    }
  }

  /** Once an end record does not parse, recovery has stopped: nothing later changes it. */
  lemma {:induction false} ReplayAfterFailure(s: Recovery, log: seq<Chunk>, now: int)
    requires s.failed
    ensures Replay(s, log, now) == s
  {
    if log != [] {
      ReplayAfterFailure(s, log[..|log| - 1], now);
    }
  }

  lemma ReplayNothing(s: Recovery, now: int)
    ensures Replay(s, [], now) == s
  {
  }

  lemma ReplayNextSegment(s: Recovery, files: Files, lo: nat, seg: nat, now: int)
    requires 1 <= lo <= seg
    ensures Replay(s, ReadRange(files, lo, seg), now)
         == Replay(Replay(s, ReadRange(files, lo, seg - 1), now), Segment(files, seg), now)
  {
    ReplayConcat(s, ReadRange(files, lo, seg - 1), Segment(files, seg), now);
  }

  lemma {:induction false} ReplayStaysFailed(s: Recovery, files: Files, lo: nat, seg: nat, hi: nat, now: int)
    requires 1 <= lo <= seg <= hi && Replay(s, ReadRange(files, lo, seg), now).failed
    ensures Replay(s, ReadRange(files, lo, hi), now) == Replay(s, ReadRange(files, lo, seg), now)
  {
    if seg < hi {
      ReplayStaysFailed(s, files, lo, seg, hi - 1, now);
      ReplayNextSegment(s, files, lo, hi, now);
      ReplayAfterFailure(Replay(s, ReadRange(files, lo, hi - 1), now), Segment(files, hi), now);
    }
  }
}
