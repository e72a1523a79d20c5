/** What fails in diskv when an assumption does, and exactly when. */
module DiskvLost {
  import opened Common
  import opened DiskvLog
  import opened DiskvFiles
  import opened DiskvStore
  import opened DiskvMerge
  import opened DiskvRuns

  function At(offset: nat): Position {
    Position(1, 0, offset, 0)
  }

  /** One batch that puts one key. */
  function OnePut(k: Key, v: Value): Block {
    Block(1, [Op.Put(k, v)], [At(0), At(1)], true)
  }

  /** The chunk as the batch wrote it, and as the merge copied it. */
  function Original(k: Key, v: Value): Chunk {
    Chunk(LogRecord(k, v, Normal, 1, 0), At(0))
  }

  function Copy(k: Key, v: Value): Chunk {
    Chunk(LogRecord(k, v, Normal, 0, 0), At(0))
  }

  function Logged(k: Key, v: Value): seq<Chunk> {
    [Original(k, v), Chunk(EndRecord(1), At(1))]
  }

  // ---------- the configurations of the run ----------

  function Committed(k: Key, v: Value): Config {
    Config(Store(map[1 := Logged(k, v)], 1, map[k := At(0)], [], 0, NO_MERGE_DIR), History([OnePut(k, v)], 0, map[k := v]))
  }

  function Merging(k: Key, v: Value, copied: bool, scanned: nat, phase: MergePhase): Config {
    var m := if copied then Merge(phase, map[1 := [Copy(k, v)]], 1, [Hint(k, At(0))], 1, scanned)
             else Merge(phase, map[1 := []], 1, [], 1, scanned);
    Config(Store(map[1 := Logged(k, v), 2 := []], 2, map[k := At(0)], [], 0, m), History([OnePut(k, v)], 1, map[k := v]))
  }

  function Merged(k: Key, v: Value): Config {
    Config(Store(map[1 := [Copy(k, v)], 2 := []], 2, map[k := At(0)], [Hint(k, At(0))], 1, NO_MERGE_DIR),
           History([], 0, map[k := v]))
  }

  function MergingAgain(k: Key, v: Value): Config {
    Config(Store(map[1 := [Copy(k, v)], 2 := [], 3 := []], 3, map[k := At(0)], [Hint(k, At(0))], 1,
                 Merge(Scanning, map[1 := []], 1, [], 2, 0)),
           History([], 0, map[k := v]))
  }

  lemma CommitStep(k: Key, v: Value)
    ensures Enabled(START, Event.Commit(OnePut(k, v), false)) && Step(START, Event.Commit(OnePut(k, v), false)) == Committed(k, v)
  {
    var b := OnePut(k, v);
    assert BlockChunks(b) == Logged(k, v);
    assert OpIndexRecords(b) == [IndexRecord(k, Normal, At(0))];
    assert OpIndexRecords(b)[..0] == [];
    assert ApplyIndexRecords(map[], OpIndexRecords(b)) == map[k := At(0)];
    assert b.ops[..0] == [];
    assert ApplyOps(map[], b.ops) == map[k := v];
    assert Segment(START.store.files, 1) + BlockChunks(b) == Logged(k, v);
    assert START.store.files[1 := Logged(k, v)] == map[1 := Logged(k, v)];
    assert TornIds([]) == {};
  }

  lemma BeginStep(k: Key, v: Value)
    ensures Step(Committed(k, v), BeginMerge) == Merging(k, v, false, 0, Scanning)
  {
    var s := Committed(k, v).store;
    assert 1 in s.files && s.files[1] != [];
  }

  lemma OldChunksAre(k: Key, v: Value, copied: bool, scanned: nat, phase: MergePhase)
    ensures OldChunks(Merging(k, v, copied, scanned, phase).store) == Logged(k, v)
  {
    var files := Merging(k, v, copied, scanned, phase).store.files;
    assert ReadRange(files, 1, 1) == ReadRange(files, 1, 0) + Segment(files, 1);
  }

  lemma ScanSteps(k: Key, v: Value, now: int)
    ensures Enabled(Merging(k, v, false, 0, Scanning), ScanOne(false, At(0), now))
    ensures Step(Merging(k, v, false, 0, Scanning), ScanOne(false, At(0), now)) == Merging(k, v, true, 1, Scanning)
    ensures Enabled(Merging(k, v, true, 1, Scanning), ScanOne(false, At(1), now))
    ensures Step(Merging(k, v, true, 1, Scanning), ScanOne(false, At(1), now)) == Merging(k, v, true, 2, Scanning)
  {
    hide OldChunks, IdBytes;
    OldChunksAre(k, v, false, 0, Scanning);
    OldChunksAre(k, v, true, 1, Scanning);
    var m := Merging(k, v, false, 0, Scanning).store.merge;
    assert Segment(m.files, 1) + [Copy(k, v)] == [Copy(k, v)];
    assert m.files[1 := [Copy(k, v)]] == map[1 := [Copy(k, v)]];
  }

  lemma FinishStep(k: Key, v: Value)
    ensures Enabled(Merging(k, v, true, 2, Scanning), FinishMerge)
    ensures Step(Merging(k, v, true, 2, Scanning), FinishMerge) == Merging(k, v, true, 2, Finished)
  {
    OldChunksAre(k, v, true, 2, Scanning);
  }

  lemma InstallStep(k: Key, v: Value, now: int)
    ensures Enabled(Merging(k, v, true, 2, Finished), Reopen(now))
    ensures Step(Merging(k, v, true, 2, Finished), Reopen(now)) == Merged(k, v)
  {
    hide Logged;
    var s := Merging(k, v, true, 2, Finished).store;
    var files := Merged(k, v).store.files;
    assert InstalledFiles(s) == files;
    assert ReadRange(files, 2, 2) == ReadRange(files, 2, 1) + Segment(files, 2) == [];
    OneHint(k);
  }

  lemma OneHint(k: Key)
    ensures HintIndex([Hint(k, At(0))]) == map[k := At(0)]
  {
    assert [Hint(k, At(0))][..0] == [];
  }

  lemma BeginAgain(k: Key, v: Value)
    ensures Step(Merged(k, v), BeginMerge) == MergingAgain(k, v)
  {
    assert 1 in Merged(k, v).store.files;
  }

  function Events(k: Key, v: Value, now: int): seq<Event> {
    [Event.Commit(OnePut(k, v), false), BeginMerge, ScanOne(false, At(0), now), ScanOne(false, At(1), now), FinishMerge,
     Reopen(now), BeginMerge]
  }

  lemma Reached(k: Key, v: Value, now: int)
    ensures Run(Events(k, v, now)) == Some(MergingAgain(k, v))
  {
    hide Step, Enabled, Committed, Merging, Merged, MergingAgain, RunFrom;
    var es := Events(k, v, now);
    StartRun();
    CommitStep(k, v);
    NextStep(es, 0, START);
    BeginStep(k, v);
    Cuts(k, v);
    NextStep(es, 1, Committed(k, v));
    ScanSteps(k, v, now);
    NextStep(es, 2, Merging(k, v, false, 0, Scanning));
    NextStep(es, 3, Merging(k, v, true, 1, Scanning));
    FinishStep(k, v);
    NextStep(es, 4, Merging(k, v, true, 2, Scanning));
    InstallStep(k, v, now);
    NextStep(es, 5, Merging(k, v, true, 2, Finished));
    BeginAgain(k, v);
    NextStep(es, 6, Merged(k, v));
    assert es[..7] == es;
  }

  lemma StartRun()
    ensures Run([]) == Some(START)
  {
  }

  lemma Cuts(k: Key, v: Value)
    ensures Enabled(Committed(k, v), BeginMerge) && Enabled(Merged(k, v), BeginMerge)
  {
  }

  lemma NextStep(es: seq<Event>, i: nat, c: Config)
    requires i < |es| && Run(es[..i]) == Some(c) && Enabled(c, es[i])
    ensures c.history.cut <= |c.history.blocks| && Run(es[..i + 1]) == Some(Step(c, es[i]))
  {
    hide Step, Enabled;
    assert es[..i + 1][..i] == es[..i];
  }

  /** After one installed merge, a second merge that is interrupted before its scan reaches a key loses that key on
      reopening: the empty hint file replaces the one that had the key. */
  lemma InterruptedSecondMergeLosesKey(k: Key, v: Value, now: int) returns (es: seq<Event>)
    ensures Run(es).Some? && Meaning(es) == map[k := v]
    ensures var s := Run(es).value.store;
            s.merge.phase.Scanning? && s.mergeFin != 0
            && ReadKey(s, k) == Some(v) && ReadKey(Reopened(s, now), k) == None
  {
    hide Run, Meaning, Inv;
    es := Events(k, v, now);
    Reached(k, v, now);
    RunKeepsInv(es);
    var s := MergingAgain(k, v).store;
    UnfinishedKeepsFiles(s);
    assert ReadRange(s.files, 2, 3) == ReadRange(s.files, 2, 2) + [] == [];
    assert Reopened(s, now).index == map[];
  }

  // ---------- a batch id that is used twice ----------

  /** The last operation on `k` is a put. */
  predicate LastPut(ops: seq<Op>, k: Key) {
    ops != []
    && if ops[|ops| - 1].key == k then ops[|ops| - 1].Put? else LastPut(ops[..|ops| - 1], k)
  }

  /** What the operations of a batch leave under one key, over the index `built`. */
  lemma {:induction false} KeyAfter(b: Block, n: nat, built: Index, k: Key)
    requires WellFormed(b) && n <= |b.ops|
    ensures var m := ApplyIndexRecords(built, OpIndexRecords(b)[..n]);
            if !OpsTouch(b.ops[..n], k) then SameAt(m, built, k)
            else if LastPut(b.ops[..n], k) then k in m && m[k] in b.at
            else k !in m
  {
    if n > 0 {
      assert OpIndexRecords(b)[..n][..n - 1] == OpIndexRecords(b)[..n - 1];
      assert OpIndexRecords(b)[..n][n - 1] == OpIndexRecords(b)[n - 1];
      assert b.ops[..n][..n - 1] == b.ops[..n - 1];
      KeyAfter(b, n - 1, built, k);
      TouchedSnoc(b.ops, n, k);
    }
  }

  lemma TouchedSnoc(ops: seq<Op>, n: nat, k: Key)
    requires 0 < n <= |ops|
    ensures OpsTouch(ops[..n], k) <==> OpsTouch(ops[..n - 1], k) || ops[n - 1].key == k
  {
    if OpsTouch(ops[..n - 1], k) {
      var i :| 0 <= i < n - 1 && ops[..n - 1][i].key == k;
      assert ops[..n][i].key == k;
    }
    if ops[n - 1].key == k {
      assert ops[..n][n - 1].key == k;
    }
  }

  lemma {:induction false} ApplyConcat(index: Index, a: seq<IndexRecord>, b: seq<IndexRecord>)
    ensures ApplyIndexRecords(index, a + b) == ApplyIndexRecords(ApplyIndexRecords(index, a), b)
  {
    if b == [] {
      assert a + b == a;
    } else {
      assert (a + b)[..|a + b| - 1] == a + b[..|b| - 1];
      ApplyConcat(index, a, b[..|b| - 1]);
    }
  }

  /** The torn batch would have changed the entry of `k`: it left `k` put, or deleted it where it was indexed. */
  predicate Disturbs(torn: Block, built: Index, k: Key) {
    OpsTouch(torn.ops, k) && (LastPut(torn.ops, k) || k in built)
  }

  /** What one key gets, with and without the torn batch. */
  lemma TornKey(torn: Block, late: Block, built: Index, k: Key)
    requires WellFormed(torn) && WellFormed(late) && forall j :: j in built ==> built[j] !in torn.at
    ensures var m := ApplyIndexRecords(built, OpIndexRecords(torn));
            SameAt(ApplyIndexRecords(m, OpIndexRecords(late)), ApplyIndexRecords(built, OpIndexRecords(late)), k)
            <==> (Disturbs(torn, built, k) ==> OpsTouch(late.ops, k))
  {
    hide ApplyIndexRecords, LastPut;
    var m := ApplyIndexRecords(built, OpIndexRecords(torn));
    var n := |late.ops|;
    assert OpIndexRecords(late)[..n] == OpIndexRecords(late) && late.ops[..n] == late.ops;
    assert OpIndexRecords(torn)[..|torn.ops|] == OpIndexRecords(torn) && torn.ops[..|torn.ops|] == torn.ops;
    KeyAfter(torn, |torn.ops|, built, k);
    if OpsTouch(late.ops, k) {
      OpsDecide(m, built, late, n, k);
    } else {
      OpsUntouched(m, late, n, k);
      OpsUntouched(built, late, n, k);
    }
  }

  /** A batch that reuses the id of a torn batch releases its records. Whatever batches lie before and between the two,
      recovery still means the sealed batches exactly if the later batch writes or deletes every key whose entry in the
      index built so far the torn batch would have changed. */
  lemma ReusedIdIsHarmlessIff(before: seq<Block>, torn: Block, between: seq<Block>, late: Block, now: int)
    requires AllWellFormed(before) && AllWellFormed(between) && WellFormed(torn) && WellFormed(late)
    requires !torn.sealed && late.sealed && torn.id == late.id && late.id !in TornIds(between)
    requires FreshIds({}, before + [torn] + between)
    requires var built := IndexAfter(map[], before + between); forall k :: k in built ==> built[k] !in torn.at
    ensures AllWellFormed(before + [torn] + between + [late])
    ensures var all := before + [torn] + between + [late];
            Replay(Recovery(map[], map[], false), LogOf(all), now).index == IndexAfter(map[], all)
            <==> forall k: Key :: Disturbs(torn, IndexAfter(map[], before + between), k) ==> OpsTouch(late.ops, k)
  {
    hide ApplyIndexRecords, OpIndexRecords, Disturbs, OpsTouch, Replay, IndexAfter, TornIds, FreshIds;
    ReusedIdAppliesTornBatch(before, torn, between, late, now);
    var built := IndexAfter(map[], before + between);
    ApplyConcat(built, OpIndexRecords(torn), OpIndexRecords(late));
    var m := ApplyIndexRecords(built, OpIndexRecords(torn));
    var r, w := ApplyIndexRecords(m, OpIndexRecords(late)), ApplyIndexRecords(built, OpIndexRecords(late));
    forall k: Key
      ensures SameAt(r, w, k) <==> (Disturbs(torn, built, k) ==> OpsTouch(late.ops, k))
    {
      TornKey(torn, late, built, k);
    }
    if forall k: Key :: Disturbs(torn, built, k) ==> OpsTouch(late.ops, k) {
      forall k: Key
        ensures (k in r <==> k in w) && (k in r ==> r[k] == w[k])
      {
        assert SameAt(r, w, k) <==> (Disturbs(torn, built, k) ==> OpsTouch(late.ops, k));
      }
      assert r.Keys == w.Keys;
    }
  }
}
