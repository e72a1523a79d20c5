/** Every run of the store means the committed map. */
module DiskvRuns {
  import opened Common
  import opened DiskvLog
  import opened DiskvFiles
  import opened DiskvStore
  import opened DiskvMerge

  datatype Event =
    | Commit(block: Block, rotate: bool)
    | Crash(torn: Block, rotate: bool, now: int)
    | BeginMerge
    | ScanOne(rotate: bool, pos: Position, now: int)
    | FinishMerge
    | Reopen(now: int)

  datatype Config = Config(store: Store, history: History)

  /** What the environment of each step guarantees.  A crash or reopening may interrupt a
      merge, provided no earlier merge was installed. */
  predicate Enabled(c: Config, e: Event) {
    match e
    case Commit(b, rotate) => b.sealed && CanAppend(c.store, c.history, b, rotate)
    case Crash(b, rotate, _) => !b.sealed && CanAppend(c.store, c.history, b, rotate) && InterruptionSafe(c.store)
    case BeginMerge => true
    case ScanOne(rotate, pos, _) => CanScan(c.store, rotate, pos)
    case FinishMerge => CanFinish(c.store)
    case Reopen(_) => InterruptionSafe(c.store)
  }

  predicate InterruptionSafe(s: Store) {
    s.merge.phase.Scanning? ==> s.mergeFin == 0
  }

  /** One step.  A crash leaves a prefix of a batch in the log and is followed by reopening. */
  function Step(c: Config, e: Event): Config
    requires Enabled(c, e) && c.history.cut <= |c.history.blocks|
  {
    var s, h := c.store, c.history;
    match e
    case Commit(b, rotate) => Config(AfterAppend(s, b, rotate), AddBlock(h, b))
    case Crash(b, rotate, now) =>
      var t, g := AfterAppend(s, b, rotate), AddBlock(h, b);
      Config(Reopened(t, now), HistoryAfterReopen(t, g))
    case BeginMerge => Config(AfterBeginMerge(s), HistoryAfterBegin(s, h))
    case ScanOne(rotate, pos, now) => Config(AfterScan(s, rotate, pos, now), h)
    case FinishMerge => Config(AfterFinishMerge(s), h)
    case Reopen(now) => Config(Reopened(s, now), HistoryAfterReopen(s, h))
  }

  lemma ReopenKeepsInv(s: Store, h: History, now: int)
    requires Inv(s, h) && InterruptionSafe(s)
    ensures Inv(Reopened(s, now), HistoryAfterReopen(s, h))
  {
    if s.merge.phase.Finished? {
      InstallKeepsInv(s, h, now);
    } else {
      UnfinishedReopenKeepsInv(s, h, now);
    }
  }

  lemma StepKeepsInv(c: Config, e: Event)
    requires Inv(c.store, c.history) && Enabled(c, e)
    ensures Inv(Step(c, e).store, Step(c, e).history)
  {
    var s, h := c.store, c.history;
    match e
    case Commit(b, rotate) => AppendKeepsInv(s, h, b, rotate);
    case Crash(b, rotate, now) =>
      AppendKeepsInv(s, h, b, rotate);
      ReopenKeepsInv(AfterAppend(s, b, rotate), AddBlock(h, b), now);
    case BeginMerge => BeginKeepsInv(s, h);
    case ScanOne(rotate, pos, now) => ScanKeepsInv(s, h, rotate, pos, now);
    case FinishMerge => FinishKeepsInv(s, h);
    case Reopen(now) => ReopenKeepsInv(s, h, now);
  }

  const START := Config(EmptyStore(), History([], 0, map[]))

  lemma StartInv()
    ensures Inv(START.store, START.history)
  {
    var s := EmptyStore();
    assert ReadRange(s.files, 1, 0) == [];
  }

  /** The configuration after a run, if every event of it was enabled when it happened. */
  function RunFrom(c: Config, es: seq<Event>): (r: Option<Config>)
    requires c.history.cut <= |c.history.blocks|
    ensures r.Some? ==> r.value.history.cut <= |r.value.history.blocks|
  {
    if es == [] then Some(c)
    else match RunFrom(c, es[..|es| - 1])
      case None => None
      case Some(d) => if Enabled(d, es[|es| - 1]) then Some(Step(d, es[|es| - 1])) else None
  }

  function Run(es: seq<Event>): (r: Option<Config>) {
    RunFrom(START, es)
  }

  lemma RunFromSnoc(c: Config, es: seq<Event>, e: Event)
    requires c.history.cut <= |c.history.blocks| && RunFrom(c, es).Some? && Enabled(RunFrom(c, es).value, e)
    ensures RunFrom(c, es + [e]) == Some(Step(RunFrom(c, es).value, e))
  {
    assert (es + [e])[..|es|] == es;
  }

  /** Running two stretches one after the other. */
  lemma {:induction false} RunFromConcat(c: Config, a: seq<Event>, b: seq<Event>)
    requires c.history.cut <= |c.history.blocks|
    ensures RunFrom(c, a + b) == match RunFrom(c, a) case None => None case Some(d) => RunFrom(d, b)
  {
    if b == [] {
      assert a + b == a;
    } else {
      assert (a + b)[..|a + b| - 1] == a + b[..|b| - 1];
      RunFromConcat(c, a, b[..|b| - 1]);
    }
  }

  /** The reference: apply the operations of the committed batches in commit order. */
  function MeaningFrom(kv: map<Key, Value>, es: seq<Event>): map<Key, Value> {
    if es == [] then kv
    else
      var before := MeaningFrom(kv, es[..|es| - 1]);
      match es[|es| - 1]
      case Commit(b, _) => ApplyOps(before, b.ops)
      case _ => before
  }

  function Meaning(es: seq<Event>): map<Key, Value> {
    MeaningFrom(map[], es)
  }

  /** What a reader gets for a key. */
  function ReadKey(s: Store, k: Key): Option<Value> {
    if k in s.index && ReadAt(s.files, s.index[k]).Some? then Some(ReadAt(s.files, s.index[k]).value.value) else None
  }

  predicate ReadsNormal(s: Store, k: Key)
    requires k in s.index
  {
    var r := ReadAt(s.files, s.index[k]);
    r.Some? && r.value.typ.Normal? && r.value.key == k
  }

  lemma {:induction false} RunFromKeepsInv(c: Config, es: seq<Event>)
    requires Inv(c.store, c.history) && RunFrom(c, es).Some?
    ensures var d := RunFrom(c, es).value;
            Inv(d.store, d.history) && d.history.kv == MeaningFrom(c.history.kv, es)
  {
    hide LogInv, MergeInv, Step, Enabled;
    if es != [] {
      RunFromKeepsInv(c, es[..|es| - 1]);
      StepKeepsInv(RunFrom(c, es[..|es| - 1]).value, es[|es| - 1]);
      StepMeaning(RunFrom(c, es[..|es| - 1]).value, es[|es| - 1]);
    }
  }

  /** Only a commit moves the map. */
  lemma StepMeaning(c: Config, e: Event)
    requires c.history.cut <= |c.history.blocks| && Enabled(c, e)
    ensures Step(c, e).history.kv == match e case Commit(b, _) => ApplyOps(c.history.kv, b.ops) case _ => c.history.kv
  {
  }

  lemma RunKeepsInv(es: seq<Event>)
    requires Run(es).Some?
    ensures Inv(Run(es).value.store, Run(es).value.history)
    ensures Run(es).value.history.kv == Meaning(es)
    ensures Run(es).value.history.cut <= |Run(es).value.history.blocks|
  {
    StartInv();
    RunFromKeepsInv(START, es);
  }

  /** Main theorem.  After any run, every key reads as the committed batches say, the indexed
      record is a normal record of that key, and reopening rebuilds the same readings. */
  lemma RunMeansCommittedMap(es: seq<Event>, k: Key, now: int)
    requires Run(es).Some?
    ensures var s := Run(es).value.store;
            ReadKey(s, k) == (if k in Meaning(es) then Some(Meaning(es)[k]) else None)
            && (k in s.index ==> ReadsNormal(s, k))
            && (InterruptionSafe(s) ==> ReadKey(Reopened(s, now), k) == ReadKey(s, k))
  {
    RunKeepsInv(es);
    var c := Run(es).value;
    assert Represents(c.store.files, c.store.index, c.history.kv);
    if InterruptionSafe(c.store) {
      ReopenKeepsInv(c.store, c.history, now);
      var r := Reopened(c.store, now);
      assert Represents(r.files, r.index, c.history.kv);
    }
  }

  /** In every reachable state the live index is what replaying the log would build. */
  lemma LiveIndexIsReplay(es: seq<Event>, now: int)
    requires Run(es).Some?
    ensures !LoadIndex(Run(es).value.store, now).failed
    ensures LoadIndex(Run(es).value.store, now).index == Run(es).value.store.index
  {
    RunKeepsInv(es);
    ReplayRestoresIndex(Run(es).value.store, Run(es).value.history, now);
  }

  lemma ReplayRestoresIndex(s: Store, h: History, now: int)
    requires LogInv(s, h)
    ensures !LoadIndex(s, now).failed && LoadIndex(s, now).index == s.index
  {
    LoadIndexReplaysBatches(s, h.blocks, now);
  }

  /** A merge that ran to completion at any point of a run holds, for every key no later batch
      decides, exactly the live value, copied once; and nothing else. */
  lemma FinishedMergeHoldsLiveKeys(es: seq<Event>, k: Key)
    requires Run(es).Some? && Run(es).value.store.merge.phase.Finished?
    ensures var s, h := Run(es).value.store, Run(es).value.history;
            DistinctHints(s.merge.hints)
            && (!Touched(h.blocks[h.cut..], k) ==>
                  (k in HintIndex(s.merge.hints) <==> k in Meaning(es))
                  && (k in Meaning(es) ==>
                        HoldsRecord(InstalledFiles(s), HintIndex(s.merge.hints)[k], k, Meaning(es)[k])))
  {
    RunKeepsInv(es);
    var s, h := Run(es).value.store, Run(es).value.history;
    if !Touched(h.blocks[h.cut..], k) {
      InstalledUntouchedKey(s, h, k);
    }
  }

  // ---------- interrupting a merge after an earlier one was installed ----------

  /** Does the partial hint file of an interrupted merge still lead `k` to its value? */
  predicate PartialHintReads(s: Store, k: Key, v: Value) {
    var hints := HintIndex(s.merge.hints);
    k in hints && ReadAt(s.files, hints[k]).Some?
    && ReadAt(s.files, hints[k]).value == LogRecord(k, v, Normal, ReadAt(s.files, hints[k]).value.batchId, 0)
  }

  /** The index an interrupted merge leaves after reopening. */
  function InterruptedIndex(s: Store, h: History): Index
    requires AllWellFormed(h.blocks)
  {
    IndexAfter(HintIndex(s.merge.hints), h.blocks)
  }

  lemma InterruptedReopen(s: Store, h: History, now: int)
    requires Inv(s, h) && s.merge.phase.Scanning?
    ensures Reopened(s, now).files == s.files && Reopened(s, now).index == InterruptedIndex(s, h)
  {
    hide ReadRange, LogOf, IndexAfter, HintIndex, FreshIds, PositionsOk, Represents, MergeInv, FilesInv, HintsInv;
    UnfinishedKeepsFiles(s);
    LoadIndexReplaysBatches(Installed(s), h.blocks, now);
  }

  predicate PartialHintsSuffice(s: Store, kv: map<Key, Value>)
    requires kv.Keys <= s.index.Keys
  {
    forall k <- kv :: s.index[k].segmentId <= s.mergeFin ==> PartialHintReads(s, k, kv[k])
  }

  lemma HarmlessInterruptionNeedsHints(s: Store, h: History, k: Key)
    requires Inv(s, h) && s.merge.phase.Scanning? && k in h.kv
    requires Represents(s.files, InterruptedIndex(s, h), h.kv)
    ensures s.index[k].segmentId <= s.mergeFin ==> PartialHintReads(s, k, h.kv[k])
  {
    InterruptedKey(s, h, k);
    assert k in InterruptedIndex(s, h);
  }

  lemma HintsMakeInterruptionHarmless(s: Store, h: History, k: Key)
    requires Inv(s, h) && s.merge.phase.Scanning? && PartialHintsSuffice(s, h.kv)
    ensures var m := InterruptedIndex(s, h);
            (k in m <==> k in h.kv) && (k in m ==> HoldsRecord(s.files, m[k], k, h.kv[k]))
  {
    InterruptedKey(s, h, k);
    if k in h.kv && s.index[k].segmentId <= s.mergeFin {
      assert PartialHintReads(s, k, h.kv[k]);
    }
  }

  /** Exactly when reopening after an interrupted merge is harmless, whatever came before:
      every key that only merged segments hold needs a partial hint that happens to read its
      value in the segments it was meant to replace. */
  lemma InterruptedMergeIsHarmlessIff(s: Store, h: History, now: int)
    requires Inv(s, h) && s.merge.phase.Scanning?
    ensures Represents(Reopened(s, now).files, Reopened(s, now).index, h.kv) <==> PartialHintsSuffice(s, h.kv)
  {
    InterruptedReopen(s, h, now);
    var m := InterruptedIndex(s, h);
    if Represents(s.files, m, h.kv) {
      forall k | k in h.kv && s.index[k].segmentId <= s.mergeFin
        ensures PartialHintReads(s, k, h.kv[k])
      {
        HarmlessInterruptionNeedsHints(s, h, k);
      }
    } else if PartialHintsSuffice(s, h.kv) {
      forall k
        ensures (k in m <==> k in h.kv) && (k in m ==> HoldsRecord(s.files, m[k], k, h.kv[k]))
      {
        HintsMakeInterruptionHarmless(s, h, k);
      }
      RepresentsByKey(s.files, m, h.kv);
      assert false;
    }
  }

  lemma RepresentsByKey(files: Files, index: Index, kv: map<Key, Value>)
    requires forall k :: (k in index <==> k in kv) && (k in index ==> HoldsRecord(files, index[k], k, kv[k]))
    ensures Represents(files, index, kv)
  {
  }

  lemma InterruptedKey(s: Store, h: History, k: Key)
    requires Inv(s, h) && s.merge.phase.Scanning?
    ensures var hints, m := HintIndex(s.merge.hints), IndexAfter(HintIndex(s.merge.hints), h.blocks);
            (k in s.index && s.index[k].segmentId > s.mergeFin ==> k in m && m[k] == s.index[k])
            && (k in s.index && s.index[k].segmentId <= s.mergeFin ==> SameAt(m, hints, k))
            && (k !in s.index ==> k !in m)
  {
    hide IndexAfter, LogOf, FreshIds, Covered, DistinctHints, ReadAt, AmongChunks, HintIndex, Touched, DistinctPositions;
    var hints := HintIndex(s.merge.hints);
    if Touched(h.blocks, k) {
      IndexAfterTouched(hints, HintIndex(s.hint), h.blocks, k);
      if k in s.index {
        TouchedPosition(s.files, s.mergeFin + 1, s.active, HintIndex(s.hint), h.blocks, k);
      }
    } else {
      IndexAfterUntouched(hints, h.blocks, k);
      IndexAfterUntouched(HintIndex(s.hint), h.blocks, k);
      if k in hints {
        TouchedSplit(h.blocks, h.cut, k);
        assert Sound(h.blocks[h.cut..], ScannedChunks(s), s.index, h.kv, s.merge, k);
      }
    }
  }
}
