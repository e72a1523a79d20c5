/** Batches: pending writes overlay the database until they are committed. */
module DiskvBatch {
  import opened Common
  import opened DiskvLog
  import opened DiskvFiles
  import opened DiskvStore
  import opened DiskvDb

  // ---------- what a list of operations does to one key ----------

  /** The last operation on `k`. */
  function LastOp(ops: seq<Op>, k: Key): Option<Op> {
    if ops == [] then None
    else if ops[|ops| - 1].key == k then Some(ops[|ops| - 1])
    else LastOp(ops[..|ops| - 1], k)
  }

  /** What a reader sees after the last operation on a key, over a base map. */
  function Overlay(kv: map<Key, Value>, op: Option<Op>, k: Key): Option<Value> {
    match op
    case Some(Put(_, v)) => Some(v)
    case Some(Del(_)) => None
    case None => if k in kv then Some(kv[k]) else None
  }

  lemma {:induction false} LastOpDecides(kv: map<Key, Value>, ops: seq<Op>, k: Key)
    ensures Overlay(kv, LastOp(ops, k), k) == if k in ApplyOps(kv, ops) then Some(ApplyOps(kv, ops)[k]) else None
  {
    if ops != [] {
      LastOpDecides(kv, ops[..|ops| - 1], k);
    }
  }

  ghost predicate SameLastOps(a: seq<Op>, b: seq<Op>) {
    forall k :: LastOp(a, k) == LastOp(b, k)
  }

  lemma SingleOpEffect(kv: map<Key, Value>, op: Op, k: Key)
    ensures ApplyOps(kv, [op]) == ApplyOp(kv, op)
    ensures LastOp([op], k) == if op.key == k then Some(op) else None
  {
    assert [op][..0] == [];
    assert ApplyOps(kv, [op][..0]) == kv && LastOp([op][..0], k) == None;
  }

  /** Operation lists with the same last operation on every key have the same effect. */
  lemma SameLastOpsSameEffect(kv: map<Key, Value>, a: seq<Op>, b: seq<Op>)
    requires SameLastOps(a, b)
    ensures ApplyOps(kv, a) == ApplyOps(kv, b)
  {
    var m, n := ApplyOps(kv, a), ApplyOps(kv, b);
    forall k
      ensures (k in m <==> k in n) && (k in m ==> m[k] == n[k])
    {
      LastOpDecides(kv, a, k);
      LastOpDecides(kv, b, k);
    }
  }

  // ---------- pending writes ----------

  predicate PendingRecord(r: LogRecord) {
    r.expire == 0 && (r.typ.Normal? || (r.typ.Deleted? && r.value == []))
  }

  function RecordOp(r: LogRecord): Op {
    if r.typ.Normal? then Put(r.key, r.value) else Del(r.key)
  }

  function RecordOps(rs: seq<LogRecord>): (ops: seq<Op>)
    ensures |ops| == |rs|
  {
    seq(|rs|, i requires 0 <= i < |rs| => RecordOp(rs[i]))
  }

  predicate DistinctKeys(rs: seq<LogRecord>) {
    forall i, j :: 0 <= i < j < |rs| ==> rs[i].key != rs[j].key
  }

  /** With distinct keys the last operation on a key is its only record. */
  lemma {:induction false} LastOpOfRecords(rs: seq<LogRecord>, i: nat)
    requires DistinctKeys(rs) && i < |rs|
    ensures LastOp(RecordOps(rs), rs[i].key) == Some(RecordOp(rs[i]))
  {
    var n := |rs| - 1;
    assert RecordOps(rs)[..n] == RecordOps(rs[..n]);
    if i < n {
      LastOpOfRecords(rs[..n], i);
    }
  }

  lemma {:induction false} NoRecordNoOp(rs: seq<LogRecord>, k: Key)
    requires forall i :: 0 <= i < |rs| ==> rs[i].key != k
    ensures LastOp(RecordOps(rs), k) == None
  {
    if rs != [] {
      var n := |rs| - 1;
      assert RecordOps(rs)[..n] == RecordOps(rs[..n]);
      NoRecordNoOp(rs[..n], k);
    }
  }

  /** Overwriting the record of a key in place, or appending one, makes it that key's last
      operation and leaves every other key alone. */
  lemma WriteRecord(rs: seq<LogRecord>, i: nat, r: LogRecord, k: Key)
    requires DistinctKeys(rs) && i <= |rs|
    requires if i < |rs| then rs[i].key == r.key else forall j :: 0 <= j < |rs| ==> rs[j].key != r.key
    ensures var rs' := if i < |rs| then rs[i := r] else rs + [r];
            DistinctKeys(rs')
            && LastOp(RecordOps(rs'), k) == (if k == r.key then Some(RecordOp(r)) else LastOp(RecordOps(rs), k))
  {
    var rs' := if i < |rs| then rs[i := r] else rs + [r];
    if k == r.key {
      assert rs'[i] == r;
      LastOpOfRecords(rs', i);
    } else if j: nat :| j < |rs| && rs[j].key == k {
      assert rs'[j] == rs[j];
      LastOpOfRecords(rs, j);
      LastOpOfRecords(rs', j);
    } else {
      NoRecordNoOp(rs, k);
      NoRecordNoOp(rs', k);
    }
  }

  /** Every pending key is found through the bucket of its hash, and buckets hold nothing else. */
  predicate BucketsOk(rs: seq<LogRecord>, buckets: map<nat, seq<nat>>, hash: Bytes -> nat) {
    (forall i :: 0 <= i < |rs| ==> hash(rs[i].key) in buckets && i in buckets[hash(rs[i].key)])
    && (forall h <- buckets :: forall e <- buckets[h] :: e < |rs|)
  }

  /** The pending writes after writing record `r`: in place at `i`, or appended. */
  function Written(rs: seq<LogRecord>, i: nat, r: LogRecord): seq<LogRecord>
    requires i <= |rs|
  {
    if i < |rs| then rs[i := r] else rs + [r]
  }

  lemma WriteOverlays(rs: seq<LogRecord>, i: nat, r: LogRecord, ops: seq<Op>)
    requires DistinctKeys(rs) && i <= |rs| && SameLastOps(RecordOps(rs), ops)
    requires if i < |rs| then rs[i].key == r.key else forall j :: 0 <= j < |rs| ==> rs[j].key != r.key
    ensures DistinctKeys(Written(rs, i, r)) && SameLastOps(RecordOps(Written(rs, i, r)), ops + [RecordOp(r)])
  {
    WriteRecord(rs, i, r, r.key);
    forall k
      ensures LastOp(RecordOps(Written(rs, i, r)), k) == LastOp(ops + [RecordOp(r)], k)
    {
      WriteRecord(rs, i, r, k);
      assert (ops + [RecordOp(r)])[..|ops|] == ops;
    }
  }

  lemma WriteBuckets(rs: seq<LogRecord>, buckets: map<nat, seq<nat>>, hash: Bytes -> nat, i: nat, r: LogRecord)
    requires BucketsOk(rs, buckets, hash) && i <= |rs|
    requires i < |rs| ==> rs[i].key == r.key
    ensures var h := hash(r.key);
            var bucket := if h in buckets then buckets[h] else [];
            BucketsOk(Written(rs, i, r), if i < |rs| then buckets else buckets[h := bucket + [|rs|]], hash)
  {
    var h := hash(r.key);
    var bucket := if h in buckets then buckets[h] else [];
    var rs' := Written(rs, i, r);
    if i == |rs| {
      var buckets' := buckets[h := bucket + [|rs|]];
      forall j | 0 <= j < |rs'|
        ensures hash(rs'[j].key) in buckets' && j in buckets'[hash(rs'[j].key)]
      {
        if j == |rs| {
          assert (bucket + [|rs|])[|bucket|] == |rs|;
        } else {
          assert j in buckets[hash(rs[j].key)];
        }
      }
    }
  }

  class Batch {
    const db: DB
    const readOnly: bool
    const hash: Bytes -> nat
    var pendingWrites: seq<LogRecord>
    var pendingWritesMap: map<nat, seq<nat>>
    var committed: bool
    var rollbacked: bool
    /** The writes and deletes accepted so far, in call order. */
    ghost var ops: seq<Op>

    ghost predicate Valid()
      reads this
    {
      DistinctKeys(pendingWrites)
      && (forall i :: 0 <= i < |pendingWrites| ==> PendingRecord(pendingWrites[i]))
      && BucketsOk(pendingWrites, pendingWritesMap, hash)
      && SameLastOps(RecordOps(pendingWrites), ops)
      && (readOnly ==> pendingWrites == [])
    }

    constructor (db: DB, readOnly: bool, hash: Bytes -> nat)
      ensures Valid() && ops == [] && !committed && !rollbacked
      ensures this.db == db && this.readOnly == readOnly && this.hash == hash
    {
      this.db, this.readOnly, this.hash := db, readOnly, hash;
      pendingWrites, pendingWritesMap, committed, rollbacked := [], map[], false, false;
      ops := [];
    }

    /** The map a reader inside the batch sees. */
    ghost function Seen(): map<Key, Value>
      reads this, db
    {
      ApplyOps(db.Contents(), ops)
    }

    method LookupPendingWrites(key: Key) returns (found: Option<nat>)
      requires Valid()
      ensures found.Some? ==> found.value < |pendingWrites| && pendingWrites[found.value].key == key
      ensures found.None? ==> forall i :: 0 <= i < |pendingWrites| ==> pendingWrites[i].key != key
    {
      hide SameLastOps, DistinctKeys;
      if |pendingWritesMap| == 0 {
        return None;
      }
      var h := hash(key);
      var bucket := if h in pendingWritesMap then pendingWritesMap[h] else [];
      var i := 0;
      while i < |bucket|
        invariant i <= |bucket|
        invariant forall e <- bucket[..i] :: e < |pendingWrites| && pendingWrites[e].key != key
      {
        var e := bucket[i];
        assert e in bucket;
        if pendingWrites[e].key == key {
          return Some(e);
        }
        assert bucket[..i + 1] == bucket[..i] + [e];
        i := i + 1;
      }
      assert bucket[..i] == bucket;
      forall n | 0 <= n < |pendingWrites|
        ensures pendingWrites[n].key != key
      {
        assert pendingWrites[n].key == key ==> n in bucket;
      }
      found := None;
    }

    /** Overwrite the pending record of a key, or append one and enter it in its bucket. */
    method Write(r: LogRecord)
      requires Valid() && PendingRecord(r) && !readOnly
      modifies this`pendingWrites, this`pendingWritesMap, this`ops
      ensures Valid() && ops == old(ops) + [RecordOp(r)]
    {
      var found := LookupPendingWrites(r.key);
      ghost var before, buckets := pendingWrites, pendingWritesMap;
      ghost var at := if found.Some? then found.value else |pendingWrites|;
      WriteOverlays(before, at, r, ops);
      WriteBuckets(before, buckets, hash, at, r);
      if found.Some? {
        pendingWrites := pendingWrites[found.value := r];
      } else {
        var h := hash(r.key);
        var bucket := if h in pendingWritesMap then pendingWritesMap[h] else [];
        pendingWrites := pendingWrites + [r];
        pendingWritesMap := pendingWritesMap[h := bucket + [|pendingWrites| - 1]];
      }
      ops := ops + [RecordOp(r)];
    }

    method Put(key: Key, value: Value) returns (r: Result<Unit, DbError>)
      requires Valid()
      modifies this`pendingWrites, this`pendingWritesMap, this`ops
      ensures Valid()
      ensures r == if key == [] then Err(ErrKeyIsEmpty) else if db.closed then Err(ErrDBClosed)
                   else if readOnly then Err(ErrReadOnlyBatch) else Ok(Unit)
      ensures ops == if r.Ok? then old(ops) + [Op.Put(key, value)] else old(ops)
      ensures r.Err? ==> pendingWrites == old(pendingWrites)
    {
      if key == [] {
        return Err(ErrKeyIsEmpty);
      }
      if db.closed {
        return Err(ErrDBClosed);
      }
      if readOnly {
        return Err(ErrReadOnlyBatch);
      }
      Write(LogRecord(key, value, Normal, 0, 0));
      r := Ok(Unit);
    }

    method Delete(key: Key) returns (r: Result<Unit, DbError>)
      requires Valid()
      modifies this`pendingWrites, this`pendingWritesMap, this`ops
      ensures Valid()
      ensures r == if key == [] then Err(ErrKeyIsEmpty) else if db.closed then Err(ErrDBClosed)
                   else if readOnly then Err(ErrReadOnlyBatch) else Ok(Unit)
      ensures ops == if r.Ok? then old(ops) + [Del(key)] else old(ops)
      ensures r.Err? ==> pendingWrites == old(pendingWrites)
    {
      if key == [] {
        return Err(ErrKeyIsEmpty);
      }
      if db.closed {
        return Err(ErrDBClosed);
      }
      if readOnly {
        return Err(ErrReadOnlyBatch);
      }
      Write(LogRecord(key, [], Deleted, 0, 0));
      r := Ok(Unit);
    }

    /** What the batch itself says about a key, before the index is asked. */
    lemma PendingDecides(key: Key, found: Option<nat>)
      requires Valid()
      requires found.Some? ==> found.value < |pendingWrites| && pendingWrites[found.value].key == key
      requires found.None? ==> forall i :: 0 <= i < |pendingWrites| ==> pendingWrites[i].key != key
      ensures LastOp(ops, key) == if found.Some? then Some(RecordOp(pendingWrites[found.value])) else None
      ensures Overlay(db.Contents(), LastOp(ops, key), key) == if key in Seen() then Some(Seen()[key]) else None
    {
      if found.Some? {
        LastOpOfRecords(pendingWrites, found.value);
      } else {
        NoRecordNoOp(pendingWrites, key);
      }
      LastOpDecides(db.Contents(), ops, key);
    }

    /** A read sees the latest pending write of the key, or else the database; the record an
        index entry leads to is never a deletion. */
    method Get(key: Key, now: int) returns (r: Result<Value, DbError>)
      requires Valid() && db.Valid()
      ensures r == if key == [] then Err(ErrKeyIsEmpty) else if db.closed then Err(ErrDBClosed)
                   else if key in Seen() then Ok(Seen()[key]) else Err(ErrKeyNotFound)
    {
      if key == [] {
        return Err(ErrKeyIsEmpty);
      }
      if db.closed {
        return Err(ErrDBClosed);
      }
      var found := LookupPendingWrites(key);
      PendingDecides(key, found);
      if found.Some? {
        var record := pendingWrites[found.value];
        if record.typ.Deleted? || record.IsExpired(now) {
          return Err(ErrKeyNotFound);
        }
        return Ok(record.value);
      }
      assert Represents(db.files, db.index, db.Contents());
      if key !in db.index {
        return Err(ErrKeyNotFound);
      }
      var record := ReadAt(db.files, db.index[key]).value;
      // an indexed position never holds a deleted record
      assert !record.typ.Deleted?;
      assert !record.IsExpired(now);
      r := Ok(record.value);
    }

    method Exist(key: Key, now: int) returns (r: Result<bool, DbError>)
      requires Valid() && db.Valid()
      ensures r == if key == [] then Err(ErrKeyIsEmpty) else if db.closed then Err(ErrDBClosed)
                   else Ok(key in Seen())
    {
      if key == [] {
        return Err(ErrKeyIsEmpty);
      }
      if db.closed {
        return Err(ErrDBClosed);
      }
      var found := LookupPendingWrites(key);
      PendingDecides(key, found);
      if found.Some? {
        var record := pendingWrites[found.value];
        return Ok(!record.typ.Deleted? && !record.IsExpired(now));
      }
      assert Represents(db.files, db.index, db.Contents());
      r := Ok(key in db.index);
    }

    /** The block this batch becomes under a batch id and positions handed out by the log. */
    ghost function PendingBlock(id: nat, at: seq<Position>): Block
      reads this
    {
      Block(id, RecordOps(pendingWrites), at, true)
    }

    /** Commit writes the pending records as one batch and has the effect of the accepted
        operations applied in call order. `walFails` is an error from the log's `WriteAll`. */
    method Commit(id: nat, rotate: bool, at: seq<Position>, walFails: bool) returns (r: Result<Unit, DbError>)
      requires Valid() && db.Valid()
      requires !db.closed && pendingWrites != [] && !committed && !rollbacked && !walFails ==>
                 CanAppend(db.View(), db.history, PendingBlock(id, at), rotate)
      modifies this`committed, db
      ensures Valid() && db.Valid() && db.closed == old(db.closed)
      ensures r == if db.closed then Err(ErrDBClosed)
                   else if pendingWrites == [] then Ok(Unit)
                   else if old(committed) then Err(ErrBatchCommitted)
                   else if rollbacked then Err(ErrBatchRollbacked)
                   else if walFails then Err(ErrWrite) else Ok(Unit)
      ensures r.Ok? ==> db.Contents() == if old(committed || rollbacked) then old(db.Contents()) else old(Seen())
      ensures r.Err? ==> db.State() == old(db.State()) && committed == old(committed)
    {
      hide Inv, CanAppend, DistinctKeys, BucketsOk;
      if db.closed {
        return Err(ErrDBClosed);
      }
      SameLastOpsSameEffect(db.Contents(), RecordOps(pendingWrites), ops);
      if readOnly || |pendingWrites| == 0 {
        return Ok(Unit);
      }
      if committed {
        return Err(ErrBatchCommitted);
      }
      if rollbacked {
        return Err(ErrBatchRollbacked);
      }
      if walFails {
        return Err(ErrWrite);
      }
      db.CommitBlock(Block(id, RecordOps(pendingWrites), at, true), rotate);
      committed := true;
      r := Ok(Unit);
    }

    /** Rollback drops the pending writes; the database is untouched. */
    method Rollback() returns (r: Result<Unit, DbError>)
      requires Valid()
      modifies this
      ensures Valid()
      ensures r == if db.closed then Err(ErrDBClosed) else if old(committed) then Err(ErrBatchCommitted)
                   else if old(rollbacked) then Err(ErrBatchRollbacked) else Ok(Unit)
      ensures r.Ok? ==> rollbacked && pendingWrites == [] && ops == []
      ensures r.Err? ==> pendingWrites == old(pendingWrites) && ops == old(ops) && rollbacked == old(rollbacked)
      ensures committed == old(committed)
    {
      if db.closed {
        return Err(ErrDBClosed);
      }
      if committed {
        return Err(ErrBatchCommitted);
      }
      if rollbacked {
        return Err(ErrBatchRollbacked);
      }
      if !readOnly {
        pendingWrites := [];
        pendingWritesMap := map[];
      }
      ops := [];
      rollbacked := true;
      r := Ok(Unit);
    }
  }

  // ---------- single-operation batches ----------

  /** `DB.Put`: a batch of one write; a rejected write rolls the batch back. */
  method DbPut(db: DB, key: Key, value: Value, hash: Bytes -> nat, id: nat, rotate: bool, at: seq<Position>, walFails: bool)
    returns (r: Result<Unit, DbError>)
    requires db.Valid()
    requires CanAppend(db.View(), db.history, Block(id, [Put(key, value)], at, true), rotate)
    modifies db
    ensures db.Valid() && db.closed == old(db.closed)
    ensures r == if key == [] then Err(ErrKeyIsEmpty) else if db.closed then Err(ErrDBClosed)
                 else if walFails then Err(ErrWrite) else Ok(Unit)
    ensures db.Contents() == if r.Ok? then old(db.Contents())[key := value] else old(db.Contents())
  {
    hide Inv, CanAppend, DistinctKeys, BucketsOk, SameLastOps;
    var batch := new Batch(db, false, hash);
    r := batch.Put(key, value);
    if r.Err? {
      var _ := batch.Rollback();
      return;
    }
    assert batch.ops == [Put(key, value)];
    SingleOp(batch, Put(key, value));
    SingleOpEffect(db.Contents(), Put(key, value), key);
    r := batch.Commit(id, rotate, at, walFails);
  }

  method DbDelete(db: DB, key: Key, hash: Bytes -> nat, id: nat, rotate: bool, at: seq<Position>, walFails: bool)
    returns (r: Result<Unit, DbError>)
    requires db.Valid()
    requires CanAppend(db.View(), db.history, Block(id, [Del(key)], at, true), rotate)
    modifies db
    ensures db.Valid() && db.closed == old(db.closed)
    ensures r == if key == [] then Err(ErrKeyIsEmpty) else if db.closed then Err(ErrDBClosed)
                 else if walFails then Err(ErrWrite) else Ok(Unit)
    ensures db.Contents() == if r.Ok? then old(db.Contents()) - {key} else old(db.Contents())
  {
    hide Inv, CanAppend, DistinctKeys, BucketsOk, SameLastOps;
    var batch := new Batch(db, false, hash);
    r := batch.Delete(key);
    if r.Err? {
      var _ := batch.Rollback();
      return;
    }
    assert batch.ops == [Del(key)];
    SingleOp(batch, Del(key));
    SingleOpEffect(db.Contents(), Del(key), key);
    r := batch.Commit(id, rotate, at, walFails);
  }

  method DbGet(db: DB, key: Key, hash: Bytes -> nat, now: int) returns (r: Result<Value, DbError>)
    requires db.Valid()
    ensures r == if key == [] then Err(ErrKeyIsEmpty) else if db.closed then Err(ErrDBClosed)
                 else if key in db.Contents() then Ok(db.Contents()[key]) else Err(ErrKeyNotFound)
  {
    var batch := new Batch(db, true, hash);
    r := batch.Get(key, now);
  }

  /** A batch that accepted one operation holds exactly its record. */
  lemma SingleOp(batch: Batch, op: Op)
    requires batch.Valid() && batch.ops == [op]
    ensures RecordOps(batch.pendingWrites) == [op]
  {
    var rs := batch.pendingWrites;
    if rs == [] {
      NoRecordNoOp(rs, op.key);
      SingleOpEffect(map[], op, op.key);
    } else {
      LastOpOfRecords(rs, 0);
      SingleOpEffect(map[], op, rs[0].key);
      if |rs| > 1 {
        LastOpOfRecords(rs, 1);
        SingleOpEffect(map[], op, rs[1].key);
      }
    }
  }
}
