/** The sorted list behind the concurrent map as a sequence of cells, some marked deleted but not yet unlinked. */
module CmapList {
  import opened Words

  const NIL: int := -1

  // The index slot of a hash is its top bits, `h >> shifts`.

  lemma {:induction false} BucketMonotone(h: nat, h': nat, shifts: nat)
    requires h <= h'
    ensures Shr(h, shifts) <= Shr(h', shifts)
  {
    if shifts > 0 {
      BucketMonotone(h / 2, h' / 2, shifts - 1);
    }
  }

  /** Every hash of `n` bits has its slot inside an index of `2 ^ (n - shifts)` slots. */
  lemma {:induction false} BucketInRange(h: nat, shifts: nat, n: nat)
    requires shifts <= n && h < Pow2(n)
    ensures Shr(h, shifts) < Pow2(n - shifts)
  {
    if shifts > 0 {
      BucketInRange(h / 2, shifts - 1, n - 1);
    }
  }

  /** A machine word, the result of a hash function. */
  type Word = h: nat | h < Pow2(WORD_BITS) witness 0

  datatype Cell<K, V> = Cell(ref: nat, keyHash: nat, key: K, value: V, deleted: bool)

  // ---------- what a list of cells means ----------

  /** The live keys and their values. */
  function Contents<K, V>(cells: seq<Cell<K, V>>): map<K, V> {
    if cells == [] then map[]
    else if cells[0].deleted then Contents(cells[1..])
    else Contents(cells[1..])[cells[0].key := cells[0].value]
  }

  function LiveCount<K, V>(cells: seq<Cell<K, V>>): (n: nat)
    ensures n <= |cells|
  {
    if cells == [] then 0 else LiveCount(cells[1..]) + if cells[0].deleted then 0 else 1
  }

  /** The reference of the first live cell of a bucket, NIL if there is none. */
  function FirstLive<K, V>(cells: seq<Cell<K, V>>, b: nat, shifts: nat): (r: int)
    ensures r == NIL || r >= 0
  {
    if cells == [] then NIL
    else if !cells[0].deleted && Shr(cells[0].keyHash, shifts) == b then cells[0].ref
    else FirstLive(cells[1..], b, shifts)
  }

  lemma {:induction false} FirstLiveConcat<K, V>(a: seq<Cell<K, V>>, c: seq<Cell<K, V>>, b: nat, shifts: nat)
    ensures FirstLive(a + c, b, shifts)
         == if FirstLive(a, b, shifts) != NIL then FirstLive(a, b, shifts) else FirstLive(c, b, shifts)
  {
    if a == [] {
      assert a + c == c;
    } else {
      FirstLiveConcat(a[1..], c, b, shifts);
      assert (a + c)[1..] == a[1..] + c;
    }
  }

  lemma {:induction false} LiveCountConcat<K, V>(a: seq<Cell<K, V>>, c: seq<Cell<K, V>>)
    ensures LiveCount(a + c) == LiveCount(a) + LiveCount(c)
  {
    if a == [] {
      assert a + c == c;
    } else {
      LiveCountConcat(a[1..], c);
      assert (a + c)[1..] == a[1..] + c;
    }
  }

  ghost predicate AllDeleted<K, V>(cells: seq<Cell<K, V>>) {
    forall i :: 0 <= i < |cells| ==> cells[i].deleted
  }

  lemma {:induction false} DeletedMeanNothing<K, V>(cells: seq<Cell<K, V>>, b: nat, shifts: nat)
    requires AllDeleted(cells)
    ensures Contents(cells) == map[] && LiveCount(cells) == 0 && FirstLive(cells, b, shifts) == NIL
  {
    if cells != [] {
      DeletedMeanNothing(cells[1..], b, shifts);
    }
  }

  /** A key is bound exactly by a live cell of that key. */
  lemma {:induction false} ContentsHas<K, V>(cells: seq<Cell<K, V>>, k: K)
    ensures k in Contents(cells) <==> exists i :: 0 <= i < |cells| && !cells[i].deleted && cells[i].key == k
  {
    if cells != [] {
      ContentsHas(cells[1..], k);
      assert forall i :: 0 <= i < |cells[1..]| ==> cells[1..][i] == cells[i + 1];
      if i :| 0 <= i < |cells| && !cells[i].deleted && cells[i].key == k {
        if i > 0 {
          assert cells[1..][i - 1] == cells[i];
        }
      }
    }
  }

  ghost predicate DistinctLiveKeys<K, V>(cells: seq<Cell<K, V>>) {
    forall i, j :: 0 <= i < j < |cells| && !cells[i].deleted && !cells[j].deleted ==> cells[i].key != cells[j].key
  }

  lemma {:induction false} ContentsAt<K, V>(cells: seq<Cell<K, V>>, i: nat)
    requires DistinctLiveKeys(cells) && i < |cells| && !cells[i].deleted
    ensures cells[i].key in Contents(cells) && Contents(cells)[cells[i].key] == cells[i].value
  {
    if i > 0 {
      assert DistinctLiveKeys(cells[1..]) by {
        assert forall j :: 0 <= j < |cells[1..]| ==> cells[1..][j] == cells[j + 1];
      }
      ContentsAt(cells[1..], i - 1);
    }
  }

  // ---------- the list invariant ----------

  ghost predicate Sorted<K, V>(cells: seq<Cell<K, V>>) {
    forall i, j :: 0 <= i < j < |cells| ==> cells[i].keyHash <= cells[j].keyHash
  }

  /** Keys carry their own hash, and hashes fit in a word. */
  ghost predicate Hashed<K, V>(cells: seq<Cell<K, V>>, hasher: K -> Word) {
    forall i :: 0 <= i < |cells| ==> cells[i].keyHash == hasher(cells[i].key) && cells[i].keyHash < Pow2(WORD_BITS)
  }

  /** A deleted cell that precedes a live cell of the same key lies before every live cell of
      its bucket, where no lookup of that key starts. */
  ghost predicate StaleBehindIndex<K, V>(cells: seq<Cell<K, V>>, shifts: nat) {
    forall i, j {:trigger cells[i], cells[j]} ::
      0 <= i < j < |cells| && cells[i].deleted && !cells[j].deleted && cells[i].key == cells[j].key ==>
        NoLiveBefore(cells, i, Shr(cells[j].keyHash, shifts), shifts)
  }

  ghost predicate NoLiveBefore<K, V>(cells: seq<Cell<K, V>>, i: nat, b: nat, shifts: nat)
    requires i <= |cells|
  {
    forall m :: 0 <= m < i && !cells[m].deleted ==> Shr(cells[m].keyHash, shifts) != b
  }

  ghost predicate ListOk<K, V>(cells: seq<Cell<K, V>>, hasher: K -> Word, shifts: nat) {
    Sorted(cells) && Hashed(cells, hasher) && DistinctLiveKeys(cells) && StaleBehindIndex(cells, shifts)
  }

  // ---------- how the list changes ----------

  /** Unlinking a run of deleted cells changes nothing the map means. */
  lemma UnlinkKeepsMeaning<K, V>(a: seq<Cell<K, V>>, dead: seq<Cell<K, V>>, c: seq<Cell<K, V>>, b: nat, shifts: nat)
    requires AllDeleted(dead)
    ensures FirstLive(a + dead + c, b, shifts) == FirstLive(a + c, b, shifts)
    ensures LiveCount(a + dead + c) == LiveCount(a + c)
    ensures Contents(a + dead + c) == Contents(a + c)
  {
    DeletedMeanNothing(dead, b, shifts);
    FirstLiveConcat(a + dead, c, b, shifts);
    FirstLiveConcat(a, dead, b, shifts);
    FirstLiveConcat(a, c, b, shifts);
    LiveCountConcat(a + dead, c);
    LiveCountConcat(a, dead);
    LiveCountConcat(a, c);
    ContentsWithoutDeleted(a, dead, c);
  }

  lemma {:induction false} ContentsWithoutDeleted<K, V>(a: seq<Cell<K, V>>, dead: seq<Cell<K, V>>, c: seq<Cell<K, V>>)
    requires AllDeleted(dead)
    ensures Contents(a + dead + c) == Contents(a + c)
  {
    if a != [] {
      ContentsWithoutDeleted(a[1..], dead, c);
      assert (a + dead + c)[1..] == a[1..] + dead + c && (a + c)[1..] == a[1..] + c;
    } else if dead != [] {
      ContentsWithoutDeleted(a, dead[1..], c);
      assert (a + dead + c)[1..] == a + dead[1..] + c;
    } else {
      assert a + dead + c == a + c;
    }
  }

  lemma UnlinkKeepsListOk<K, V>(a: seq<Cell<K, V>>, dead: seq<Cell<K, V>>, c: seq<Cell<K, V>>, hasher: K -> Word, shifts: nat)
    requires ListOk(a + dead + c, hasher, shifts)
    ensures ListOk(a + c, hasher, shifts)
  {
    hide Shr, Pow2;
    var all, rest := a + dead + c, a + c;
    var n := |dead|;
    assert forall i :: 0 <= i < |a| ==> rest[i] == all[i];
    assert forall i :: |a| <= i < |rest| ==> rest[i] == all[i + n];
    forall i, j | 0 <= i < j < |rest| && rest[i].deleted && !rest[j].deleted && rest[i].key == rest[j].key
      ensures NoLiveBefore(rest, i, Shr(rest[j].keyHash, shifts), shifts)
    {
      var i', j' := if i < |a| then i else i + n, if j < |a| then j else j + n;
      assert rest[i] == all[i'] && rest[j] == all[j'];
      assert NoLiveBefore(all, i', Shr(all[j'].keyHash, shifts), shifts);
    }
  }

  // ---------- marking a cell deleted ----------

  function Marked<K, V>(cells: seq<Cell<K, V>>, i: nat): seq<Cell<K, V>>
    requires i < |cells|
  {
    cells[i := cells[i].(deleted := true)]
  }

  lemma MarkKeepsListOk<K, V>(cells: seq<Cell<K, V>>, i: nat, hasher: K -> Word, shifts: nat)
    requires ListOk(cells, hasher, shifts) && i < |cells| && !cells[i].deleted
    ensures ListOk(Marked(cells, i), hasher, shifts)
  {
    hide Shr, Pow2;
    var all := Marked(cells, i);
    forall m, n | 0 <= m < n < |all| && all[m].deleted && !all[n].deleted && all[m].key == all[n].key
      ensures NoLiveBefore(all, m, Shr(all[n].keyHash, shifts), shifts)
    {
      assert cells[n] == all[n];
      if m != i {
        assert cells[m] == all[m];
        assert NoLiveBefore(cells, m, Shr(cells[n].keyHash, shifts), shifts);
      } else {
        assert false;
      }
    }
  }

  /** Marking removes exactly one binding. */
  lemma {:induction false} MarkRemovesKey<K, V>(cells: seq<Cell<K, V>>, i: nat)
    requires DistinctLiveKeys(cells) && i < |cells| && !cells[i].deleted
    ensures Contents(Marked(cells, i)) == Contents(cells) - {cells[i].key}
    ensures LiveCount(Marked(cells, i)) == LiveCount(cells) - 1
  {
    var k := cells[i].key;
    assert forall j :: 0 <= j < |cells[1..]| ==> cells[1..][j] == cells[j + 1];
    if i == 0 {
      assert Marked(cells, i)[1..] == cells[1..];
      ContentsHas(cells[1..], k);
      assert k !in Contents(cells[1..]);
    } else {
      MarkRemovesKey(cells[1..], i - 1);
      assert Marked(cells, i)[1..] == Marked(cells[1..], i - 1);
    }
  }

  /** The first live cell of a bucket after a mark: unchanged unless the marked cell was it. */
  lemma MarkMovesFirstLive<K, V>(a: seq<Cell<K, V>>, c: Cell<K, V>, z: seq<Cell<K, V>>, b: nat, shifts: nat)
    requires !c.deleted
    ensures var before, now := FirstLive(a + [c] + z, b, shifts), FirstLive(a + [c.(deleted := true)] + z, b, shifts);
            if b == Shr(c.keyHash, shifts) && FirstLive(a, b, shifts) == NIL
            then before == c.ref && now == FirstLive(z, b, shifts)
            else now == before
  {
    var d := c.(deleted := true);
    FirstLiveConcat(a + [c], z, b, shifts);
    FirstLiveConcat(a, [c], b, shifts);
    FirstLiveConcat(a + [d], z, b, shifts);
    FirstLiveConcat(a, [d], b, shifts);
    assert [c][1..] == [] && [d][1..] == [];
  }

  /** In a sorted list the first live cell of a bucket is found by looking at the next live
      cell only. */
  lemma NextLiveIsFirst<K, V>(dead: seq<Cell<K, V>>, z: seq<Cell<K, V>>, b: nat, shifts: nat)
    requires AllDeleted(dead) && Sorted(z) && (z != [] ==> !z[0].deleted && Shr(z[0].keyHash, shifts) >= b)
    ensures FirstLive(dead + z, b, shifts)
         == if z != [] && Shr(z[0].keyHash, shifts) == b then z[0].ref else NIL
  {
    FirstLiveConcat(dead, z, b, shifts);
    DeletedMeanNothing(dead, b, shifts);
    if z != [] && Shr(z[0].keyHash, shifts) > b {
      LaterBuckets(z, b, shifts);
    }
  }

  lemma {:induction false} LaterBuckets<K, V>(z: seq<Cell<K, V>>, b: nat, shifts: nat)
    requires Sorted(z) && (z != [] ==> Shr(z[0].keyHash, shifts) > b)
    ensures FirstLive(z, b, shifts) == NIL
  {
    if |z| > 1 {
      BucketMonotone(z[0].keyHash, z[1].keyHash, shifts);
      assert forall j :: 0 <= j < |z[1..]| ==> z[1..][j] == z[j + 1];
      LaterBuckets(z[1..], b, shifts);
    }
  }

  // ---------- inserting a cell ----------

  /** Every cell a search for `key` with hash `h` has left behind: none is the key's live cell,
      and deleted ones of that key lie where no live cell of the bucket precedes them. */
  ghost predicate Passed<K, V>(front: seq<Cell<K, V>>, h: nat, key: K, shifts: nat) {
    (forall i :: 0 <= i < |front| ==> front[i].keyHash <= h)
    && (forall i :: 0 <= i < |front| && !front[i].deleted ==> front[i].key != key)
    && (forall i :: 0 <= i < |front| && front[i].deleted && front[i].key == key ==> NoLiveBefore(front, i, Shr(h, shifts), shifts))
  }

  /** What the search before an insertion established. */
  ghost predicate InsertOk<K, V>(a: seq<Cell<K, V>>, x: Cell<K, V>, z: seq<Cell<K, V>>, shifts: nat) {
    !x.deleted && Passed(a, x.keyHash, x.key, shifts)
    && (forall i :: 0 <= i < |z| ==> z[i].keyHash > x.keyHash)
    && (z != [] ==> !z[0].deleted)
  }

  lemma PassedOneMore<K, V>(front: seq<Cell<K, V>>, c: Cell<K, V>, h: nat, key: K, shifts: nat)
    requires Passed(front, h, key, shifts) && !c.deleted && c.keyHash <= h && c.key != key
    ensures Passed(front + [c], h, key, shifts)
  {
    hide Shr;
    var all := front + [c];
    forall i | 0 <= i < |all| && all[i].deleted && all[i].key == key
      ensures NoLiveBefore(all, i, Shr(h, shifts), shifts)
    {
      assert NoLiveBefore(front, i, Shr(h, shifts), shifts);
    }
  }

  lemma InsertKeepsOrder<K, V>(a: seq<Cell<K, V>>, x: Cell<K, V>, z: seq<Cell<K, V>>, hasher: K -> Word, shifts: nat)
    requires ListOk(a + z, hasher, shifts) && InsertOk(a, x, z, shifts)
    requires x.keyHash == hasher(x.key) && x.keyHash < Pow2(WORD_BITS)
    ensures Sorted(a + [x] + z) && Hashed(a + [x] + z, hasher) && DistinctLiveKeys(a + [x] + z)
  {
    hide Shr, Pow2, StaleBehindIndex;
    var before, now := a + z, a + [x] + z;
    assert forall i :: 0 <= i < |a| ==> now[i] == before[i] == a[i];
    assert forall i :: |a| < i < |now| ==> now[i] == before[i - 1] == z[i - 1 - |a|];
    assert now[|a|] == x;
  }

  lemma InsertKeepsStaleBehind<K, V>(a: seq<Cell<K, V>>, x: Cell<K, V>, z: seq<Cell<K, V>>, hasher: K -> Word, shifts: nat, i: nat, j: nat)
    requires ListOk(a + z, hasher, shifts) && InsertOk(a, x, z, shifts)
    requires x.keyHash == hasher(x.key)
    requires var now := a + [x] + z;
             i < j < |now| && now[i].deleted && !now[j].deleted && now[i].key == now[j].key
    ensures var now := a + [x] + z; NoLiveBefore(now, i, Shr(now[j].keyHash, shifts), shifts)
  {
    hide Shr, Pow2;
    var before, now := a + z, a + [x] + z;
    assert forall m :: 0 <= m < |a| ==> now[m] == before[m] == a[m];
    assert forall m :: |a| < m < |now| ==> now[m] == before[m - 1] == z[m - 1 - |a|];
    assert now[|a|] == x;
    var b := Shr(now[j].keyHash, shifts);
    if j == |a| {
      assert NoLiveBefore(a, i, b, shifts);
    } else {
      var i', j' := if i < |a| then i else i - 1, if j < |a| then j else j - 1;
      assert before[i'] == now[i] && before[j'] == now[j];
      assert NoLiveBefore(before, i', b, shifts);
      if i > |a| {
        // z starts with a live cell before the deleted one, in a bucket no later than b
        assert z[0] == before[|a|];
        assert Shr(z[0].keyHash, shifts) != b;
        BucketMonotone(x.keyHash, z[0].keyHash, shifts);
        BucketMonotone(z[0].keyHash, before[i'].keyHash, shifts);
        assert before[i'].keyHash == before[j'].keyHash;
      }
    }
  }

  lemma InsertKeepsListOk<K, V>(a: seq<Cell<K, V>>, x: Cell<K, V>, z: seq<Cell<K, V>>, hasher: K -> Word, shifts: nat)
    requires ListOk(a + z, hasher, shifts) && InsertOk(a, x, z, shifts)
    requires x.keyHash == hasher(x.key) && x.keyHash < Pow2(WORD_BITS)
    ensures ListOk(a + [x] + z, hasher, shifts)
  {
    InsertKeepsOrder(a, x, z, hasher, shifts);
    var now := a + [x] + z;
    forall i, j | 0 <= i < j < |now| && now[i].deleted && !now[j].deleted && now[i].key == now[j].key
      ensures NoLiveBefore(now, i, Shr(now[j].keyHash, shifts), shifts)
    {
      InsertKeepsStaleBehind(a, x, z, hasher, shifts, i, j);
    }
  }

  /** Inserting adds exactly one binding. */
  lemma {:induction false} InsertAddsKey<K, V>(a: seq<Cell<K, V>>, x: Cell<K, V>, z: seq<Cell<K, V>>)
    requires !x.deleted && (forall i :: 0 <= i < |a| && !a[i].deleted ==> a[i].key != x.key)
    ensures Contents(a + [x] + z) == Contents(a + z)[x.key := x.value]
    ensures LiveCount(a + [x] + z) == LiveCount(a + z) + 1
  {
    if a == [] {
      assert a + [x] + z == [x] + z && a + z == z && ([x] + z)[1..] == z;
    } else {
      InsertAddsKey(a[1..], x, z);
      assert (a + [x] + z)[1..] == a[1..] + [x] + z && (a + z)[1..] == a[1..] + z;
    }
  }

  lemma InsertMovesFirstLive<K, V>(a: seq<Cell<K, V>>, x: Cell<K, V>, z: seq<Cell<K, V>>, b: nat, shifts: nat)
    requires !x.deleted
    ensures FirstLive(a + [x] + z, b, shifts)
         == if b == Shr(x.keyHash, shifts) && FirstLive(a, b, shifts) == NIL then x.ref else FirstLive(a + z, b, shifts)
  {
    FirstLiveConcat(a + [x], z, b, shifts);
    FirstLiveConcat(a, [x], b, shifts);
    FirstLiveConcat(a, z, b, shifts);
    assert [x][1..] == [];
  }

  // ---------- storing a value ----------

  function WithValue<K, V>(cells: seq<Cell<K, V>>, i: nat, v: V): seq<Cell<K, V>>
    requires i < |cells|
  {
    cells[i := cells[i].(value := v)]
  }

  lemma {:induction false} StoreKeepsShape<K, V>(cells: seq<Cell<K, V>>, i: nat, v: V, b: nat, shifts: nat)
    requires i < |cells|
    ensures FirstLive(WithValue(cells, i, v), b, shifts) == FirstLive(cells, b, shifts)
    ensures LiveCount(WithValue(cells, i, v)) == LiveCount(cells)
  {
    if i == 0 {
      assert WithValue(cells, i, v)[1..] == cells[1..];
    } else {
      StoreKeepsShape(cells[1..], i - 1, v, b, shifts);
      assert WithValue(cells, i, v)[1..] == WithValue(cells[1..], i - 1, v);
    }
  }

  lemma StoreKeepsListOk<K, V>(cells: seq<Cell<K, V>>, i: nat, v: V, hasher: K -> Word, shifts: nat)
    requires ListOk(cells, hasher, shifts) && i < |cells|
    ensures ListOk(WithValue(cells, i, v), hasher, shifts)
  {
    hide Shr, Pow2;
    var now := WithValue(cells, i, v);
    forall m, n | 0 <= m < n < |now| && now[m].deleted && !now[n].deleted && now[m].key == now[n].key
      ensures NoLiveBefore(now, m, Shr(now[n].keyHash, shifts), shifts)
    {
      assert NoLiveBefore(cells, m, Shr(cells[n].keyHash, shifts), shifts);
    }
  }

  lemma {:induction false} StoreRebindsKey<K, V>(cells: seq<Cell<K, V>>, i: nat, v: V)
    requires DistinctLiveKeys(cells) && i < |cells| && !cells[i].deleted
    ensures Contents(WithValue(cells, i, v)) == Contents(cells)[cells[i].key := v]
  {
    var k := cells[i].key;
    assert forall j :: 0 <= j < |cells[1..]| ==> cells[1..][j] == cells[j + 1];
    if i == 0 {
      assert WithValue(cells, i, v)[1..] == cells[1..];
    } else {
      StoreRebindsKey(cells[1..], i - 1, v);
      assert WithValue(cells, i, v)[1..] == WithValue(cells[1..], i - 1, v);
    }
  }

  // ---------- where lookups start and stop ----------

  /** A lookup for hash `h` may start at cell `p`: no live cell of that hash lies before it,
      and a deleted one only where no live cell of the bucket precedes it. */
  ghost predicate StartOk<K, V>(cells: seq<Cell<K, V>>, p: nat, h: nat, shifts: nat) {
    p <= |cells|
    && (forall i :: 0 <= i < p && !cells[i].deleted ==> cells[i].keyHash != h)
    && (forall i :: 0 <= i < p && cells[i].deleted && cells[i].keyHash == h ==> NoLiveBefore(cells, i, Shr(h, shifts), shifts))
  }

  lemma {:induction false} FirstLivePosition<K, V>(cells: seq<Cell<K, V>>, b: nat, shifts: nat) returns (p: nat)
    requires FirstLive(cells, b, shifts) != NIL
    ensures p < |cells| && cells[p].ref == FirstLive(cells, b, shifts) && !cells[p].deleted
    ensures Shr(cells[p].keyHash, shifts) == b && NoLiveBefore(cells, p, b, shifts)
  {
    if !cells[0].deleted && Shr(cells[0].keyHash, shifts) == b {
      p := 0;
    } else {
      p := FirstLivePosition(cells[1..], b, shifts);
      assert forall m :: 0 < m <= p ==> cells[m] == cells[1..][m - 1];
      p := p + 1;
    }
  }

  lemma {:induction false} NoFirstLive<K, V>(cells: seq<Cell<K, V>>, b: nat, shifts: nat)
    requires FirstLive(cells, b, shifts) == NIL && forall i :: 0 <= i < |cells| ==> cells[i].ref >= 0
    ensures NoLiveBefore(cells, |cells|, b, shifts)
  {
    if cells != [] {
      NoFirstLive(cells[1..], b, shifts);
      assert forall m :: 0 < m < |cells| ==> cells[m] == cells[1..][m - 1];
    }
  }

  /** The first live cell of any bucket is a place to start if its hash is not too large. */
  lemma FirstLiveIsStart<K, V>(cells: seq<Cell<K, V>>, p: nat, h: nat, shifts: nat)
    requires Sorted(cells) && p < |cells| && !cells[p].deleted && cells[p].keyHash <= h
    requires NoLiveBefore(cells, p, Shr(cells[p].keyHash, shifts), shifts)
    ensures StartOk(cells, p, h, shifts)
  {
    forall i | 0 <= i < p && cells[i].keyHash == h
      ensures cells[i].deleted && NoLiveBefore(cells, i, Shr(h, shifts), shifts)
    {
      assert cells[p].keyHash == h;
    }
  }

  lemma StartHasPassed<K, V>(cells: seq<Cell<K, V>>, p: nat, h: nat, key: K, hasher: K -> Word, shifts: nat)
    requires Sorted(cells) && Hashed(cells, hasher) && h == hasher(key) && StartOk(cells, p, h, shifts)
    requires p == 0 || (p < |cells| && cells[p].keyHash <= h)
    ensures Passed(cells[..p], h, key, shifts)
  {
    hide Shr, Pow2;
    forall i | 0 <= i < p && cells[i].deleted && cells[i].key == key
      ensures NoLiveBefore(cells[..p], i, Shr(h, shifts), shifts)
    {
      assert NoLiveBefore(cells, i, Shr(h, shifts), shifts);
    }
  }

  /** From such a start the first cell of a live key is the live one: the raw walk of a lookup
      never meets a deleted cell of that key first. */
  lemma WalkMeetsLiveFirst<K, V>(cells: seq<Cell<K, V>>, p: nat, i: nat, j: nat, hasher: K -> Word, shifts: nat)
    requires ListOk(cells, hasher, shifts) && p < |cells| && !cells[p].deleted
    requires p <= i <= j < |cells| && cells[i].key == cells[j].key && !cells[j].deleted
    requires Shr(cells[p].keyHash, shifts) == Shr(cells[j].keyHash, shifts)
    ensures i == j
  {
  }
}
