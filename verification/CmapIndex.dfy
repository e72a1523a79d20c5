/** The bucket index over the sorted list: slot `b` holds the first live cell whose hash has the top bits `b`. */
module CmapIndex {
  import opened Words
  import opened CmapList

  /** How many index slots are taken. */
  function Filled(index: seq<int>): nat {
    if index == [] then 0 else Filled(index[1..]) + if index[0] == NIL then 0 else 1
  }

  lemma {:induction false} FilledUpdate(index: seq<int>, b: nat, r: int)
    requires b < |index|
    ensures Filled(index[b := r]) + (if index[b] == NIL then 0 else 1) == Filled(index) + (if r == NIL then 0 else 1)
  {
    if b == 0 {
      assert index[b := r][1..] == index[1..];
    } else {
      FilledUpdate(index[1..], b - 1, r);
      assert index[b := r][1..] == index[1..][b - 1 := r];
    }
  }

  lemma {:induction false} FilledNone(index: seq<int>)
    requires forall b :: 0 <= b < |index| ==> index[b] == NIL
    ensures Filled(index) == 0
  {
    if index != [] {
      FilledNone(index[1..]);
    }
  }

  /** Each slot holds the first live cell of its bucket, or NIL. */
  ghost predicate SlotsOk<K, V>(index: seq<int>, cells: seq<Cell<K, V>>, shifts: nat) {
    forall b :: 0 <= b < |index| ==> index[b] == FirstLive(cells, b, shifts)
  }

  /** Slots of different buckets hold different cells: no more slots are taken than cells live. */
  lemma {:induction false} FilledAtMostLive<K, V>(index: seq<int>, cells: seq<Cell<K, V>>, shifts: nat)
    requires SlotsOk(index, cells, shifts)
    ensures Filled(index) <= LiveCount(cells)
    decreases |cells|
  {
    if cells == [] {
      FilledNone(index);
    } else {
      hide Shr, Filled;
      var b := Shr(cells[0].keyHash, shifts);
      if cells[0].deleted || b >= |index| {
        FilledAtMostLive(index, cells[1..], shifts);
      } else {
        var r := FirstLive(cells[1..], b, shifts);
        FilledUpdate(index, b, r);
        FilledAtMostLive(index[b := r], cells[1..], shifts);
      }
    }
  }

  lemma {:induction false} Pow2Less(a: nat, b: nat)
    requires Pow2(a) < Pow2(b)
    ensures a < b
  {
    if b <= a && b > 0 {
      Pow2Less(a - 1, b - 1);
    }
  }

  lemma {:induction false} Pow2Exact(a: nat, b: nat)
    requires Pow2(a) <= Pow2(b) && (b > 0 ==> Pow2(b - 1) < Pow2(a))
    ensures a == b
  {
    if b > 0 {
      Pow2Less(b - 1, a);
    }
    if b < a {
      Pow2Grows(b, a);
    }
  }

  lemma {:induction false} Pow2Grows(a: nat, b: nat)
    requires a < b
    ensures Pow2(a) < Pow2(b)
  {
    if a == 0 {
      assert Pow2(b) == 2 * Pow2(b - 1);
    } else {
      Pow2Grows(a - 1, b - 1);
    }
  }

  // ---------- what the index says about a key ----------

  /** No live cell has hash `h`. */
  ghost predicate NoLiveHash<K, V>(cells: seq<Cell<K, V>>, h: nat) {
    forall i :: 0 <= i < |cells| && !cells[i].deleted ==> cells[i].keyHash != h
  }

  ghost predicate HashOfRef<K, V>(cells: seq<Cell<K, V>>, r: int, hash: nat) {
    forall i :: 0 <= i < |cells| && cells[i].ref == r ==> cells[i].keyHash == hash
  }

  /** An empty slot, or one whose cell has a larger hash, shows the hash is absent. */
  lemma SlotExcludes<K, V>(cells: seq<Cell<K, V>>, h: nat, hash: nat, shifts: nat)
    requires Sorted(cells)
    requires var r := FirstLive(cells, Shr(h, shifts), shifts); r == NIL || (HashOfRef(cells, r, hash) && hash > h)
    ensures NoLiveHash(cells, h)
  {
    hide Shr, FirstLive;
    var b := Shr(h, shifts);
    var r := FirstLive(cells, b, shifts);
    if r == NIL {
      NoFirstLive(cells, b, shifts);
    } else {
      var p := FirstLivePosition(cells, b, shifts);
      assert NoLiveBefore(cells, p, b, shifts);
    }
  }

  /** Everything left of position `n` was passed, everything from there on has a larger hash. */
  lemma NotPresent<K, V>(cells: seq<Cell<K, V>>, n: nat, h: nat, key: K, hasher: K -> Word, shifts: nat)
    requires Sorted(cells) && Hashed(cells, hasher) && h == hasher(key) && n <= |cells|
    requires Passed(cells[..n], h, key, shifts) && (n < |cells| ==> cells[n].keyHash > h)
    ensures key !in Contents(cells)
  {
    hide Shr, Contents, Pow2;
    ContentsHas(cells, key);
    forall i | 0 <= i < |cells| && !cells[i].deleted
      ensures cells[i].key != key
    {
      if i < n {
        assert cells[..n][i] == cells[i];
      }
    }
  }

  /** A search starting where the index allows has passed nothing that matters. */
  lemma SearchStarts<K, V>(cells: seq<Cell<K, V>>, p: nat, h: nat, key: K, hasher: K -> Word, shifts: nat)
    requires ListOk(cells, hasher, shifts) && h == hasher(key)
    requires p > 0 ==> p <= |cells| && StartOk(cells, p - 1, h, shifts) && cells[p - 1].keyHash <= h
    ensures var from := if p == 0 then 0 else p - 1; Passed(cells[..from], h, key, shifts)
  {
    if p > 0 {
      StartHasPassed(cells, p - 1, h, key, hasher, shifts);
    }
  }

  /** One live cell of another key or hash is passed too. */
  lemma SearchAdvances<K, V>(cells: seq<Cell<K, V>>, q: nat, h: nat, key: K, hasher: K -> Word, shifts: nat)
    requires ListOk(cells, hasher, shifts) && h == hasher(key) && q < |cells|
    requires Passed(cells[..q], h, key, shifts)
    requires !cells[q].deleted && cells[q].keyHash <= h && !(cells[q].keyHash == h && cells[q].key == key)
    ensures Passed(cells[..q + 1], h, key, shifts)
  {
    hide StaleBehindIndex, Passed, Pow2;
    assert cells[..q + 1] == cells[..q] + [cells[q]];
    PassedOneMore(cells[..q], cells[q], h, key, shifts);
  }

  // ---------- how the slots change ----------

  /** The slot of bucket `b` after a cell `r` with hash `h` was put in the list. */
  function NewSlot(was: int, wasHash: nat, b: nat, r: int, h: nat, shifts: nat): int {
    if b == Shr(h, shifts) && (was == NIL || h < wasHash) then r else was
  }

  lemma InsertMovesSlot<K, V>(a: seq<Cell<K, V>>, x: Cell<K, V>, z: seq<Cell<K, V>>, b: nat, hash: nat, shifts: nat)
    requires InsertOk(a, x, z, shifts) && HashOfRef(a + z, FirstLive(a + z, b, shifts), hash)
    ensures FirstLive(a + [x] + z, b, shifts) == NewSlot(FirstLive(a + z, b, shifts), hash, b, x.ref, x.keyHash, shifts)
  {
    hide Shr, FirstLive;
    InsertMovesFirstLive(a, x, z, b, shifts);
    FirstLiveConcat(a, z, b, shifts);
    if FirstLive(a, b, shifts) != NIL {
      var p := FirstLivePosition(a, b, shifts);
      assert (a + z)[p] == a[p];
    } else if FirstLive(z, b, shifts) != NIL {
      var p := FirstLivePosition(z, b, shifts);
      assert (a + z)[|a| + p] == z[p];
    }
  }

  /** Storing to the live cell at `i` offers it to its slot in vain: the slot is taken by a cell
      with no larger hash. */
  lemma StoreKeepsSlot<K, V>(cells: seq<Cell<K, V>>, i: nat, b: nat, hash: nat, shifts: nat)
    requires Sorted(cells) && i < |cells| && !cells[i].deleted
    requires HashOfRef(cells, FirstLive(cells, b, shifts), hash)
    requires forall j :: 0 <= j < |cells| ==> cells[j].ref >= 0
    ensures NewSlot(FirstLive(cells, b, shifts), hash, b, cells[i].ref, cells[i].keyHash, shifts) == FirstLive(cells, b, shifts)
  {
    hide Shr, FirstLive;
    if b == Shr(cells[i].keyHash, shifts) {
      if FirstLive(cells, b, shifts) == NIL {
        NoFirstLive(cells, b, shifts);
      } else {
        var p := FirstLivePosition(cells, b, shifts);
        assert NoLiveBefore(cells, p, b, shifts);
        assert p <= i;
      }
    }
  }

  /** What slot `b` held just before the cell at `i` was marked deleted. */
  ghost function SlotBeforeMark<K, V>(cells: seq<Cell<K, V>>, i: nat, b: nat, shifts: nat): int
    requires i < |cells|
  {
    if b == Shr(cells[i].keyHash, shifts) && FirstLive(cells[..i], b, shifts) == NIL
    then cells[i].ref else FirstLive(cells, b, shifts)
  }

  lemma MarkLeavesSlot<K, V>(cells: seq<Cell<K, V>>, i: nat, b: nat, shifts: nat)
    requires i < |cells| && !cells[i].deleted
    ensures FirstLive(cells, b, shifts) == SlotBeforeMark(Marked(cells, i), i, b, shifts)
  {
    hide Shr, FirstLive;
    var a, c, z := cells[..i], cells[i], cells[i + 1..];
    assert cells == a + [c] + z && Marked(cells, i) == a + [c.(deleted := true)] + z;
    assert Marked(cells, i)[..i] == a;
    MarkMovesFirstLive(a, c, z, b, shifts);
  }

  /** The slot after a mark: the next cell takes over if the marked one held the slot and the
      next is in the same bucket. */
  lemma RemoveMovesSlot<K, V>(cells: seq<Cell<K, V>>, i: nat, b: nat, shifts: nat)
    requires Sorted(cells) && i < |cells| && cells[i].deleted && (i + 1 < |cells| ==> !cells[i + 1].deleted)
    requires forall j :: 0 <= j < |cells| && j != i ==> cells[j].ref != cells[i].ref
    ensures var was, home := SlotBeforeMark(cells, i, b, shifts), Shr(cells[i].keyHash, shifts);
            var next := if i + 1 < |cells| && Shr(cells[i + 1].keyHash, shifts) == home then cells[i + 1].ref else NIL;
            FirstLive(cells, b, shifts) == if b == home && was == cells[i].ref then next else was
  {
    hide Shr, FirstLive;
    var a, c, z := cells[..i], cells[i], cells[i + 1..];
    if b == Shr(c.keyHash, shifts) {
      assert cells == a + ([c] + z);
      FirstLiveConcat(a, [c] + z, b, shifts);
      if FirstLive(a, b, shifts) == NIL {
        if z != [] {
          BucketMonotone(c.keyHash, z[0].keyHash, shifts);
        }
        NextLiveIsFirst([c], z, b, shifts);
      } else {
        var p := FirstLivePosition(a, b, shifts);
      }
    }
  }

  // ---------- filling a new index ----------

  ghost predicate AllLive<K, V>(cells: seq<Cell<K, V>>) {
    forall i :: 0 <= i < |cells| ==> !cells[i].deleted
  }

  /** A list without deleted cells is fine under every index size. */
  lemma AllLiveFitsEveryIndex<K, V>(cells: seq<Cell<K, V>>, hasher: K -> Word, shifts: nat, shifts': nat)
    requires ListOk(cells, hasher, shifts) && AllLive(cells)
    ensures ListOk(cells, hasher, shifts')
  {
  }

  /** One more cell read while filling: it enters its slot exactly if the slot is empty. */
  lemma FillOneMore<K, V>(front: seq<Cell<K, V>>, c: Cell<K, V>, b: nat, shifts: nat)
    requires !c.deleted
    ensures FirstLive(front + [c], b, shifts)
         == if FirstLive(front, b, shifts) != NIL then FirstLive(front, b, shifts)
            else if b == Shr(c.keyHash, shifts) then c.ref else NIL
  {
    FirstLiveConcat(front, [c], b, shifts);
    assert [c][1..] == [];
  }

  /** The slot of a bucket already met is taken, by a cell with no larger hash. */
  lemma FillBucketTaken<K, V>(front: seq<Cell<K, V>>, c: Cell<K, V>, hash: nat, shifts: nat)
    requires forall i :: 0 <= i < |front| ==> front[i].keyHash <= c.keyHash
    requires HashOfRef(front, FirstLive(front, Shr(c.keyHash, shifts), shifts), hash)
    ensures FirstLive(front, Shr(c.keyHash, shifts), shifts) == NIL || hash <= c.keyHash
  {
    hide Shr, FirstLive;
    if FirstLive(front, Shr(c.keyHash, shifts), shifts) != NIL {
      var p := FirstLivePosition(front, Shr(c.keyHash, shifts), shifts);
    }
  }

  lemma FillSameBucket<K, V>(front: seq<Cell<K, V>>, c: Cell<K, V>, shifts: nat)
    requires front != [] && AllLive(front)
    requires Shr(front[|front| - 1].keyHash, shifts) == Shr(c.keyHash, shifts)
    requires forall i :: 0 <= i < |front| ==> front[i].ref >= 0
    ensures FirstLive(front, Shr(c.keyHash, shifts), shifts) != NIL
  {
    hide Shr, FirstLive;
    var b := Shr(c.keyHash, shifts);
    if FirstLive(front, b, shifts) == NIL {
      NoFirstLive(front, b, shifts);
    }
  }
}
