/** The concurrent map used by one goroutine at a time: every operation agrees with a finite map. */
module CmapSequential {
  import opened Common
  import opened Words
  import opened CmapList
  import opened CmapArena
  import opened CmapIndex
  import opened CmapEffects
  import opened CmapSizes

  const DEFAULT_SIZE: nat := 8

  const MAX_FILL_RATE: nat := 50

  /** Counters stay below this bound, so that `count * 100` does not wrap in a word. */
  const MAX_ITEMS: nat := Pow2(56)

  predicate ResizeNeeded(length: nat, count: nat)
    requires length > 0
  {
    count * 100 / length > MAX_FILL_RATE
  }

  lemma ResizeMeans(length: nat, count: nat)
    requires length > 0 && ResizeNeeded(length, count)
    ensures length < 2 * count
  {
    MulMonotone(MAX_FILL_RATE + 1, count * 100 / length, length);
    DivMul(count * 100, length);
  }

  /** Where no resize is needed the fill rate, rounded down, is at most 50 percent. */
  lemma NoResizeMeans(length: nat, count: nat)
    requires length > 0 && !ResizeNeeded(length, count)
    ensures count * 100 < 51 * length
  {
    MulMonotone(count * 100 / length, MAX_FILL_RATE, length);
    assert count * 100 == (count * 100 / length) * length + count * 100 % length;
  }

  lemma MulMonotone(x: nat, y: nat, z: nat)
    requires x <= y
    ensures x * z <= y * z
  {
  }

  lemma DivMul(x: nat, y: nat)
    requires y > 0
    ensures (x / y) * y <= x
  {
  }

  /** An index: its slots, how many top bits of a hash select one, how many are taken. */
  class Metadata {
    const shifts: nat
    var index: seq<int>
    var count: nat

    /** A new index of `size` empty slots, a power of two. */
    constructor (size: nat, shifts: nat)
      requires shifts <= WORD_BITS && size == Pow2(WORD_BITS - shifts)
      ensures this.shifts == shifts && SizeOk() && count == Filled(index) && |index| == size
      ensures forall b :: 0 <= b < |index| ==> index[b] == NIL
    {
      hide Filled, Pow2;
      this.shifts := shifts;
      index := seq(size, _ => NIL);
      count := 0;
      new;
      FilledNone(index);
    }

    ghost predicate SizeOk()
      reads this
    {
      shifts <= WORD_BITS && |index| == Pow2(WORD_BITS - shifts)
    }

    /** `addItemToIndex`: the item takes its slot if that is empty or held by a larger hash. */
    method AddItemToIndex<K, V>(nodes: seq<Node<K, V>>, item: nat) returns (n: nat)
      requires SizeOk() && count == Filled(index)
      requires item < |nodes| && nodes[item].keyHash < Pow2(WORD_BITS)
      requires forall b :: 0 <= b < |index| ==> index[b] == NIL || 0 <= index[b] < |nodes|
      modifies this
      ensures SizeOk() && count == Filled(index) && |index| == old(|index|) && if n == 0 then count == old(count) else n == count
      ensures forall b :: 0 <= b < |index| ==>
                index[b] == NewSlot(old(index[b]), HashAt(nodes, old(index[b])), b, item, nodes[item].keyHash, shifts)
    {
      hide Shr, Filled, Pow2;
      var i := Shr(nodes[item].keyHash, shifts);
      BucketInRange(nodes[item].keyHash, shifts, WORD_BITS);
      var elem := index[i];
      FilledUpdate(index, i, item);
      if elem == NIL {
        index := index[i := item];
        count := count + 1;
        return count;
      }
      if nodes[item].keyHash < nodes[elem].keyHash {
        index := index[i := item];
      }
      return 0;
    }

    /** The index part of `removeItemFromIndex`: the slot passes from the item to its successor,
        and is no longer counted if that is NIL. */
    method ReplaceItem(i: nat, item: nat, next: int)
      requires SizeOk() && i < |index| && count == Filled(index)
      modifies this
      ensures SizeOk() && count == Filled(index) && |index| == old(|index|) && count <= old(count)
      ensures forall b :: 0 <= b < |index| ==> index[b] == if b == i && old(index[b]) == item then next else old(index[b])
    {
      hide Filled, Pow2;
      var swappedToNil := false;
      if index[i] == item {
        FilledUpdate(index, i, next);
        index := index[i := next];
        swappedToNil := next == NIL;
      }
      if swappedToNil {
        count := count - 1;
      }
    }
  }

  class ConcurrentMap<K(==), V(==)> {
    const hasher: K -> Word
    const zeroKey: K
    var nodes: seq<Node<K, V>>
    var metadata: Metadata
    var numItems: nat
    /** The nodes from the head on, in list order. */
    ghost var chain: seq<nat>

    ghost function Cells(): seq<Cell<K, V>>
      requires Linked(nodes, chain)
      reads this
    {
      ListCells(nodes, chain)
    }

    ghost predicate ListInv()
      reads this
    {
      Linked(nodes, chain)
      && nodes[0].keyHash == 0 && nodes[0].key == zeroKey && !nodes[0].deleted
      && hasher(zeroKey) != 0
      && ListOk(Cells(), hasher, metadata.shifts)
    }

    ghost predicate IndexInv()
      requires Linked(nodes, chain)
      reads this, metadata
    {
      metadata.SizeOk()
      && SlotsOk(metadata.index, Cells(), metadata.shifts)
      && metadata.count == Filled(metadata.index)
    }

    ghost predicate Valid()
      reads this, metadata
    {
      ListInv() && IndexInv() && numItems == LiveCount(Cells()) && Sparse()
    }

    /** No more than 50 percent of the slots are taken, as `Fillrate` counts. */
    ghost predicate Sparse()
      reads this, metadata
    {
      metadata.count * 100 < 51 * |metadata.index|
    }

    /** The finite map this object stands for. */
    ghost function Map(): map<K, V>
      requires Linked(nodes, chain)
      reads this
    {
      Contents(Cells())
    }

    ghost predicate At(r: nat, p: nat)
      reads this
    {
      p < |chain| && chain[p] == r < |nodes|
    }

    // ---------- list.go ----------

    /** `next`: the first live node after `r`; deleted nodes in between are unlinked. */
    method Next(r: nat, ghost p: nat) returns (n: int)
      requires Linked(nodes, chain) && At(r, p)
      modifies this`nodes, this`chain
      ensures Linked(nodes, chain) && SameNodes(old(nodes), nodes)
      ensures chain == Cut(old(chain), p + 1, SkipDeleted(old(nodes), old(chain), p + 1))
      ensures n == RefAt(chain, p + 1)
      ensures n != NIL ==> !nodes[n].deleted
      decreases |chain| - p
    {
      hide SkipDeleted, Cut;
      ghost var nodes0, chain0 := nodes, chain;
      ghost var q := SkipDeleted(nodes, chain, p + 1);
      CutFacts(chain0, p + 1, q);
      SkipStep(nodes0, chain0, p + 1);
      assert LinkAt(nodes, chain, p);
      n := nodes[r].next;
      while n != NIL
        invariant Linked(nodes, chain) && SameNodes(nodes0, nodes) && At(r, p)
        invariant n == RefAt(chain, p + 1)
        invariant chain == chain0 || chain == Cut(chain0, p + 1, q)
        invariant (chain == chain0 && nodes == nodes0) || (n != NIL ==> !nodes[n].deleted)
        invariant n == NIL ==> chain == Cut(chain0, p + 1, q)
        decreases |chain|
      {
        assert CellOf(nodes0, n) == CellOf(nodes, n);
        if !nodes[n].deleted {
          return;
        }
        CutFacts(chain0, p + 2, q);
        var after := Next(n, p + 1);
        n := UnlinkNext(r, n, after, p);
      }
    }

    /** The compare-and-swap of `next`: point past a deleted node, then load again. */
    method UnlinkNext(r: nat, n: nat, after: int, ghost p: nat) returns (m: int)
      requires Linked(nodes, chain) && At(r, p) && At(n, p + 1) && after == RefAt(chain, p + 2)
      modifies this`nodes, this`chain
      ensures Linked(nodes, chain) && SameNodes(old(nodes), nodes)
      ensures chain == Cut(old(chain), p + 1, p + 2) && m == after == RefAt(chain, p + 1)
      ensures m != NIL ==> CellOf(nodes, m) == CellOf(old(nodes), m)
    {
      assert LinkAt(nodes, chain, p);
      CutLinks(nodes, chain, p + 1, p + 2);
      CutFacts(chain, p + 1, p + 2);
      if nodes[r].next == n {
        nodes := nodes[r := nodes[r].(next := after)];
        chain := Cut(chain, p + 1, p + 2);
      }
      assert LinkAt(nodes, chain, p);
      m := nodes[r].next;
    }

    /** What lies before position `q` of the chain, without the head. */
    ghost function Front(q: nat): seq<Cell<K, V>>
      requires Linked(nodes, chain) && q <= |chain|
      reads this
    {
      Cells()[..if q == 0 then 0 else q - 1]
    }

    /** What unlinking leaves alone: the map, the number of live cells and every bucket's first
        live cell. */
    twostate predicate SameMeaning()
      requires old(Linked(nodes, chain)) && Linked(nodes, chain)
      reads this
    {
      Map() == old(Map()) && LiveCount(Cells()) == old(LiveCount(Cells()))
      && (forall b: nat, s: nat :: FirstLive(Cells(), b, s) == FirstLive(old(Cells()), b, s))
    }

    method NextElement(r: nat, ghost p: nat) returns (n: int)
      requires ListInv() && At(r, p)
      modifies this`nodes, this`chain
      ensures ListInv() && SameMeaning() && SameNodes(old(nodes), nodes)
      ensures p + 1 == old(|chain|) || !old(nodes[chain[p + 1]].deleted) ==> chain == old(chain)
      ensures p < |chain| <= old(|chain|) && chain[..p + 1] == old(chain)[..p + 1]
      ensures Front(p) == old(Front(p)) && Front(p + 1) == old(Front(p + 1)) && CellOf(nodes, r) == old(CellOf(nodes, r))
      ensures At(r, p) && n == RefAt(chain, p + 1)
      ensures n != NIL ==> n >= 0 && At(n, p + 1) && !nodes[n].deleted
    {
      hide Linked, ListCells, ListOk, FirstLive, LiveCount, Contents;
      ghost var nodes0, chain0 := nodes, chain;
      HeadInArena(nodes, chain);
      ghost var q := SkipDeleted(nodes, chain, p + 1);
      n := Next(r, p);
      CutMeans(nodes0, nodes, chain0, p + 1, q, hasher, metadata.shifts);
      assert CellOf(nodes0, 0) == CellOf(nodes, 0);
      CutFacts(chain0, p + 1, q);
      assert Front(p + 1) == old(Front(p + 1));
      assert Front(p) == Front(p + 1)[..if p == 0 then 0 else p - 1];
    }

    /** A node an operation on hash `h` may start from: the head, or a live node no larger
        than `h` that the index led to. */
    ghost predicate CanStart(r: nat, p: nat, h: nat)
      requires Linked(nodes, chain)
      reads this
    {
      At(r, p)
      && (p > 0 ==> !nodes[r].deleted && nodes[r].keyHash <= h && StartOk(Cells(), p - 1, h, metadata.shifts))
    }

    lemma StartPassed(r: nat, p: nat, c: Word, key: K)
      requires ListInv() && CanStart(r, p, c) && c == hasher(key)
      ensures Passed(Front(p), c, key, metadata.shifts) && !nodes[r].deleted && nodes[r].keyHash <= c
    {
      hide ListOk, StartOk, Passed;
      SearchStarts(Cells(), p, c, key, hasher, metadata.shifts);
    }

    /** Moving on from a node that is not the key's keeps everything behind passed; the head is
        nobody's node. */
    lemma StepPassed(r: nat, q: nat, c: Word, key: K)
      requires ListInv() && At(r, q) && !nodes[r].deleted && c == hasher(key)
      requires Passed(Front(q), c, key, metadata.shifts) && nodes[r].keyHash <= c
      ensures c == nodes[r].keyHash && key == nodes[r].key ==> q > 0
      ensures !(c == nodes[r].keyHash && key == nodes[r].key) ==> Passed(Front(q + 1), c, key, metadata.shifts)
    {
      hide ListOk, Passed;
      if q > 0 && !(c == nodes[r].keyHash && key == nodes[r].key) {
        SearchAdvances(Cells(), q - 1, c, key, hasher, metadata.shifts);
      }
    }

    /** `search`: the node of `key`, or the pair of neighbours between which it belongs. */
    method Search(start: nat, ghost p: nat, c: Word, key: K)
      returns (left: int, curr: int, right: int, ghost q: nat)
      requires ListInv() && c == hasher(key) && CanStart(start, p, c)
      modifies this`nodes, this`chain
      ensures ListInv() && SameMeaning() && SameNodes(old(nodes), nodes)
      ensures 0 < q <= |chain|
      ensures curr != NIL ==> curr >= 0 && At(curr, q) && !nodes[curr].deleted && nodes[curr].key == key
      ensures curr == NIL ==> left >= 0 && At(left, q - 1) && right == RefAt(chain, q)
      ensures curr == NIL ==> Passed(Front(q), c, key, metadata.shifts)
      ensures right != NIL && curr == NIL ==> right >= 0 && At(right, q) && !nodes[right].deleted && nodes[right].keyHash > c
    {
      hide Linked, ListCells, ListOk, FirstLive, LiveCount, Contents, Passed, StartOk;
      left, curr, right, q := NIL, start, NIL, p;
      StartPassed(start, p, c, key);
      while curr != NIL
        invariant ListInv() && SameMeaning() && SameNodes(old(nodes), nodes)
        invariant p <= q <= |chain|
        invariant curr != NIL ==> curr >= 0 && At(curr, q) && !nodes[curr].deleted
        invariant curr == NIL ==> p < q == |chain| && right == NIL
        invariant if q > p then left >= 0 && At(left, q - 1) else left == NIL && curr != NIL && nodes[curr].keyHash <= c
        invariant Passed(Front(q), c, key, metadata.shifts)
        decreases |chain| - q
      {
        right := NextElement(curr, q);
        if c < nodes[curr].keyHash {
          right := curr;
          curr := NIL;
          return;
        } else if c == nodes[curr].keyHash && key == nodes[curr].key {
          StepPassed(curr, q, c, key);
          return;
        }
        left := curr;
        curr := NextElement(left, q);
        StepPassed(left, q, c, key);
        q := q + 1;
        right := NIL;
      }
    }

    /** `addBefore`: link a new node between a node and the one expected after it. */
    method AddBefore(left: nat, ghost q: nat, x: Node<K, V>, before: int) returns (ok: bool, alloc: nat)
      requires ListInv() && 0 < q && At(left, q - 1) && before == RefAt(chain, q)
      requires !x.deleted && x.keyHash == hasher(x.key) && Passed(Front(q), x.keyHash, x.key, metadata.shifts)
      requires q < |chain| ==> !nodes[chain[q]].deleted && nodes[chain[q]].keyHash > x.keyHash
      modifies this`nodes, this`chain
      ensures ok && ListInv() && At(alloc, q) && CellOf(nodes, alloc) == Cell(alloc, x.keyHash, x.key, x.value, false)
      ensures x.key !in old(Map()) && Map() == old(Map())[x.key := x.value]
      ensures LiveCount(Cells()) == old(LiveCount(Cells())) + 1
      ensures SlotsMove(alloc, x.keyHash) && HashesKept(old(nodes), nodes)
    {
      hide Linked, ListCells, ListOk, FirstLive, LiveCount, Contents, Passed, NewSlot, InsertedChain, InsertedNodes;
      HeadInArena(nodes, chain);
      ghost var nodes0 := nodes;
      var next := NextElement(left, q - 1);
      ok, alloc := next == before, |nodes|;
      if ok {
        SameHashes(nodes0, nodes);
        assert q < |chain| ==> CellOf(nodes0, chain[q]) == CellOf(nodes, chain[q]);
        ghost var nodes1 := nodes;
        var x := x.(next := before);
        InsertMeans(nodes, chain, q, x, hasher, metadata.shifts);
        InsertedCell(nodes, left, x);
        InsertedElsewhere(nodes, left, x);
        InsertedHashes(nodes, left, x);
        InsertedPositions(chain, q, |nodes|);
        nodes := InsertedNodes(nodes, left, x);
        chain := InsertedChain(chain, q, alloc);
        assert CellOf(nodes, 0) == CellOf(nodes1, 0);
      }
    }

    /** Every bucket's first live node, after the live node `r` with hash `h` was put in. */
    twostate predicate SlotsMove(r: nat, h: nat)
      requires old(Linked(nodes, chain)) && Linked(nodes, chain)
      reads this
    {
      forall b: nat ::
        FirstLive(Cells(), b, metadata.shifts)
        == NewSlot(old(FirstLive(Cells(), b, metadata.shifts)),
                   HashAt(old(nodes), old(FirstLive(Cells(), b, metadata.shifts))), b, r, h, metadata.shifts)
    }

    /** `inject`: store to the key's node, or add a node for it. */
    method Inject(start: nat, ghost p: nat, c: Word, key: K, value: V) returns (alloc: int, created: bool, ghost q: nat)
      requires ListInv() && c == hasher(key) && CanStart(start, p, c)
      modifies this`nodes, this`chain
      ensures ListInv() && alloc >= 0 && At(alloc, q) && q > 0 && nodes[alloc].keyHash == c
      ensures Map() == old(Map())[key := value] && (created <==> key !in old(Map()))
      ensures LiveCount(Cells()) == old(LiveCount(Cells())) + if created then 1 else 0
      ensures SlotsMove(alloc, c) && HashesKept(old(nodes), nodes)
    {
      hide Linked, ListCells, ListOk, FirstLive, LiveCount, Contents, Passed, NewSlot, StartOk;
      ghost var nodes0 := nodes;
      var left, curr, right;
      left, curr, right, q := Search(start, p, c, key);
      SameHashes(nodes0, nodes);
      if curr != NIL {
        KeyHasHash(curr, q);
        StoreMeans(nodes, chain, q, value, hasher, metadata.shifts);
        nodes := nodes[curr := nodes[curr].(value := value)];
        return curr, false, q;
      }
      alloc, created := NIL, false;
      if left != NIL {
        var ok, r := AddBefore(left, q, Node(c, key, value, NIL, false), right);
        if ok {
          return r, true, q;
        }
      }
    }

    lemma KeyHasHash(r: nat, q: nat)
      requires ListInv() && At(r, q) && q > 0
      ensures nodes[r].keyHash == hasher(nodes[r].key) && chain[0] == 0 != r
    {
      hide StaleBehindIndex, DistinctLiveKeys, Sorted, Pow2;
      assert Cells()[q - 1] == CellOf(nodes, r);
    }

    // ---------- map.go: the index ----------

    /** `indexElement`: the slot of the hash, or the nearest slot before it that can serve. A
        node with no larger hash is a place to start from; whenever the result is not from the
        hash's own bucket, no live node has the hash. */
    method IndexElement(h: Word) returns (item: int, ghost p: nat)
      requires Valid()
      ensures item != NIL ==> 0 <= item < |nodes|
      ensures item != NIL && nodes[item].keyHash <= h ==> p > 0 && CanStart(item, p, h)
      ensures item == NIL || nodes[item].keyHash > h || Shr(nodes[item].keyHash, metadata.shifts) != Shr(h, metadata.shifts)
              ==> NoLiveHash(Cells(), h)
    {
      hide Linked, ListCells, ListOk, StartOk, NoLiveHash, FirstLive, LiveCount;
      var index := Shr(h, metadata.shifts);
      BucketInRange(h, metadata.shifts, WORD_BITS);
      item := metadata.index[index];
      p := SlotPosition(index, h);
      while (item == NIL || h < nodes[item].keyHash || nodes[item].deleted) && index > 0
        invariant index < |metadata.index| && index <= Shr(h, metadata.shifts)
        invariant item == FirstLive(Cells(), index, metadata.shifts)
        invariant item != NIL ==> 0 <= item < |nodes| && !nodes[item].deleted && Shr(nodes[item].keyHash, metadata.shifts) == index
        invariant item != NIL && nodes[item].keyHash <= h ==> p > 0 && CanStart(item, p, h)
        invariant index < Shr(h, metadata.shifts) || item == NIL || nodes[item].keyHash > h ==> NoLiveHash(Cells(), h)
      {
        index := index - 1;
        item := metadata.index[index];
        p := SlotPosition(index, h);
      }
    }

    /** What a slot that is taken points to. */
    lemma SlotPosition(b: nat, h: Word) returns (p: nat)
      requires Valid() && b < |metadata.index|
      ensures metadata.index[b] == FirstLive(Cells(), b, metadata.shifts)
      ensures var r := metadata.index[b];
              r != NIL ==> (0 <= r < |nodes| && !nodes[r].deleted && Shr(nodes[r].keyHash, metadata.shifts) == b
                            && p > 0 && At(r, p) && (nodes[r].keyHash <= h ==> CanStart(r, p, h)))
      ensures b == Shr(h, metadata.shifts) && (metadata.index[b] == NIL || nodes[metadata.index[b]].keyHash > h)
              ==> NoLiveHash(Cells(), h)
    {
      hide Linked, ListCells, ListOk, StartOk, NoLiveHash, FirstLive, LiveCount, Shr, HashOfRef, Contents;
      var r := metadata.index[b];
      HeadInArena(nodes, chain);
      ListOkParts(Cells(), hasher, metadata.shifts);
      p := 0;
      RefsHaveHashes(nodes, chain, r);
      if r != NIL {
        p := FirstLivePosition(Cells(), b, metadata.shifts);
        assert Cells()[p] == CellOf(nodes, chain[p + 1]);
        if nodes[r].keyHash <= h {
          FirstLiveIsStart(Cells(), p, h, metadata.shifts);
        }
        p := p + 1;
      }
      if b == Shr(h, metadata.shifts) && (r == NIL || nodes[r].keyHash > h) {
        SlotExcludes(Cells(), h, HashAt(nodes, r), metadata.shifts);
      }
    }

    /** Where an operation that may write starts: the index, or the head. */
    method Start(h: Word) returns (existing: nat, ghost p: nat)
      requires Valid()
      ensures CanStart(existing, p, h)
    {
      hide ListOk, StartOk, NoLiveHash, FirstLive, LiveCount, Shr;
      var item;
      item, p := IndexElement(h);
      if item == NIL || nodes[item].keyHash > h {
        return 0, 0;
      }
      return item, p;
    }

    /** After an injection the item takes its slot, and every slot is right again. */
    method IndexInjected(alloc: nat, ghost q: nat) returns (n: nat)
      requires ListInv() && At(alloc, q) && q > 0 && metadata.SizeOk() && metadata.count == Filled(metadata.index)
      requires forall b :: 0 <= b < |metadata.index| ==> metadata.index[b] == NIL || 0 <= metadata.index[b] < |nodes|
      requires forall b: nat :: b < |metadata.index| ==>
                 FirstLive(Cells(), b, metadata.shifts)
                 == NewSlot(metadata.index[b], HashAt(nodes, metadata.index[b]), b, alloc, nodes[alloc].keyHash, metadata.shifts)
      modifies metadata
      ensures IndexInv() && |metadata.index| == old(|metadata.index|)
      ensures if n == 0 then metadata.count == old(metadata.count) else n == metadata.count
    {
      hide Linked, ListCells, ListOk, FirstLive, LiveCount, NewSlot, Filled, Pow2, HashAt;
      KeyHasHash(alloc, q);
      n := metadata.AddItemToIndex(nodes, alloc);
    }

    /** What the next node adds to the front that was already read. */
    lemma FrontGrows(q: nat)
      requires ListInv() && 0 < q < |chain|
      ensures Front(q + 1) == Front(q) + [CellOf(nodes, chain[q])]
      ensures forall i :: 0 <= i < |Front(q)| ==> (Front(q)[i].keyHash <= nodes[chain[q]].keyHash
                                                && Front(q)[i].keyHash == HashAt(nodes, Front(q)[i].ref))
    {
      hide ListOk;
      ListOkParts(Cells(), hasher, metadata.shifts);
      assert Cells()[q - 1] == CellOf(nodes, chain[q]);
    }

    /** What filling keeps: the slots are right for the cells before position `q`. */
    ghost predicate FilledUpTo(data: Metadata, q: nat, lastIndex: nat)
      requires Linked(nodes, chain) && q <= |chain|
      reads this, data
    {
      data.SizeOk() && data.count == Filled(data.index)
      && AllLive(Front(q)) && SlotsOk(data.index, Front(q), data.shifts)
      && (q > 1 ==> lastIndex == Shr(Front(q)[q - 2].keyHash, data.shifts))
    }

    /** One node of the list is entered if it is the first one or starts a new bucket. */
    method FillItem(data: Metadata, item: nat, isFirst: bool, lastIndex: nat, ghost q: nat) returns (last: nat)
      requires ListInv() && data != metadata && At(item, q) && q > 0 && !nodes[item].deleted && (isFirst <==> q == 1)
      requires FilledUpTo(data, q, lastIndex)
      modifies data
      ensures FilledUpTo(data, q + 1, last)
    {
      hide Linked, ListCells, ListOk, FirstLive, Shr, Filled, SlotsOk;
      FrontGrows(q);
      KeyHasHash(item, q);
      SlotsInArena(nodes, chain, data.index, data.shifts, q - 1);
      var index := Shr(nodes[item].keyHash, data.shifts);
      ghost var was := data.index;
      last := lastIndex;
      if isFirst || index != lastIndex {
        var _ := data.AddItemToIndex(nodes, item);
        FillAdded(nodes, Front(q), CellOf(nodes, item), was, data.index, data.shifts);
        last := index;
      } else {
        FillSkipped(Front(q), CellOf(nodes, item), data.index, data.shifts);
      }
    }

    /** `fillIndexItems`: enter the list into a new index; reading it unlinks every deleted node. */
    method FillIndexItems(data: Metadata)
      requires ListInv() && data != metadata && data.SizeOk() && data.count == Filled(data.index)
      requires forall b :: 0 <= b < |data.index| ==> data.index[b] == NIL
      modifies this`nodes, this`chain, data
      ensures ListInv() && SameMeaning() && AllLive(Cells())
      ensures data.SizeOk() && SlotsOk(data.index, Cells(), data.shifts) && data.count == Filled(data.index)
    {
      hide Linked, ListCells, ListOk, FirstLive, LiveCount, Contents, Shr, Filled, SlotsOk;
      SlotsOfNone<K, V>(data.index, data.shifts);
      HeadAt();
      var first := NextElement(0, 0);
      var item, lastIndex := first, 0;
      ghost var q := 1;
      while item != NIL
        invariant ListInv() && SameMeaning() && 0 < q <= |chain| && item == RefAt(chain, q)
        invariant item != NIL ==> item >= 0 && first >= 0 && At(item, q) && At(first, 1) && !nodes[item].deleted
        invariant FilledUpTo(data, q, lastIndex)
        decreases |chain| - q
      {
        DistinctAt(first, 1, item, q);
        lastIndex := FillItem(data, item, item == first, lastIndex, q);
        item := NextElement(item, q);
        q := q + 1;
      }
      WholeFront();
    }

    lemma DistinctAt(r: nat, p: nat, r': nat, q: nat)
      requires Linked(nodes, chain) && At(r, p) && At(r', q)
      ensures r == r' <==> p == q
    {
    }

    lemma HeadAt()
      requires ListInv()
      ensures At(0, 0) && Front(1) == []
    {
    }

    lemma WholeFront()
      requires Linked(nodes, chain)
      ensures Front(|chain|) == Cells()
    {
    }

    /** `grow`: replace the index until it is large enough; `newSize == 0` doubles it. */
    method Grow(newSize: nat)
      requires ListInv() && numItems == LiveCount(Cells()) < MAX_ITEMS && metadata.SizeOk()
      requires newSize <= MAX_SIZE && (newSize == 0 ==> |metadata.index| * 2 <= MAX_SIZE)
      modifies this`nodes, this`chain, this`metadata
      ensures Valid() && Map() == old(Map()) && fresh(metadata)
      ensures newSize <= |metadata.index| && !ResizeNeeded(|metadata.index|, numItems)
    {
      hide Linked, ListCells, ListOk, FirstLive, LiveCount, Contents, Filled, SlotsOk, Pow2, ResizeNeeded;
      var size := newSize;
      while true
        invariant ListInv() && Map() == old(Map()) && numItems == LiveCount(Cells()) && metadata.SizeOk()
        invariant size <= MAX_SIZE && newSize <= MAX_SIZE
        invariant size == 0 ==> |metadata.index| * 2 <= MAX_SIZE && newSize <= |metadata.index|  * 2
        invariant size != 0 ==> size == newSize
        decreases if size == 0 then 0 else 1, 2 * numItems - |metadata.index|
      {
        ghost var k;
        if size == 0 {
          size := |metadata.index| * 2;
          k := WORD_BITS - metadata.shifts + 1;
          Pow2Steps(k - 1);
        } else {
          WordPowers();
          size, k := RoundUpPower2(size);
        }
        var n := Log2(size);
        Pow2Exact(k, n);
        SizeFits(n);
        var data := new Metadata(size, WORD_BITS - n);
        FillIndexItems(data);
        AllLiveFitsEveryIndex(Cells(), hasher, metadata.shifts, data.shifts);
        metadata := data;
        if !ResizeNeeded(size, numItems) {
          NoResizeMeans(size, numItems);
          FilledAtMostLive(metadata.index, Cells(), metadata.shifts);
          return;
        }
        ResizeMeans(size, numItems);
        SmallIndexDoubles(size, numItems);
        size := 0;
      }
    }

    // ---------- map.go: the operations ----------

    /** The common end of `Set` and `GetOrSet`: inject, count, index, and grow if needed. */
    method Store(existing: nat, ghost p: nat, h: Word, key: K, value: V) returns (created: bool)
      requires Valid() && h == hasher(key) && CanStart(existing, p, h) && numItems + 1 < MAX_ITEMS
      modifies this`nodes, this`chain, this`metadata, this`numItems, metadata
      ensures Valid() && Map() == old(Map())[key := value] && (created <==> key !in old(Map()))
      ensures numItems == old(numItems) + if created then 1 else 0
      ensures metadata == old(metadata) || fresh(metadata)
      ensures metadata.count * 100 < 51 * |metadata.index|
    {
      hide Linked, ListCells, ListOk, FirstLive, LiveCount, Contents, Filled, SlotsOk, Pow2, ResizeNeeded, StartOk, NewSlot;
      ghost var nodes0, chain0, index0 := nodes, chain, metadata.index;
      var alloc; ghost var q;
      alloc, created, q := Inject(existing, p, h, key, value);
      if created {
        numItems := numItems + 1;
      }
      InjectedSlots(nodes0, chain0, index0, alloc, h);
      var count := IndexInjected(alloc, q);
      FilledAtMostLive(metadata.index, Cells(), metadata.shifts);
      if ResizeNeeded(|metadata.index|, count) {
        ResizeMeans(|metadata.index|, count);
        SmallIndexDoubles(|metadata.index|, count);
        Grow(0);
      } else {
        NoResizeMeans(|metadata.index|, count);
      }
    }

    /** The slots of the old index, as the injected node's index entry has to find them. */
    lemma InjectedSlots(nodes0: seq<Node<K, V>>, chain0: seq<nat>, index: seq<int>, alloc: nat, h: nat)
      requires Linked(nodes0, chain0) && Linked(nodes, chain) && HashesKept(nodes0, nodes)
      requires SlotsOk(index, ListCells(nodes0, chain0), metadata.shifts)
      requires forall b: nat ::
                 FirstLive(Cells(), b, metadata.shifts)
                 == NewSlot(FirstLive(ListCells(nodes0, chain0), b, metadata.shifts),
                            HashAt(nodes0, FirstLive(ListCells(nodes0, chain0), b, metadata.shifts)), b, alloc, h, metadata.shifts)
      ensures forall b :: 0 <= b < |index| ==> index[b] == NIL || 0 <= index[b] < |nodes|
      ensures forall b: nat :: b < |index| ==>
                (FirstLive(Cells(), b, metadata.shifts)
                 == NewSlot(index[b], HashAt(nodes, index[b]), b, alloc, h, metadata.shifts))
    {
      hide FirstLive, NewSlot, Linked, ListCells;
      ghost var cells := ListCells(nodes0, chain0);
      assert cells[..|cells|] == cells;
      SlotsInArena(nodes0, chain0, index, metadata.shifts, |cells|);
    }

    /** `Set`. */
    method Set(key: K, value: V)
      requires Valid() && numItems + 1 < MAX_ITEMS
      modifies this`nodes, this`chain, this`metadata, this`numItems, metadata
      ensures Valid() && Map() == old(Map())[key := value]
      ensures numItems == old(numItems) + if key in old(Map()) then 0 else 1
      ensures metadata == old(metadata) || fresh(metadata)
      ensures metadata.count * 100 < 51 * |metadata.index|
    {
      hide *;
      var h := hasher(key);
      var existing, p := Start(h);
      var _ := Store(existing, p, h, key, value);
    }

    /** A raw walk for a key, begun at position `p` and now at `q`. */
    ghost predicate Walk(p: nat, q: nat, h: Word, key: K, strict: bool)
      requires Linked(nodes, chain)
      reads this
    {
      0 < p <= q < |chain| && CanStart(chain[p], p, h)
      && (Shr(nodes[chain[p]].keyHash, metadata.shifts) == Shr(h, metadata.shifts) || NoLiveHash(Cells(), h))
      && NotMet(Cells(), p - 1, q - 1, key, strict)
    }

    lemma WalkBegins(r: int, p: nat, h: Word, key: K, strict: bool)
      requires Valid() && h == hasher(key)
      requires r == NIL || 0 <= r < |nodes|
      requires r != NIL && nodes[r].keyHash <= h ==> p > 0 && CanStart(r, p, h)
      requires r == NIL || nodes[r].keyHash > h || Shr(nodes[r].keyHash, metadata.shifts) != Shr(h, metadata.shifts)
               ==> NoLiveHash(Cells(), h)
      ensures if r == NIL || nodes[r].keyHash > h then key !in Map() else At(r, p) && Walk(p, p, h, key, strict)
    {
      hide ListOk, Contents, NoLiveHash, StartOk, Shr, FirstLive, LiveCount;
      if r == NIL || nodes[r].keyHash > h {
        ListOkParts(Cells(), hasher, metadata.shifts);
        AbsentHash(Cells(), h, key, hasher);
      }
    }

    /** One more node that is not the key's is behind; past the hash, the key is absent. */
    lemma WalkGoesOn(r: nat, p: nat, q: nat, h: Word, key: K, strict: bool)
      requires ListInv() && h == hasher(key) && At(r, q) && Walk(p, q, h, key, strict)
      requires nodes[r].key != key || (!strict && nodes[r].deleted)
      ensures var n := nodes[r].next;
              n == RefAt(chain, q + 1) && (n == NIL || 0 <= n < |nodes|)
              && if n == NIL || nodes[n].keyHash > h then key !in Map() else At(n, q + 1) && Walk(p, q + 1, h, key, strict)
    {
      hide ListOk, Contents, NoLiveHash, StartOk, Shr;
      assert LinkAt(nodes, chain, q);
      assert Cells()[q - 1] == CellOf(nodes, r);
      assert q + 1 < |chain| ==> Cells()[q] == CellOf(nodes, chain[q + 1]);
      assert NotMet(Cells(), p - 1, q, key, strict);
      if q + 1 == |chain| || nodes[chain[q + 1]].keyHash > h {
        WalkEnds(Cells(), p - 1, q, h, key, strict, hasher, metadata.shifts);
      }
    }

    /** The first node of the key on the walk is the live one, if there is one. */
    lemma WalkFinds(r: nat, p: nat, q: nat, h: Word, key: K, strict: bool)
      requires ListInv() && h == hasher(key) && At(r, q) && Walk(p, q, h, key, strict) && nodes[r].key == key
      requires strict || !nodes[r].deleted
      ensures if nodes[r].deleted then key !in Map() else key in Map() && Map()[key] == nodes[r].value
    {
      hide ListOk, Contents, NoLiveHash, StartOk, Shr;
      assert Cells()[q - 1] == CellOf(nodes, r);
      assert Cells()[p - 1] == CellOf(nodes, chain[p]);
      ListOkParts(Cells(), hasher, metadata.shifts);
      if nodes[r].deleted {
        WalkMeetsDeleted(Cells(), p - 1, q - 1, h, key, hasher, metadata.shifts);
      } else {
        ContentsAt(Cells(), q - 1);
      }
    }

    /** `Get`: walk raw `next` fields from the index to the first node of the key. */
    method Get(key: K) returns (value: Option<V>)
      requires Valid()
      ensures value == if key in Map() then Some(Map()[key]) else None
    {
      hide Linked, ListCells, ListOk, FirstLive, LiveCount, Contents, NoLiveHash, StartOk, Shr, NotMet, Walk;
      var h := hasher(key);
      var elem; ghost var p;
      elem, p := IndexElement(h);
      WalkBegins(elem, p, h, key, true);
      ghost var q := p;
      while elem != NIL && nodes[elem].keyHash <= h
        invariant elem != NIL ==> 0 <= elem < |nodes|
        invariant if elem == NIL || nodes[elem].keyHash > h then key !in Map() else At(elem, q) && Walk(p, q, h, key, true)
        decreases |chain| - q
      {
        if nodes[elem].key == key {
          WalkFinds(elem, p, q, h, key, true);
          return if nodes[elem].deleted then None else Some(nodes[elem].value);
        }
        WalkGoesOn(elem, p, q, h, key, true);
        elem := nodes[elem].next;
        q := q + 1;
      }
      return None;
    }

    /** The first half of `GetOrSet`: the same walk, but past deleted nodes of the key. */
    method FindLive(h: Word, key: K) returns (existing: int, elem: int, ghost p: nat)
      requires Valid() && h == hasher(key)
      ensures existing != NIL ==> 0 <= existing < |nodes| && (nodes[existing].keyHash <= h ==> CanStart(existing, p, h))
      ensures elem != NIL ==> 0 <= elem < |nodes|
      ensures if elem == NIL || nodes[elem].keyHash > h then key !in Map() else key in Map() && Map()[key] == nodes[elem].value
    {
      hide Linked, ListCells, ListOk, FirstLive, LiveCount, Contents, NoLiveHash, StartOk, Shr, NotMet, Walk, Filled;
      existing, p := IndexElement(h);
      WalkBegins(existing, p, h, key, false);
      elem := existing;
      ghost var q := p;
      while elem != NIL && nodes[elem].keyHash <= h
        invariant elem != NIL ==> 0 <= elem < |nodes|
        invariant if elem == NIL || nodes[elem].keyHash > h then key !in Map() else At(elem, q) && Walk(p, q, h, key, false)
        decreases |chain| - q
      {
        if nodes[elem].key == key && !nodes[elem].deleted {
          WalkFinds(elem, p, q, h, key, false);
          return;
        }
        WalkGoesOn(elem, p, q, h, key, false);
        elem := nodes[elem].next;
        q := q + 1;
      }
    }

    /** `GetOrSet`. */
    method GetOrSet(key: K, value: V) returns (actual: V, loaded: bool)
      requires Valid() && numItems + 1 < MAX_ITEMS
      modifies this`nodes, this`chain, this`metadata, this`numItems, metadata
      ensures Valid() && (loaded <==> key in old(Map()))
      ensures loaded ==> actual == old(Map())[key] && Map() == old(Map()) && numItems == old(numItems)
      ensures !loaded ==> actual == value && Map() == old(Map())[key := value] && numItems == old(numItems) + 1
      ensures metadata == old(metadata) || fresh(metadata)
    {
      hide Linked, ListCells, ListOk, FirstLive, LiveCount, Contents, StartOk, Filled, SlotsOk;
      var h := hasher(key);
      var existing, elem, p := FindLive(h, key);
      if elem != NIL && nodes[elem].keyHash <= h {
        return nodes[elem].value, true;
      }
      HeadIsStart(h);
      if existing == NIL || nodes[existing].keyHash > h {
        existing, p := 0, 0;
      }
      var _ := Store(existing, p, h, key, value);
      return value, false;
    }

    lemma HeadIsStart(h: Word)
      requires ListInv()
      ensures CanStart(0, 0, h)
    {
    }

    /** The node of a key that an operation is going to change, found by `search`. */
    method Find(key: K) returns (current: int, ghost q: nat)
      requires Valid()
      modifies this`nodes, this`chain
      ensures Valid() && Map() == old(Map())
      ensures current == NIL <==> key !in Map()
      ensures current != NIL ==> (current >= 0 && At(current, q) && q > 0 && !nodes[current].deleted
                                  && nodes[current].key == key && nodes[current].value == Map()[key])
    {
      hide Linked, ListCells, ListOk, FirstLive, LiveCount, Contents, StartOk, Passed, Filled;
      var h := hasher(key);
      var existing, p := Start(h);
      var _, curr, right, q' := Search(existing, p, h, key);
      current, q := curr, q';
      if current != NIL {
        ListOkParts(Cells(), hasher, metadata.shifts);
        BoundHere(current, q);
      } else {
        SearchShowsAbsent(right, q, h, key);
      }
    }

    lemma BoundHere(r: nat, q: nat)
      requires ListInv() && At(r, q) && q > 0 && !nodes[r].deleted
      ensures nodes[r].key in Map() && Map()[nodes[r].key] == nodes[r].value
    {
      hide ListOk, Contents;
      assert Cells()[q - 1] == CellOf(nodes, r);
      ListOkParts(Cells(), hasher, metadata.shifts);
      ContentsAt(Cells(), q - 1);
    }

    lemma SearchShowsAbsent(right: int, q: nat, h: Word, key: K)
      requires ListInv() && h == hasher(key) && 0 < q <= |chain| && right == RefAt(chain, q)
      requires Passed(Front(q), h, key, metadata.shifts)
      requires right != NIL ==> nodes[right].keyHash > h
      ensures key !in Map()
    {
      hide ListOk, Contents, Passed;
      assert q < |chain| ==> Cells()[q - 1] == CellOf(nodes, right);
      AbsentBetween(Cells(), q - 1, h, key, hasher, metadata.shifts);
    }

    /** Store a value in a node found before. */
    method StoreAt(current: nat, ghost q: nat, value: V)
      requires Valid() && At(current, q) && q > 0 && !nodes[current].deleted
      modifies this`nodes
      ensures Valid() && Map() == old(Map())[old(nodes[current].key) := value]
    {
      hide Linked, ListCells, ListOk, FirstLive, LiveCount, Contents, Filled;
      KeyHasHash(current, q);
      StoreMeans(nodes, chain, q, value, hasher, metadata.shifts);
      nodes := nodes[current := nodes[current].(value := value)];
    }

    /** `Swap`. */
    method Swap(key: K, newValue: V) returns (oldValue: Option<V>)
      requires Valid()
      modifies this`nodes, this`chain
      ensures Valid() && oldValue == if key in old(Map()) then Some(old(Map())[key]) else None
      ensures Map() == if key in old(Map()) then old(Map())[key := newValue] else old(Map())
    {
      hide Linked, ListCells, ListOk, FirstLive, LiveCount, Contents, Filled, SlotsOk;
      var current, q := Find(key);
      if current == NIL {
        return None;
      }
      oldValue := Some(nodes[current].value);
      StoreAt(current, q, newValue);
    }

    /** `CompareAndSwap`. */
    method CompareAndSwap(key: K, oldValue: V, newValue: V) returns (swapped: bool)
      requires Valid()
      modifies this`nodes, this`chain
      ensures Valid() && (swapped <==> key in old(Map()) && old(Map())[key] == oldValue)
      ensures Map() == if swapped then old(Map())[key := newValue] else old(Map())
    {
      hide Linked, ListCells, ListOk, FirstLive, LiveCount, Contents, Filled, SlotsOk;
      var current, q := Find(key);
      if current == NIL || nodes[current].value != oldValue {
        return false;
      }
      StoreAt(current, q, newValue);
      return true;
    }

    /** The loop of `Del` and `GetAndDel`: from the index, or the first node, by `next` to the
        node of the key. */
    method Locate(key: K) returns (existing: int, ghost q: nat)
      requires Valid()
      modifies this`nodes, this`chain
      ensures Valid() && Map() == old(Map())
      ensures existing == NIL <==> key !in Map()
      ensures existing != NIL ==> existing >= 0 && At(existing, q) && q > 0 && !nodes[existing].deleted && nodes[existing].key == key
    {
      hide Linked, ListCells, ListOk, FirstLive, LiveCount, Contents, StartOk, Passed, Filled;
      var h := hasher(key);
      existing, q := Start(h);
      StartPassed(existing, q, h, key);
      HeadOnly(existing, q);
      if existing == 0 {
        StepPassed(0, q, h, key);
        existing := NextElement(0, q);
        q := q + 1;
      }
      while existing != NIL && nodes[existing].keyHash <= h
        invariant Valid() && Map() == old(Map()) && 0 < q <= |chain| && existing == RefAt(chain, q)
        invariant existing != NIL ==> existing >= 0 && At(existing, q) && !nodes[existing].deleted
        invariant Passed(Front(q), h, key, metadata.shifts)
        decreases |chain| - q
      {
        if nodes[existing].key == key {
          BoundHere(existing, q);
          return;
        }
        StepPassed(existing, q, h, key);
        existing := NextElement(existing, q);
        q := q + 1;
      }
      SearchShowsAbsent(existing, q, h, key);
      existing := NIL;
    }

    lemma HeadOnly(r: nat, q: nat)
      requires Linked(nodes, chain) && At(r, q)
      ensures r == 0 <==> q == 0
    {
    }

    /** `remove` marks the node; `removeItemFromIndex` hands its slot to the next node of the
        bucket, or empties the slot. */
    method Remove(item: nat, ghost q: nat)
      requires Valid() && At(item, q) && q > 0 && !nodes[item].deleted
      modifies this`nodes, this`chain, this`numItems, metadata
      ensures Valid() && Map() == old(Map()) - {old(nodes[item].key)} && numItems == old(numItems) - 1
    {
      hide Linked, ListCells, ListOk, FirstLive, LiveCount, Contents, Filled, SlotBeforeMark;
      KeyHasHash(item, q);
      MarkMeans(nodes, chain, q, hasher, metadata.shifts);
      nodes := nodes[item := nodes[item].(deleted := true)];
      RemoveItemFromIndex(item, q);
    }

    method RemoveItemFromIndex(item: nat, ghost q: nat)
      requires ListInv() && At(item, q) && q > 0 && nodes[item].deleted && numItems == LiveCount(Cells()) + 1
      requires metadata.SizeOk() && metadata.count == Filled(metadata.index) && Sparse()
      requires forall b :: 0 <= b < |metadata.index| ==> metadata.index[b] == SlotBeforeMark(Cells(), q - 1, b, metadata.shifts)
      modifies this`nodes, this`chain, this`numItems, metadata
      ensures Valid() && Map() == old(Map()) && numItems == old(numItems) - 1
    {
      hide Linked, ListCells, ListOk, FirstLive, LiveCount, Contents, Filled, SlotBeforeMark, Shr;
      KeyHasHash(item, q);
      var index := Shr(nodes[item].keyHash, metadata.shifts);
      BucketInRange(nodes[item].keyHash, metadata.shifts, WORD_BITS);
      var next := NextInBucket(item, q);
      metadata.ReplaceItem(index, item, next);
      numItems := numItems - 1;
    }

    /** The next node if it is in the item's bucket, and what that makes of every slot. */
    method NextInBucket(item: nat, ghost q: nat) returns (next: int)
      requires ListInv() && At(item, q) && q > 0 && nodes[item].deleted
      modifies this`nodes, this`chain
      ensures ListInv() && SameMeaning()
      ensures forall b: nat {:trigger FirstLive(Cells(), b, metadata.shifts)} ::
                (FirstLive(Cells(), b, metadata.shifts)
                 == if (b == Shr(old(nodes[item].keyHash), metadata.shifts)
                        && SlotBeforeMark(old(Cells()), q - 1, b, metadata.shifts) == item)
                    then next else SlotBeforeMark(old(Cells()), q - 1, b, metadata.shifts))
    {
      hide Linked, ListCells, ListOk, FirstLive, LiveCount, Contents, SlotBeforeMark, Shr;
      next := NextElement(item, q);
      SlotsKeepBeforeMark(q);
      if next != NIL && Shr(nodes[next].keyHash, metadata.shifts) != Shr(nodes[item].keyHash, metadata.shifts) {
        next := NIL;
      }
      RemovedSlots(item, q, next);
    }

    /** Unlinking nodes behind a deleted one keeps what the slots held before it was marked. */
    twostate lemma SlotsKeepBeforeMark(q: nat)
      requires old(Linked(nodes, chain)) && Linked(nodes, chain) && SameMeaning()
      requires metadata == old(metadata) && 0 < q < |chain| <= old(|chain|) && Front(q + 1) == old(Front(q + 1))
      ensures forall b: nat {:trigger SlotBeforeMark(Cells(), q - 1, b, metadata.shifts)} ::
                SlotBeforeMark(Cells(), q - 1, b, metadata.shifts) == SlotBeforeMark(old(Cells()), q - 1, b, metadata.shifts)
    {
      hide Linked, FirstLive, Shr, Contents, LiveCount;
      assert Cells()[..q - 1] == Front(q + 1)[..q - 1] && old(Cells())[..q - 1] == old(Front(q + 1))[..q - 1];
      assert Cells()[q - 1] == Front(q + 1)[q - 1] && old(Cells())[q - 1] == old(Front(q + 1))[q - 1];
    }

    lemma RemovedSlots(item: nat, q: nat, next: int)
      requires ListInv() && At(item, q) && q > 0 && nodes[item].deleted
      requires q + 1 < |chain| ==> !nodes[chain[q + 1]].deleted
      requires next == if q + 1 < |chain| && (Shr(nodes[chain[q + 1]].keyHash, metadata.shifts)
                                              == Shr(nodes[item].keyHash, metadata.shifts)) then chain[q + 1] else NIL
      ensures forall b: nat {:trigger FirstLive(Cells(), b, metadata.shifts)} ::
                (FirstLive(Cells(), b, metadata.shifts)
                 == if (b == Shr(nodes[item].keyHash, metadata.shifts)
                        && SlotBeforeMark(Cells(), q - 1, b, metadata.shifts) == item)
                    then next else SlotBeforeMark(Cells(), q - 1, b, metadata.shifts))
    {
      hide ListOk, FirstLive, Shr, SlotBeforeMark;
      ListOkParts(Cells(), hasher, metadata.shifts);
      assert Cells()[q - 1] == CellOf(nodes, item);
      assert q + 1 < |chain| ==> Cells()[q] == CellOf(nodes, chain[q + 1]);
      forall b: nat
        ensures FirstLive(Cells(), b, metadata.shifts)
             == if (b == Shr(nodes[item].keyHash, metadata.shifts)
                    && SlotBeforeMark(Cells(), q - 1, b, metadata.shifts) == item)
                then next else SlotBeforeMark(Cells(), q - 1, b, metadata.shifts)
      {
        RemoveMovesSlot(Cells(), q - 1, b, metadata.shifts);
      }
    }

    /** `Del` of one key. */
    method Del(key: K)
      requires Valid()
      modifies this`nodes, this`chain, this`numItems, metadata
      ensures Valid() && Map() == old(Map()) - {key}
      ensures numItems == old(numItems) - if key in old(Map()) then 1 else 0
    {
      hide Linked, ListCells, ListOk, FirstLive, LiveCount, Contents, Filled, SlotsOk;
      var existing, q := Locate(key);
      if existing != NIL {
        Remove(existing, q);
      }
    }

    /** `GetAndDel`. */
    method GetAndDel(key: K) returns (value: Option<V>)
      requires Valid()
      modifies this`nodes, this`chain, this`numItems, metadata
      ensures Valid() && Map() == old(Map()) - {key}
      ensures value == if key in old(Map()) then Some(old(Map())[key]) else None
      ensures numItems == old(numItems) - if key in old(Map()) then 1 else 0
    {
      hide Linked, ListCells, ListOk, FirstLive, LiveCount, Contents, Filled, SlotsOk;
      var existing, q := Locate(key);
      if existing == NIL {
        return None;
      }
      BoundHere(existing, q);
      value := Some(nodes[existing].value);
      Remove(existing, q);
    }

    /** `New`: an empty map whose index is the default or the given size, rounded up. */
    constructor (hasher: K -> Word, zeroKey: K, zeroValue: V, size: nat)
      requires size <= MAX_SIZE && hasher(zeroKey) != 0
      ensures Valid() && Map() == map[] && numItems == 0 && fresh(metadata)
      ensures this.hasher == hasher && this.zeroKey == zeroKey && size <= |metadata.index|
    {
      hide Pow2, ResizeNeeded;
      Pow2Steps(0);
      this.hasher := hasher;
      this.zeroKey := zeroKey;
      nodes := [Node(0, zeroKey, zeroValue, NIL, false)];
      chain := [0];
      metadata := new Metadata(1, WORD_BITS);
      numItems := 0;
      new;
      DefaultFits();
      Grow(if size > 0 then size else DEFAULT_SIZE);
    }
  }

  lemma DefaultFits()
    ensures 0 < DEFAULT_SIZE <= MAX_SIZE && 0 < MAX_ITEMS
  {
    assert Pow2(3) == 8;
    Pow2Grows(3, WORD_BITS - 1);
  }

  lemma SizeFits(n: nat)
    requires Pow2(n) <= MAX_SIZE
    ensures n <= WORD_BITS
  {
    if n > WORD_BITS {
      Pow2Grows(WORD_BITS - 1, n);
    }
  }

  /** An index that is still too small for the items is far from the largest size. */
  lemma SmallIndexDoubles(length: nat, items: nat)
    requires length < 2 * items && items <= MAX_ITEMS
    ensures length * 2 <= MAX_SIZE
  {
    Pow2Grows(58, WORD_BITS - 1);
    assert Pow2(58) == 4 * MAX_ITEMS;
  }
}
