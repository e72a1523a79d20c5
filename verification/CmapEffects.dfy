/** What each step on the linked nodes means for the map and for its index. */
module CmapEffects {
  import opened Words
  import opened CmapList
  import opened CmapArena
  import opened CmapIndex

  function HashAt<K, V>(nodes: seq<Node<K, V>>, r: int): nat {
    if 0 <= r < |nodes| then nodes[r].keyHash else 0
  }

  /** Nodes keep their hashes while others are added. */
  ghost predicate HashesKept<K, V>(nodes: seq<Node<K, V>>, nodes': seq<Node<K, V>>) {
    |nodes| <= |nodes'| && forall r :: 0 <= r < |nodes| ==> HashAt(nodes', r) == HashAt(nodes, r)
  }

  lemma SameHashes<K, V>(nodes: seq<Node<K, V>>, nodes': seq<Node<K, V>>)
    requires SameNodes(nodes, nodes')
    ensures |nodes| == |nodes'| && HashesKept(nodes, nodes') && forall r: int :: HashAt(nodes, r) == HashAt(nodes', r)
  {
    forall r: int
      ensures HashAt(nodes, r) == HashAt(nodes', r)
    {
      if 0 <= r < |nodes| {
        assert CellOf(nodes, r) == CellOf(nodes', r);
      }
    }
  }

  lemma RefsHaveHashes<K, V>(nodes: seq<Node<K, V>>, chain: seq<nat>, r: int)
    requires Linked(nodes, chain)
    ensures HashOfRef(ListCells(nodes, chain), r, HashAt(nodes, r))
    ensures forall j :: 0 <= j < |chain| - 1 ==> ListCells(nodes, chain)[j].ref >= 0
  {
    hide Linked, ListCells;
    HeadInArena(nodes, chain);
    var cells := ListCells(nodes, chain);
    assert forall i :: 0 <= i < |cells| ==> cells[i] == CellOf(nodes, chain[i + 1]);
  }

  /** Cutting out deleted nodes changes nothing the list means. */
  lemma CutMeans<K, V>(nodes: seq<Node<K, V>>, nodes': seq<Node<K, V>>, chain: seq<nat>, a: nat, b: nat, hasher: K -> Word, shifts: nat)
    requires Linked(nodes, chain) && 0 < a <= b <= |chain|
    requires SameNodes(nodes, nodes') && Linked(nodes', Cut(chain, a, b))
    requires forall i :: a <= i < b ==> nodes[chain[i]].deleted
    requires ListOk(ListCells(nodes, chain), hasher, shifts)
    ensures var cells, cells' := ListCells(nodes, chain), ListCells(nodes', Cut(chain, a, b));
            ListOk(cells', hasher, shifts)
            && Contents(cells') == Contents(cells) && LiveCount(cells') == LiveCount(cells)
            && (forall c: nat, s: nat :: FirstLive(cells', c, s) == FirstLive(cells, c, s))
            && cells'[..a - 1] == cells[..a - 1]
  {
    hide ListOk, FirstLive, LiveCount, Contents, Cut, Linked, ListCells;
    HeadInArena(nodes, chain);
    var cells := ListCells(nodes, chain);
    CutCells(nodes, nodes', chain, a, b);
    var front, dead, rest := cells[..a - 1], cells[a - 1..b - 1], cells[b - 1..];
    assert AllDeleted(dead) by {
      assert forall i :: a - 1 <= i < b - 1 ==> cells[i] == CellOf(nodes, chain[i + 1]);
    }
    UnlinkKeepsListOk(front, dead, rest, hasher, shifts);
    UnlinkKeepsMeaning(front, dead, rest, 0, 0);
    forall c: nat, s: nat
      ensures FirstLive(front + rest, c, s) == FirstLive(cells, c, s)
    {
      UnlinkKeepsMeaning(front, dead, rest, c, s);
    }
  }

  /** Linking a node in where a search for its key ended binds the key. */
  lemma InsertMeans<K, V>(nodes: seq<Node<K, V>>, chain: seq<nat>, q: nat, x: Node<K, V>, hasher: K -> Word, shifts: nat)
    requires Linked(nodes, chain) && 0 < q <= |chain| && x.next == RefAt(chain, q)
    requires !x.deleted && x.keyHash == hasher(x.key)
    requires ListOk(ListCells(nodes, chain), hasher, shifts)
    requires Passed(ListCells(nodes, chain)[..q - 1], x.keyHash, x.key, shifts)
    requires q < |chain| ==> !nodes[chain[q]].deleted && nodes[chain[q]].keyHash > x.keyHash
    ensures var nodes', chain' := InsertedNodes(nodes, chain[q - 1], x), InsertedChain(chain, q, |nodes|);
            Linked(nodes', chain')
            && var cells, cells' := ListCells(nodes, chain), ListCells(nodes', chain');
            ListOk(cells', hasher, shifts) && x.key !in Contents(cells)
            && Contents(cells') == Contents(cells)[x.key := x.value] && LiveCount(cells') == LiveCount(cells) + 1
            && (forall b: nat ::
                 FirstLive(cells', b, shifts)
                 == NewSlot(FirstLive(cells, b, shifts), HashAt(nodes, FirstLive(cells, b, shifts)), b, |nodes|, x.keyHash, shifts))
  {
    hide Linked, ListCells, ListOk, FirstLive, LiveCount, Contents, Passed, InsertedNodes, InsertedChain, NewSlot;
    HeadInArena(nodes, chain);
    var nodes', chain' := InsertedNodes(nodes, chain[q - 1], x), InsertedChain(chain, q, |nodes|);
    InsertedCell(nodes, chain[q - 1], x);
    InsertLinks(nodes, chain, q, x);
    InsertCells(nodes, chain, q, x);
    var cells := ListCells(nodes, chain);
    var a, z, c := cells[..q - 1], cells[q - 1..], CellOf(nodes', |nodes|);
    SortedBehind(nodes, chain, q, x.keyHash, hasher, shifts);
    assert cells == a + z;
    InsertKeepsListOk(a, c, z, hasher, shifts);
    assert forall i :: 0 <= i < |a| && !a[i].deleted ==> a[i].key != c.key by {
      PassedKeys(a, x.keyHash, x.key, shifts);
    }
    InsertAddsKey(a, c, z);
    AbsentBetween(cells, q - 1, x.keyHash, x.key, hasher, shifts);
    forall b: nat
      ensures FirstLive(a + [c] + z, b, shifts)
           == NewSlot(FirstLive(cells, b, shifts), HashAt(nodes, FirstLive(cells, b, shifts)), b, |nodes|, x.keyHash, shifts)
    {
      RefsHaveHashes(nodes, chain, FirstLive(cells, b, shifts));
      InsertMovesSlot(a, c, z, b, HashAt(nodes, FirstLive(cells, b, shifts)), shifts);
    }
  }

  lemma InsertedCell<K, V>(nodes: seq<Node<K, V>>, r: nat, x: Node<K, V>)
    requires r < |nodes|
    ensures var nodes' := InsertedNodes(nodes, r, x);
            |nodes'| == |nodes| + 1 && CellOf(nodes', |nodes|) == Cell(|nodes|, x.keyHash, x.key, x.value, x.deleted)
  {
  }

  lemma InsertedHashes<K, V>(nodes: seq<Node<K, V>>, r: nat, x: Node<K, V>)
    requires r < |nodes|
    ensures HashesKept(nodes, InsertedNodes(nodes, r, x))
  {
  }

  lemma PassedKeys<K, V>(front: seq<Cell<K, V>>, h: nat, key: K, shifts: nat)
    requires Passed(front, h, key, shifts)
    ensures forall i :: 0 <= i < |front| && !front[i].deleted ==> front[i].key != key
  {
  }

  lemma AbsentBetween<K, V>(cells: seq<Cell<K, V>>, n: nat, h: nat, key: K, hasher: K -> Word, shifts: nat)
    requires ListOk(cells, hasher, shifts) && h == hasher(key) && n <= |cells|
    requires Passed(cells[..n], h, key, shifts) && (n < |cells| ==> cells[n].keyHash > h)
    ensures key !in Contents(cells)
  {
    NotPresent(cells, n, h, key, hasher, shifts);
  }

  lemma SortedBehind<K, V>(nodes: seq<Node<K, V>>, chain: seq<nat>, q: nat, h: nat, hasher: K -> Word, shifts: nat)
    requires Linked(nodes, chain) && 0 < q <= |chain| && ListOk(ListCells(nodes, chain), hasher, shifts)
    requires q < |chain| ==> !nodes[chain[q]].deleted && nodes[chain[q]].keyHash > h
    ensures var z := ListCells(nodes, chain)[q - 1..];
            (forall i :: 0 <= i < |z| ==> z[i].keyHash > h) && (z != [] ==> !z[0].deleted)
  {
    hide Linked, ListCells, Hashed, DistinctLiveKeys, StaleBehindIndex;
    HeadInArena(nodes, chain);
    var cells := ListCells(nodes, chain);
    if q < |chain| {
      assert cells[q - 1] == CellOf(nodes, chain[q]);
    }
  }

  /** Storing to a live node rebinds its key and leaves every slot as it is. */
  lemma StoreMeans<K, V>(nodes: seq<Node<K, V>>, chain: seq<nat>, q: nat, v: V, hasher: K -> Word, shifts: nat)
    requires Linked(nodes, chain) && 0 < q < |chain| && !nodes[chain[q]].deleted
    requires ListOk(ListCells(nodes, chain), hasher, shifts)
    ensures var r := chain[q];
            var nodes' := nodes[r := nodes[r].(value := v)];
            Linked(nodes', chain)
            && var cells, cells' := ListCells(nodes, chain), ListCells(nodes', chain);
            ListOk(cells', hasher, shifts) && nodes[r].key in Contents(cells)
            && Contents(cells)[nodes[r].key] == nodes[r].value
            && Contents(cells') == Contents(cells)[nodes[r].key := v] && LiveCount(cells') == LiveCount(cells)
            && (forall b: nat ::
                 var slot := FirstLive(cells, b, shifts);
                 FirstLive(cells', b, shifts) == slot
                 && NewSlot(slot, HashAt(nodes, slot), b, r, nodes[r].keyHash, shifts) == slot)
  {
    hide Linked, ListCells, ListOk, FirstLive, LiveCount, Contents, NewSlot;
    HeadInArena(nodes, chain);
    var r := chain[q];
    var nodes' := nodes[r := nodes[r].(value := v)];
    UpdateLinks(nodes, chain, q, nodes'[r]);
    var cells, cells' := ListCells(nodes, chain), ListCells(nodes', chain);
    assert cells[q - 1] == CellOf(nodes, r);
    assert cells' == WithValue(cells, q - 1, v);
    StoreKeepsListOk(cells, q - 1, v, hasher, shifts);
    ListOkParts(cells, hasher, shifts);
    StoreRebindsKey(cells, q - 1, v);
    ContentsAt(cells, q - 1);
    StoreKeepsShape(cells, q - 1, v, 0, 0);
    forall b: nat
      ensures var slot := FirstLive(cells, b, shifts);
              FirstLive(cells', b, shifts) == slot && NewSlot(slot, HashAt(nodes, slot), b, r, nodes[r].keyHash, shifts) == slot
    {
      StoreKeepsShape(cells, q - 1, v, b, shifts);
      RefsHaveHashes(nodes, chain, FirstLive(cells, b, shifts));
      StoreKeepsSlot(cells, q - 1, b, HashAt(nodes, FirstLive(cells, b, shifts)), shifts);
    }
  }

  lemma ListOkParts<K, V>(cells: seq<Cell<K, V>>, hasher: K -> Word, shifts: nat)
    requires ListOk(cells, hasher, shifts)
    ensures Sorted(cells) && DistinctLiveKeys(cells) && Hashed(cells, hasher)
  {
  }

  /** Marking a live node unbinds its key. */
  lemma MarkMeans<K, V>(nodes: seq<Node<K, V>>, chain: seq<nat>, q: nat, hasher: K -> Word, shifts: nat)
    requires Linked(nodes, chain) && 0 < q < |chain| && !nodes[chain[q]].deleted
    requires ListOk(ListCells(nodes, chain), hasher, shifts)
    ensures var r := chain[q];
            var nodes' := nodes[r := nodes[r].(deleted := true)];
            Linked(nodes', chain)
            && var cells, cells' := ListCells(nodes, chain), ListCells(nodes', chain);
            ListOk(cells', hasher, shifts) && nodes[r].key in Contents(cells)
            && Contents(cells)[nodes[r].key] == nodes[r].value
            && Contents(cells') == Contents(cells) - {nodes[r].key} && LiveCount(cells') == LiveCount(cells) - 1
            && (forall b: nat :: FirstLive(cells, b, shifts) == SlotBeforeMark(cells', q - 1, b, shifts))
  {
    hide Linked, ListCells, ListOk, FirstLive, LiveCount, Contents, SlotBeforeMark;
    HeadInArena(nodes, chain);
    var r := chain[q];
    var nodes' := nodes[r := nodes[r].(deleted := true)];
    UpdateLinks(nodes, chain, q, nodes'[r]);
    var cells, cells' := ListCells(nodes, chain), ListCells(nodes', chain);
    assert cells[q - 1] == CellOf(nodes, r);
    assert cells' == Marked(cells, q - 1);
    MarkKeepsListOk(cells, q - 1, hasher, shifts);
    ListOkParts(cells, hasher, shifts);
    MarkRemovesKey(cells, q - 1);
    ContentsAt(cells, q - 1);
    forall b: nat
      ensures FirstLive(cells, b, shifts) == SlotBeforeMark(cells', q - 1, b, shifts)
    {
      MarkLeavesSlot(cells, q - 1, b, shifts);
    }
  }

  lemma SlotsInArena<K, V>(nodes: seq<Node<K, V>>, chain: seq<nat>, index: seq<int>, shifts: nat, n: nat)
    requires Linked(nodes, chain) && n < |chain| && SlotsOk(index, ListCells(nodes, chain)[..n], shifts)
    ensures forall b :: 0 <= b < |index| ==> index[b] == NIL || 0 <= index[b] < |nodes|
  {
    hide FirstLive, Shr;
    forall b | 0 <= b < |index| && index[b] != NIL
      ensures 0 <= index[b] < |nodes|
    {
      var p := FirstLivePosition(ListCells(nodes, chain)[..n], b, shifts);
    }
  }

  // ---------- walks along raw `next` fields ----------

  /** No live cell at positions `p .. q` holds the key; with `strict`, no deleted one either. */
  ghost predicate NotMet<K, V>(cells: seq<Cell<K, V>>, p: nat, q: nat, key: K, strict: bool) {
    p <= q <= |cells| && forall i :: p <= i < q && (strict || !cells[i].deleted) ==> cells[i].key != key
  }

  lemma AbsentHash<K, V>(cells: seq<Cell<K, V>>, h: nat, key: K, hasher: K -> Word)
    requires Hashed(cells, hasher) && h == hasher(key) && NoLiveHash(cells, h)
    ensures key !in Contents(cells)
  {
    hide Contents;
    ContentsHas(cells, key);
  }

  /** A walk from an allowed start that passed the hash without meeting the key shows it absent. */
  lemma WalkEnds<K, V>(cells: seq<Cell<K, V>>, p: nat, q: nat, h: nat, key: K, strict: bool, hasher: K -> Word, shifts: nat)
    requires ListOk(cells, hasher, shifts) && h == hasher(key)
    requires StartOk(cells, p, h, shifts) && NotMet(cells, p, q, key, strict) && (q < |cells| ==> cells[q].keyHash > h)
    ensures key !in Contents(cells)
  {
    hide Contents, StaleBehindIndex, Shr, Pow2;
    ContentsHas(cells, key);
  }

  /** Meeting a deleted cell of the key first also shows it absent. */
  lemma WalkMeetsDeleted<K, V>(cells: seq<Cell<K, V>>, p: nat, q: nat, h: nat, key: K, hasher: K -> Word, shifts: nat)
    requires ListOk(cells, hasher, shifts) && h == hasher(key)
    requires StartOk(cells, p, h, shifts) && NotMet(cells, p, q, key, true)
    requires q < |cells| && cells[q].deleted && cells[q].key == key && !cells[p].deleted
    requires Shr(cells[p].keyHash, shifts) == Shr(h, shifts) || NoLiveHash(cells, h)
    ensures key !in Contents(cells)
  {
    hide Contents, StaleBehindIndex, Shr, Pow2, Sorted;
    ContentsHas(cells, key);
    forall j | 0 <= j < |cells| && !cells[j].deleted && cells[j].key == key
      ensures false
    {
      assert cells[j].keyHash == h;
      assert p <= j && q < j;
      WalkMeetsLiveFirst(cells, p, q, j, hasher, shifts);
    }
  }

  // ---------- filling a new index ----------

  lemma FillAdded<K, V>(nodes: seq<Node<K, V>>, front: seq<Cell<K, V>>, c: Cell<K, V>, index: seq<int>, index': seq<int>, shifts: nat)
    requires !c.deleted && SlotsOk(index, front, shifts) && |index'| == |index|
    requires forall i :: 0 <= i < |front| ==> front[i].keyHash <= c.keyHash && front[i].keyHash == HashAt(nodes, front[i].ref)
    requires forall b :: 0 <= b < |index| ==> index'[b] == NewSlot(index[b], HashAt(nodes, index[b]), b, c.ref, c.keyHash, shifts)
    ensures SlotsOk(index', front + [c], shifts)
  {
    hide FirstLive, Shr;
    forall b | 0 <= b < |index|
      ensures index'[b] == FirstLive(front + [c], b, shifts)
    {
      FillOneMore(front, c, b, shifts);
      if b == Shr(c.keyHash, shifts) {
        FillBucketTaken(front, c, HashAt(nodes, index[b]), shifts);
      }
    }
  }

  lemma FillSkipped<K, V>(front: seq<Cell<K, V>>, c: Cell<K, V>, index: seq<int>, shifts: nat)
    requires !c.deleted && SlotsOk(index, front, shifts) && front != [] && AllLive(front)
    requires Shr(front[|front| - 1].keyHash, shifts) == Shr(c.keyHash, shifts)
    ensures SlotsOk(index, front + [c], shifts)
  {
    hide FirstLive, Shr;
    FillSameBucket(front, c, shifts);
    forall b | 0 <= b < |index|
      ensures index[b] == FirstLive(front + [c], b, shifts)
    {
      FillOneMore(front, c, b, shifts);
    }
  }

  lemma {:induction false} SlotsOfNone<K, V>(index: seq<int>, shifts: nat)
    requires forall b :: 0 <= b < |index| ==> index[b] == NIL
    ensures SlotsOk<K, V>(index, [], shifts)
  {
  }
}
