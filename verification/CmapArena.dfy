/** The linked nodes of the concurrent map: an arena whose `next` fields chain nodes from the list head. */
module CmapArena {
  import opened CmapList

  /** A node; `next` is the reference of another node or NIL. */
  datatype Node<K, V> = Node(keyHash: nat, key: K, value: V, next: int, deleted: bool)

  function CellOf<K, V>(nodes: seq<Node<K, V>>, r: nat): Cell<K, V>
    requires r < |nodes|
  {
    Cell(r, nodes[r].keyHash, nodes[r].key, nodes[r].value, nodes[r].deleted)
  }

  ghost predicate InArena<K, V>(nodes: seq<Node<K, V>>, refs: seq<nat>) {
    forall i :: 0 <= i < |refs| ==> refs[i] < |nodes|
  }

  ghost function CellsOf<K, V>(nodes: seq<Node<K, V>>, refs: seq<nat>): (cells: seq<Cell<K, V>>)
    requires InArena(nodes, refs)
    ensures |cells| == |refs|
  {
    seq(|refs|, i requires 0 <= i < |refs| => CellOf(nodes, refs[i]))
  }

  function RefAt(chain: seq<nat>, i: nat): int {
    if i < |chain| then chain[i] else NIL
  }

  /** The references of `chain` are the nodes reached from the head (reference 0) by `next`. */
  ghost predicate Linked<K, V>(nodes: seq<Node<K, V>>, chain: seq<nat>) {
    chain != [] && chain[0] == 0 && InArena(nodes, chain)
    && (forall i, j :: 0 <= i < j < |chain| ==> chain[i] != chain[j])
    && (forall i :: 0 <= i < |chain| ==> LinkAt(nodes, chain, i))
  }

  ghost predicate LinkAt<K, V>(nodes: seq<Node<K, V>>, chain: seq<nat>, i: nat)
    requires i < |chain| && chain[i] < |nodes|
  {
    nodes[chain[i]].next == RefAt(chain, i + 1)
  }

  /** The cells behind the head. */
  ghost function ListCells<K, V>(nodes: seq<Node<K, V>>, chain: seq<nat>): (cells: seq<Cell<K, V>>)
    requires Linked(nodes, chain)
    ensures |cells| == |chain| - 1
    ensures forall i :: 0 <= i < |cells| ==> cells[i] == CellOf(nodes, chain[i + 1])
  {
    CellsOf(nodes, chain[1..])
  }

  /** Two arenas that differ only in `next` fields. */
  ghost predicate SameNodes<K, V>(a: seq<Node<K, V>>, b: seq<Node<K, V>>) {
    |a| == |b| && forall r :: 0 <= r < |a| ==> CellOf(a, r) == CellOf(b, r)
  }

  /** The first position from `q` on that is live, or the end. */
  ghost function SkipDeleted<K, V>(nodes: seq<Node<K, V>>, chain: seq<nat>, q: nat): (r: nat)
    requires InArena(nodes, chain) && q <= |chain|
    ensures q <= r <= |chain|
    ensures forall i :: q <= i < r ==> nodes[chain[i]].deleted
    ensures r < |chain| ==> !nodes[chain[r]].deleted
    decreases |chain| - q
  {
    if q < |chain| && nodes[chain[q]].deleted then SkipDeleted(nodes, chain, q + 1) else q
  }

  function Cut(chain: seq<nat>, a: nat, b: nat): seq<nat>
    requires a <= b <= |chain|
  {
    chain[..a] + chain[b..]
  }

  lemma SkipStep<K, V>(nodes: seq<Node<K, V>>, chain: seq<nat>, q: nat)
    requires InArena(nodes, chain) && q <= |chain|
    ensures SkipDeleted(nodes, chain, q)
         == if q < |chain| && nodes[chain[q]].deleted then SkipDeleted(nodes, chain, q + 1) else q
  {
  }

  lemma CutFacts(chain: seq<nat>, a: nat, b: nat)
    requires a <= b <= |chain|
    ensures Cut(chain, a, a) == chain
    ensures |Cut(chain, a, b)| == |chain| - (b - a)
    ensures forall i :: 0 <= i < a ==> Cut(chain, a, b)[i] == chain[i]
    ensures 0 < a < b ==> Cut(Cut(chain, a + 1, b), a, a + 1) == Cut(chain, a, b)
    ensures RefAt(Cut(chain, a, b), a) == RefAt(chain, b)
  {
    assert Cut(chain, a, a) == chain;
  }

  /** Pointing the node before position `a` at position `b` cuts out what lies between. */
  lemma CutLinks<K, V>(nodes: seq<Node<K, V>>, chain: seq<nat>, a: nat, b: nat)
    requires Linked(nodes, chain) && 0 < a <= b <= |chain|
    ensures var nodes' := nodes[chain[a - 1] := nodes[chain[a - 1]].(next := RefAt(chain, b))];
            Linked(nodes', Cut(chain, a, b)) && SameNodes(nodes, nodes')
  {
    var r := chain[a - 1];
    var nodes' := nodes[r := nodes[r].(next := RefAt(chain, b))];
    var cut := Cut(chain, a, b);
    assert forall i :: 0 <= i < a ==> cut[i] == chain[i];
    assert forall i :: a <= i < |cut| ==> cut[i] == chain[i + (b - a)];
    forall i | 0 <= i < |cut|
      ensures LinkAt(nodes', cut, i)
    {
      if i >= a {
        assert cut[i] == chain[i + (b - a)] != chain[a - 1];
        assert LinkAt(nodes, chain, i + (b - a));
      } else if i < a - 1 {
        assert cut[i] != chain[a - 1];
        assert LinkAt(nodes, chain, i);
      }
    }
  }

  /** The cells of a cut chain. */
  lemma CutCells<K, V>(nodes: seq<Node<K, V>>, nodes': seq<Node<K, V>>, chain: seq<nat>, a: nat, b: nat)
    requires Linked(nodes, chain) && 0 < a <= b <= |chain|
    requires SameNodes(nodes, nodes') && Linked(nodes', Cut(chain, a, b))
    ensures var cells := ListCells(nodes, chain);
            cells == cells[..a - 1] + cells[a - 1..b - 1] + cells[b - 1..]
            && ListCells(nodes', Cut(chain, a, b)) == cells[..a - 1] + cells[b - 1..]
  {
    var cells, cut := ListCells(nodes, chain), Cut(chain, a, b);
    var cells' := ListCells(nodes', cut);
    assert forall i :: 0 <= i < a ==> cut[i] == chain[i];
    assert forall i :: a <= i < |cut| ==> cut[i] == chain[i + (b - a)];
    forall i | 0 <= i < |cells'|
      ensures cells'[i] == (cells[..a - 1] + cells[b - 1..])[i]
    {
      assert cells'[i] == CellOf(nodes', cut[i + 1]) == CellOf(nodes, cut[i + 1]);
    }
  }

  lemma HeadInArena<K, V>(nodes: seq<Node<K, V>>, chain: seq<nat>)
    requires Linked(nodes, chain)
    ensures 0 < |nodes| && InArena(nodes, chain)
  {
  }

  /** A fresh node linked in at position `a` of the chain. */
  function InsertedNodes<K, V>(nodes: seq<Node<K, V>>, r: nat, x: Node<K, V>): seq<Node<K, V>>
    requires r < |nodes|
  {
    (nodes + [x])[r := nodes[r].(next := |nodes|)]
  }

  function InsertedChain(chain: seq<nat>, a: nat, n: nat): seq<nat>
    requires a <= |chain|
  {
    chain[..a] + [n] + chain[a..]
  }

  lemma InsertedPositions(chain: seq<nat>, a: nat, n: nat)
    requires a <= |chain|
    ensures var chain' := InsertedChain(chain, a, n);
            |chain'| == |chain| + 1 && chain'[a] == n
            && (forall i :: 0 <= i < a ==> chain'[i] == chain[i])
            && (forall i :: a < i < |chain'| ==> chain'[i] == chain[i - 1])
  {
  }

  lemma InsertLinks<K, V>(nodes: seq<Node<K, V>>, chain: seq<nat>, a: nat, x: Node<K, V>)
    requires Linked(nodes, chain) && 0 < a <= |chain| && x.next == RefAt(chain, a)
    ensures Linked(InsertedNodes(nodes, chain[a - 1], x), InsertedChain(chain, a, |nodes|))
  {
    var nodes', chain' := InsertedNodes(nodes, chain[a - 1], x), InsertedChain(chain, a, |nodes|);
    InsertedPositions(chain, a, |nodes|);
    hide InsertedChain;
    forall i, j | 0 <= i < j < |chain'|
      ensures chain'[i] != chain'[j]
    {
    }
    forall i | 0 <= i < |chain'|
      ensures LinkAt(nodes', chain', i)
    {
      if i < a - 1 {
        assert chain'[i] != chain[a - 1];
        assert LinkAt(nodes, chain, i);
      } else if i > a {
        assert chain'[i] == chain[i - 1] != chain[a - 1];
        assert LinkAt(nodes, chain, i - 1);
      }
    }
  }

  lemma InsertedElsewhere<K, V>(nodes: seq<Node<K, V>>, r: nat, x: Node<K, V>)
    requires r < |nodes|
    ensures var nodes' := InsertedNodes(nodes, r, x);
            |nodes'| == |nodes| + 1 && forall k :: 0 <= k < |nodes| ==> CellOf(nodes', k) == CellOf(nodes, k)
  {
  }

  lemma InsertCells<K, V>(nodes: seq<Node<K, V>>, chain: seq<nat>, a: nat, x: Node<K, V>)
    requires Linked(nodes, chain) && 0 < a <= |chain|
    requires Linked(InsertedNodes(nodes, chain[a - 1], x), InsertedChain(chain, a, |nodes|))
    ensures var nodes', chain' := InsertedNodes(nodes, chain[a - 1], x), InsertedChain(chain, a, |nodes|);
            (ListCells(nodes', chain')
             == ListCells(nodes, chain)[..a - 1] + [CellOf(nodes', |nodes|)] + ListCells(nodes, chain)[a - 1..])
  {
    var nodes', chain' := InsertedNodes(nodes, chain[a - 1], x), InsertedChain(chain, a, |nodes|);
    InsertedPositions(chain, a, |nodes|);
    InsertedElsewhere(nodes, chain[a - 1], x);
    hide InsertedChain, InsertedNodes, Linked, CellOf;
    var cells, cells' := ListCells(nodes, chain), ListCells(nodes', chain');
    var expected := cells[..a - 1] + [CellOf(nodes', |nodes|)] + cells[a - 1..];
    forall i | 0 <= i < |cells'|
      ensures cells'[i] == expected[i]
    {
      assert cells'[i] == CellOf(nodes', chain'[i + 1]);
      if i < a - 1 {
        assert cells[i] == CellOf(nodes, chain[i + 1]);
      } else if i > a - 1 {
        assert cells[i - 1] == CellOf(nodes, chain[i]);
      }
    }
  }

  /** Changing one chained node but not its `next` changes one cell. */
  lemma UpdateLinks<K, V>(nodes: seq<Node<K, V>>, chain: seq<nat>, p: nat, x: Node<K, V>)
    requires Linked(nodes, chain) && 0 < p < |chain| && x.next == nodes[chain[p]].next
    ensures var nodes' := nodes[chain[p] := x];
            Linked(nodes', chain)
            && ListCells(nodes', chain) == ListCells(nodes, chain)[p - 1 := CellOf(nodes', chain[p])]
  {
    var nodes' := nodes[chain[p] := x];
    forall i | 0 <= i < |chain|
      ensures LinkAt(nodes', chain, i)
    {
      assert LinkAt(nodes, chain, i);
    }
    var cells, cells' := ListCells(nodes, chain), ListCells(nodes', chain);
    forall i | 0 <= i < |cells'|
      ensures cells'[i] == cells[p - 1 := CellOf(nodes', chain[p])][i]
    {
      if i != p - 1 {
        assert chain[i + 1] != chain[p];
      }
    }
  }
}
