/** Binary heaps laid out in a sequence: the order, and what one sift step does to it. */
module HeapOrder {

  datatype Item<T> = Item(priority: real, value: T)

  /** `Less` of the two queue kinds. */
  predicate Less<T>(max: bool, a: Item<T>, b: Item<T>) {
    if max then a.priority > b.priority else a.priority < b.priority
  }

  function Parent(k: nat): nat
    requires k > 0
  {
    (k - 1) / 2
  }

  ghost predicate OrderedAt<T>(s: seq<Item<T>>, max: bool, k: nat)
    requires 0 < k < |s|
  {
    !Less(max, s[k], s[Parent(k)])
  }

  /** No item comes before its parent. */
  ghost predicate HeapOk<T>(s: seq<Item<T>>, max: bool) {
    forall k :: 0 < k < |s| ==> OrderedAt(s, max, k)
  }

  /** The root is as good as any item. */
  lemma {:induction false} RootIsFirst<T>(s: seq<Item<T>>, max: bool, k: nat)
    requires HeapOk(s, max) && k < |s|
    ensures !Less(max, s[k], s[0])
  {
    if k > 0 {
      assert OrderedAt(s, max, k);
      RootIsFirst(s, max, Parent(k));
    }
  }

  function Swapped<T>(s: seq<T>, i: nat, j: nat): seq<T>
    requires i < |s| && j < |s|
  {
    s[i := s[j]][j := s[i]]
  }

  lemma SwappedSame<T>(s: seq<T>, i: nat, j: nat)
    requires i < |s| && j < |s|
    ensures multiset(Swapped(s, i, j)) == multiset(s)
  {
  }

  // ---------- sifting up ----------

  /** Only the item at `j` may come before its parent; its children are fine under that parent. */
  ghost predicate UpOk<T>(s: seq<Item<T>>, max: bool, j: nat) {
    (forall k :: 0 < k < |s| && k != j ==> OrderedAt(s, max, k))
    && (forall k :: 0 < j < |s| && 0 < k < |s| && Parent(k) == j ==> !Less(max, s[k], s[Parent(j)]))
  }

  lemma UpStep<T>(s: seq<Item<T>>, max: bool, j: nat)
    requires UpOk(s, max, j) && 0 < j < |s| && Less(max, s[j], s[Parent(j)])
    ensures UpOk(Swapped(s, Parent(j), j), max, Parent(j))
  {
    var i, s' := Parent(j), Swapped(s, Parent(j), j);
    forall k | 0 < k < |s'| && k != i
      ensures OrderedAt(s', max, k)
    {
      if k != j {
        assert OrderedAt(s, max, k);
      }
    }
    forall k | 0 < i && 0 < k < |s'| && Parent(k) == i
      ensures !Less(max, s'[k], s'[Parent(i)])
    {
      assert OrderedAt(s, max, i);
      if k != j {
        assert OrderedAt(s, max, k);
      }
    }
  }

  lemma UpDone<T>(s: seq<Item<T>>, max: bool, j: nat)
    requires UpOk(s, max, j) && (0 < j < |s| ==> !Less(max, s[j], s[Parent(j)]))
    ensures HeapOk(s, max)
  {
  }

  lemma UpBegins<T>(s: seq<Item<T>>, max: bool, x: Item<T>)
    requires HeapOk(s, max)
    ensures UpOk(s + [x], max, |s|)
  {
    forall k | 0 < k < |s|
      ensures OrderedAt(s + [x], max, k)
    {
      assert OrderedAt(s, max, k);
    }
  }

  // ---------- sifting down ----------

  /** Items whose parent is at `from` or later are in order. */
  ghost predicate HeapFrom<T>(s: seq<Item<T>>, max: bool, from: nat) {
    forall k :: 0 < k < |s| && Parent(k) >= from ==> OrderedAt(s, max, k)
  }

  /** From `from` on only the children of `i` may come before it; they are fine under its parent. */
  ghost predicate DownOk<T>(s: seq<Item<T>>, max: bool, from: nat, i: nat) {
    (forall k :: 0 < k < |s| && Parent(k) >= from && Parent(k) != i ==> OrderedAt(s, max, k))
    && (forall k :: 0 < i < |s| && Parent(i) >= from && 0 < k < |s| && Parent(k) == i ==> !Less(max, s[k], s[Parent(i)]))
  }

  /** `j` is a child of `i` that no other child of `i` precedes. */
  ghost predicate BestChild<T>(s: seq<Item<T>>, max: bool, i: nat, j: nat) {
    0 < j < |s| && Parent(j) == i && forall k :: 0 < k < |s| && Parent(k) == i ==> !Less(max, s[k], s[j])
  }

  lemma DownStep<T>(s: seq<Item<T>>, max: bool, from: nat, i: nat, j: nat)
    requires DownOk(s, max, from, i) && from <= i < |s| && BestChild(s, max, i, j) && Less(max, s[j], s[i])
    ensures DownOk(Swapped(s, i, j), max, from, j)
  {
    var s' := Swapped(s, i, j);
    forall k | 0 < k < |s'| && Parent(k) >= from && Parent(k) != j
      ensures OrderedAt(s', max, k)
    {
      if Parent(k) != i && k != i {
        assert OrderedAt(s, max, k);
      }
    }
    forall k | 0 < k < |s'| && Parent(k) == j
      ensures !Less(max, s'[k], s'[Parent(j)])
    {
      assert OrderedAt(s, max, k);
    }
  }

  lemma DownDone<T>(s: seq<Item<T>>, max: bool, from: nat, i: nat)
    requires DownOk(s, max, from, i)
    requires forall k :: 0 < k < |s| && Parent(k) == i ==> !Less(max, s[k], s[i])
    ensures HeapFrom(s, max, from)
  {
    forall k | 0 < k < |s| && Parent(k) >= from
      ensures OrderedAt(s, max, k)
    {
      if Parent(k) != i {
        assert OrderedAt(s, max, k);
      }
    }
  }

  /** The children of `i` are `2i+1` and `2i+2`. */
  lemma Children(i: nat, k: nat)
    requires k > 0
    ensures Parent(k) == i <==> k == 2 * i + 1 || k == 2 * i + 2
  {
  }

  /** After its last item took the root's place, only the root is out of order. */
  lemma PopBegins<T>(s: seq<Item<T>>, max: bool)
    requires HeapOk(s, max) && s != []
    ensures var t := Swapped(s, 0, |s| - 1)[..|s| - 1];
            DownOk(t, max, 0, 0) && multiset(t) == multiset(s) - multiset{s[0]}
  {
    var n := |s| - 1;
    var t := Swapped(s, 0, n)[..n];
    forall k | 0 < k < |t| && Parent(k) != 0
      ensures OrderedAt(t, max, k)
    {
      assert OrderedAt(s, max, k);
    }
    SwappedSame(s, 0, n);
    assert Swapped(s, 0, n) == t + [s[0]];
  }
}
