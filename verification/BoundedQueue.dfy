/** The bounded queues of `edge` and `experimental`: heaps that give up their first item when they grow too long. */
module BoundedQueues {
  import opened HeapOrder
  import opened PriorityQueues
  import opened TopK

  /** A queue with a negative size keeps nothing. */
  function Capacity(maxSize: int): nat {
    if maxSize < 0 then 0 else maxSize
  }

  /** `sort.Slice` on scores: some ordering of the same items. */
  method SortByScore<T>(items: seq<Item<T>>, descending: bool) returns (r: seq<Item<T>>)
    ensures SortedByScore(r, descending) && multiset(r) == multiset(items)
  {
    r := [];
    for i := 0 to |items|
      invariant SortedByScore(r, descending) && multiset(r) == multiset(items[..i])
    {
      assert items[..i + 1] == items[..i] + [items[i]];
      r := Insert(r, items[i], descending);
    }
    assert items[..|items|] == items;
  }

  method Insert<T>(s: seq<Item<T>>, x: Item<T>, descending: bool) returns (r: seq<Item<T>>)
    requires SortedByScore(s, descending)
    ensures SortedByScore(r, descending) && multiset(r) == multiset(s) + multiset{x}
  {
    var i := |s|;
    while i > 0 && Less(descending, x, s[i - 1])
      invariant 0 <= i <= |s| && (i < |s| ==> Less(descending, x, s[i]))
    {
      i := i - 1;
    }
    r := s[..i] + [x] + s[i..];
    InsertAdds(s, x, i);
    InsertSorted(s, x, i, r, descending);
  }

  /** `r` is `s` with `x` put in at position `i`. */
  ghost predicate InsertedAt<T>(s: seq<T>, x: T, i: nat, r: seq<T>) {
    i <= |s| && |r| == |s| + 1 && r[i] == x
    && (forall j :: 0 <= j < i ==> r[j] == s[j])
    && (forall j :: i < j < |r| ==> r[j] == s[j - 1])
  }

  lemma InsertSorted<T>(s: seq<Item<T>>, x: Item<T>, i: nat, r: seq<Item<T>>, descending: bool)
    requires SortedByScore(s, descending) && InsertedAt(s, x, i, r)
    requires i > 0 ==> !Less(descending, x, s[i - 1])
    requires i < |s| ==> Less(descending, x, s[i])
    ensures SortedByScore(r, descending)
  {
    forall j, k | 0 <= j < k < |r|
      ensures if descending then r[j].priority >= r[k].priority else r[j].priority <= r[k].priority
    {
      if j < i <= k {
        assert j < i - 1 ==> !Less(descending, s[i - 1], s[j]);
        assert k > i + 1 ==> !Less(descending, s[k - 1], s[i]);
      } else if j == i {
        assert k > i + 1 ==> !Less(descending, s[k - 1], s[i]);
      }
    }
  }

  lemma InsertAdds<T>(s: seq<T>, x: T, i: nat)
    requires i <= |s|
    ensures multiset(s[..i] + [x] + s[i..]) == multiset(s) + multiset{x} && InsertedAt(s, x, i, s[..i] + [x] + s[i..])
  {
    assert s == s[..i] + s[i..];
  }

  class BoundedQueue<T> {
    const queue: PriorityQueue<T>
    const maxSize: int
    const descending: bool

    ghost predicate Valid()
      reads this, queue, queue.buf
    {
      queue.Valid() && !queue.max
    }

    /** The queue holds the best of all the items that were added. */
    ghost predicate KeepsBestOf(all: multiset<Item<T>>)
      requires queue.Backed()
      reads this, queue, queue.buf
    {
      Kept(all, queue.Contents(), Capacity(maxSize), false)
    }

    constructor (maxSize: int, descending: bool)
      ensures Valid() && this.maxSize == maxSize && this.descending == descending && KeepsBestOf(multiset{})
      ensures fresh(queue) && fresh(queue.buf)
    {
      this.maxSize := maxSize;
      this.descending := descending;
      queue := new PriorityQueue<T>(false);
      new;
      KeptNone<T>(Capacity(maxSize), false);
    }

    /** `Add`. */
    method Add(x: Item<T>, ghost all: multiset<Item<T>>)
      requires Valid() && KeepsBestOf(all)
      modifies queue, queue.buf
      ensures Valid() && KeepsBestOf(all + multiset{x})
      ensures queue.buf == old(queue.buf) || fresh(queue.buf)
    {
      hide Kept, IsFirst, HeapOk;
      ghost var kept := queue.Contents();
      KeptSize(all, kept, Capacity(maxSize), false);
      queue.Push(x);
      ghost var r := x;
      if queue.len > maxSize {
        r := queue.Pop();
      }
      KeepOneMore(all, kept, Capacity(maxSize), false, x, r);
    }

    lemma KeptSize(all: multiset<Item<T>>, kept: multiset<Item<T>>, k: nat, max: bool)
      requires Kept(all, kept, k, max)
      ensures |kept| <= k
    {
    }

    /** `ToSlice`. */
    method ToSlice() returns (r: seq<Item<T>>)
      requires Valid()
      ensures multiset(r) == queue.Contents() && SortedByScore(r, descending)
    {
      r := SortByScore(queue.buf[..queue.len], descending);
    }
  }
}
