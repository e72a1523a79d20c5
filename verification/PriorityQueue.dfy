/** The priority queue over `container/heap`: a slice of an array, sifted in place; `Reverse` shares the array. */
module PriorityQueues {
  import opened HeapOrder

  /** No item of the queue goes before `r`. */
  ghost predicate IsFirst<T>(items: multiset<Item<T>>, max: bool, r: Item<T>) {
    r in items && forall x :: x in items ==> !Less(max, x, r)
  }

  class PriorityQueue<T> {
    const max: bool
    var buf: array<Item<T>>
    var len: nat

    ghost predicate Backed()
      reads this
    {
      len <= buf.Length
    }

    ghost function Items(): seq<Item<T>>
      requires Backed()
      reads this, buf
    {
      buf[..len]
    }

    ghost function Contents(): multiset<Item<T>>
      requires Backed()
      reads this, buf
    {
      multiset(Items())
    }

    ghost predicate Valid()
      reads this, buf
    {
      Backed() && HeapOk(Items(), max)
    }

    constructor (max: bool)
      ensures Valid() && Contents() == multiset{} && this.max == max && fresh(buf)
    {
      this.max := max;
      buf := new Item<T>[0];
      len := 0;
    }

    /** The slice conversion of `Reverse`: another header over the same array. */
    constructor Over(buf: array<Item<T>>, len: nat, max: bool)
      ensures this.buf == buf && this.len == len && this.max == max
    {
      this.max := max;
      this.buf := buf;
      this.len := len;
    }

    /** The array is untouched from position `n` on. */
    twostate predicate Beyond(n: nat)
      requires buf == old(buf)
      reads this, buf
    {
      forall k :: n <= k < buf.Length ==> buf[k] == old(buf[k])
    }

    // ---------- container/heap ----------

    method Swap(i: nat, j: nat, ghost n: nat)
      requires i < n && j < n && n <= buf.Length
      modifies buf
      ensures buf[..n] == Swapped(old(buf[..n]), i, j) && Beyond(n)
      ensures multiset(buf[..n]) == multiset(old(buf[..n]))
    {
      SwappedSame(buf[..n], i, j);
      buf[i], buf[j] := buf[j], buf[i];
      assert buf[..n] == Swapped(old(buf[..n]), i, j);
    }

    method Up(j0: nat)
      requires Backed() && j0 < len && UpOk(Items(), max, j0)
      modifies buf
      ensures Valid() && Contents() == old(Contents()) && Beyond(len)
    {
      hide UpOk, HeapOk, Swapped;
      var j := j0;
      while j > 0 && Less(max, buf[j], buf[Parent(j)])
        invariant 0 <= j < len && UpOk(Items(), max, j)
        invariant Contents() == old(Contents()) && Beyond(len)
      {
        UpStep(Items(), max, j);
        Swap(Parent(j), j, len);
        j := Parent(j);
      }
      UpDone(Items(), max, j);
    }

    method Down(i0: nat, n: nat)
      requires i0 < n <= buf.Length && DownOk(buf[..n], max, i0, i0)
      modifies buf
      ensures HeapFrom(buf[..n], max, i0)
      ensures multiset(buf[..n]) == multiset(old(buf[..n])) && Beyond(n)
    {
      hide DownOk, HeapFrom, Swapped;
      var i := i0;
      while true
        invariant i0 <= i < n && DownOk(buf[..n], max, i0, i)
        invariant multiset(buf[..n]) == multiset(old(buf[..n])) && Beyond(n)
        decreases n - i
      {
        var j := 2 * i + 1;
        if j >= n {
          NoChildren(i, n);
          DownDone(buf[..n], max, i0, i);
          return;
        }
        if j + 1 < n && Less(max, buf[j + 1], buf[j]) {
          j := j + 1;
        }
        BetterChild(i, j, n);
        if !Less(max, buf[j], buf[i]) {
          DownDone(buf[..n], max, i0, i);
          return;
        }
        DownStep(buf[..n], max, i0, i, j);
        Swap(i, j, n);
        i := j;
      }
    }

    lemma NoChildren(i: nat, n: nat)
      requires n <= 2 * i + 1
      ensures forall k :: 0 < k < n ==> Parent(k) != i
    {
    }

    /** The child chosen by `down`. */
    lemma BetterChild(i: nat, j: nat, n: nat)
      requires i < n <= buf.Length && j < n && (j == 2 * i + 1 || j == 2 * i + 2)
      requires j == 2 * i + 1 ==> j + 1 == n || !Less(max, buf[j + 1], buf[j])
      requires j == 2 * i + 2 ==> Less(max, buf[j], buf[j - 1])
      ensures BestChild(buf[..n], max, i, j)
      ensures !Less(max, buf[j], buf[i]) ==> forall k :: 0 < k < n && Parent(k) == i ==> !Less(max, buf[..n][k], buf[..n][i])
    {
      forall k | 0 < k < n && Parent(k) == i
        ensures k == 2 * i + 1 || k == 2 * i + 2
      {
        Children(i, k);
      }
    }

    /** `heap.Init`: make a heap of whatever the slice holds. */
    method Init()
      requires Backed()
      modifies buf
      ensures Valid() && Contents() == old(Contents()) && Beyond(len)
    {
      hide HeapFrom, DownOk, HeapOk;
      var i := len / 2;
      InitBegins(Items(), max, i);
      while i > 0
        invariant 0 <= i <= len && HeapFrom(Items(), max, i)
        invariant Contents() == old(Contents()) && Beyond(len)
      {
        i := i - 1;
        InitStep(Items(), max, i);
        Down(i, len);
      }
      InitDone(Items(), max);
    }

    /** `append`, then `up`; a full array is replaced by a larger one. */
    method Push(x: Item<T>)
      requires Valid()
      modifies this, buf
      ensures Valid() && Contents() == old(Contents()) + multiset{x} && len == old(len) + 1
      ensures buf == old(buf) || fresh(buf)
    {
      UpBegins(Items(), max, x);
      if len == buf.Length {
        var b := buf;
        buf := new Item<T>[2 * len + 1](i requires 0 <= i reads this, b => if i < b.Length then b[i] else x);
      } else {
        buf[len] := x;
      }
      len := len + 1;
      assert Items() == old(Items()) + [x];
      Up(len - 1);
    }

    /** `Pop`: the last item moves to the root and down; the old root is cut off. */
    method Pop() returns (r: Item<T>)
      requires Valid() && len > 0
      modifies this`len, buf
      ensures Valid() && IsFirst(old(Contents()), max, r)
      ensures Contents() == old(Contents()) - multiset{r} && len == old(len) - 1
    {
      hide HeapOk, IsFirst;
      RootToEnd();
      r := buf[len - 1];
      len := len - 1;
    }

    /** `heap.Pop` before the slice is cut: the root is last, the rest is a heap again. */
    method RootToEnd()
      requires Valid() && len > 0
      modifies buf
      ensures HeapOk(buf[..len - 1], max) && IsFirst(old(Contents()), max, buf[len - 1])
      ensures multiset(buf[..len - 1]) == old(Contents()) - multiset{buf[len - 1]}
    {
      hide HeapOk, DownOk, HeapFrom, Swapped, Less, IsFirst;
      var n := len - 1;
      ghost var items := Items();
      PopBegins(items, max);
      RootFirst(items, max);
      SwappedEnds(items, n);
      Swap(0, n, len);
      assert buf[..n] == buf[..len][..n] == Swapped(items, 0, n)[..n];
      assert buf[n] == buf[..len][n] == items[0];
      SiftRoot(n);
    }

    /** The part of `Pop` below the root. */
    method SiftRoot(n: nat)
      requires n <= buf.Length && DownOk(buf[..n], max, 0, 0)
      modifies buf
      ensures HeapOk(buf[..n], max) && multiset(buf[..n]) == multiset(old(buf[..n])) && Beyond(n)
    {
      hide HeapOk, DownOk, HeapFrom;
      if n > 0 {
        Down(0, n);
        InitDone(buf[..n], max);
      } else {
        SmallHeap(buf[..n], max);
      }
    }

    /** `Peek`. */
    method Peek() returns (r: Item<T>)
      requires Valid() && len > 0
      ensures IsFirst(Contents(), max, r)
    {
      RootFirst(Items(), max);
      return buf[0];
    }

    /** `Reverse`: a queue of the other kind with the same items. It shares the array, so this
        queue keeps its items but not their order. */
    method Reverse() returns (q: PriorityQueue<T>)
      requires Backed()
      modifies buf
      ensures fresh(q) && q.Valid() && q.max == !max && q.buf == buf && q.len == len
      ensures q.Contents() == Contents() == old(Contents())
    {
      q := new PriorityQueue<T>.Over(buf, len, !max);
      q.Init();
    }
  }

  // ---------- sequence facts for the methods above ----------

  lemma RootFirst<T>(s: seq<Item<T>>, max: bool)
    requires HeapOk(s, max) && s != []
    ensures IsFirst(multiset(s), max, s[0])
  {
    forall k | 0 <= k < |s|
      ensures !Less(max, s[k], s[0])
    {
      RootIsFirst(s, max, k);
    }
    forall x | x in multiset(s)
      ensures !Less(max, x, s[0])
    {
      assert x in s;
    }
  }

  lemma SwappedEnds<T>(s: seq<T>, n: nat)
    requires |s| == n + 1
    ensures Swapped(s, 0, n)[n] == s[0]
  {
  }

  lemma SmallHeap<T>(s: seq<Item<T>>, max: bool)
    requires |s| <= 1
    ensures HeapOk(s, max)
  {
  }

  lemma InitBegins<T>(s: seq<Item<T>>, max: bool, i: nat)
    requires i == |s| / 2
    ensures HeapFrom(s, max, i)
  {
  }

  lemma InitStep<T>(s: seq<Item<T>>, max: bool, i: nat)
    requires HeapFrom(s, max, i + 1)
    ensures DownOk(s, max, i, i)
  {
    assert forall k :: 0 < k < |s| && Parent(k) >= i && Parent(k) != i ==> Parent(k) >= i + 1;
    assert i > 0 ==> Parent(i) < i;
  }

  lemma InitDone<T>(s: seq<Item<T>>, max: bool)
    requires HeapFrom(s, max, 0)
    ensures HeapOk(s, max)
  {
    forall k | 0 < k < |s|
      ensures OrderedAt(s, max, k)
    {
      assert Parent(k) >= 0;
    }
  }
}
