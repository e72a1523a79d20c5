/** Queues that hold each member of a set once, with its score, and how they are cut down to their best. */
module QueueSets {
  import opened HeapOrder
  import opened PriorityQueues
  import opened TopK

  function ItemFor<T>(v: T, score: T -> real): Item<T> {
    Item(score(v), v)
  }

  ghost function ItemsOf<T>(s: set<T>, score: T -> real): set<Item<T>> {
    set v | v in s :: ItemFor(v, score)
  }

  /** The queue's contents are the members of `s`, once each. */
  ghost predicate Holds<T>(contents: multiset<Item<T>>, s: set<T>, score: T -> real) {
    contents == multiset(ItemsOf(s, score))
  }

  lemma HoldsMember<T>(contents: multiset<Item<T>>, s: set<T>, score: T -> real, x: Item<T>)
    requires Holds(contents, s, score)
    ensures x in contents <==> x.value in s && x == ItemFor(x.value, score)
  {
    assert x in contents <==> x in ItemsOf(s, score);
    if x.value in s && x == ItemFor(x.value, score) {
      assert ItemFor(x.value, score) in ItemsOf(s, score);
    }
  }

  lemma HoldsNone<T>(score: T -> real)
    ensures Holds(multiset{}, {}, score)
  {
  }

  lemma HoldsPush<T>(contents: multiset<Item<T>>, s: set<T>, score: T -> real, v: T)
    requires Holds(contents, s, score) && v !in s
    ensures Holds(contents + multiset{ItemFor(v, score)}, s + {v}, score)
  {
    var x := ItemFor(v, score);
    assert ItemsOf(s + {v}, score) == ItemsOf(s, score) + {x};
    assert x !in ItemsOf(s, score);
  }

  lemma HoldsPop<T>(contents: multiset<Item<T>>, s: set<T>, score: T -> real, x: Item<T>)
    requires Holds(contents, s, score) && x in contents
    ensures x.value in s && x == ItemFor(x.value, score) && Holds(contents - multiset{x}, s - {x.value}, score)
  {
    HoldsMember(contents, s, score, x);
    assert ItemsOf(s - {x.value}, score) == ItemsOf(s, score) - {x};
  }

  lemma HoldsPopFirst<T>(contents: multiset<Item<T>>, s: set<T>, score: T -> real, max: bool, x: Item<T>)
    requires Holds(contents, s, score) && IsFirst(contents, max, x)
    ensures x.value in s && x == ItemFor(x.value, score) && Holds(contents - multiset{x}, s - {x.value}, score)
  {
    HoldsPop(contents, s, score, x);
  }

  lemma {:induction false} HoldsSize<T>(contents: multiset<Item<T>>, s: set<T>, score: T -> real)
    requires Holds(contents, s, score)
    ensures |contents| == |s|
    decreases |s|
  {
    if s == {} {
      assert ItemsOf(s, score) == {};
    } else {
      var v :| v in s;
      HoldsMember(contents, s, score, ItemFor(v, score));
      HoldsPop(contents, s, score, ItemFor(v, score));
      HoldsSize(contents - multiset{ItemFor(v, score)}, s - {v}, score);
    }
  }

  /** What a queue that holds a set keeps of it holds a subset. */
  lemma {:induction false} SubHolds<T>(all: multiset<Item<T>>, kept: multiset<Item<T>>, s: set<T>, score: T -> real) returns (t: set<T>)
    requires Holds(all, s, score) && kept <= all
    ensures t <= s && Holds(kept, t, score)
    decreases |all - kept|
  {
    if all == kept {
      t := s;
    } else {
      assert all - kept != multiset{} by { assert all == kept + (all - kept); }
      SomeItem(all - kept);
      var x :| x in all - kept;
      HoldsPop(all, s, score, x);
      assert all - multiset{x} - kept == all - kept - multiset{x};
      OncePerItem(all, s, score, x);
      assert kept <= all - multiset{x};
      t := SubHolds(all - multiset{x}, kept, s - {x.value}, score);
    }
  }

  lemma SomeItem<T>(m: multiset<T>)
    ensures m == multiset{} || exists x :: x in m
  {
    if forall x :: x !in m {
      assert m == multiset{};
    }
  }

  lemma OncePerItem<T>(contents: multiset<Item<T>>, s: set<T>, score: T -> real, x: Item<T>)
    requires Holds(contents, s, score)
    ensures contents[x] <= 1
  {
  }

  /** The nearest of a set: `k` of them, or all, none farther than one left out. */
  ghost predicate NearestSet<T>(all: set<T>, t: set<T>, k: nat, score: T -> real) {
    t <= all && |t| == Min(k, |all|) && forall w, v :: w in all - t && v in t ==> score(v) <= score(w)
  }

  /** What a max-queue keeps of a set is the nearest of it. */
  lemma KeptIsNearest<T>(all: multiset<Item<T>>, kept: multiset<Item<T>>, s: set<T>, k: nat, score: T -> real) returns (t: set<T>)
    requires Holds(all, s, score) && Kept(all, kept, k, true)
    ensures Holds(kept, t, score) && NearestSet(s, t, k, score)
  {
    t := SubHolds(all, kept, s, score);
    HoldsSize(all, s, score);
    HoldsSize(kept, t, score);
    forall w, v | w in s - t && v in t
      ensures score(v) <= score(w)
    {
      LeftOut(all, kept, s, t, score, w);
      HoldsMember(kept, t, score, ItemFor(v, score));
      assert !Less(true, ItemFor(v, score), ItemFor(w, score));
    }
  }

  lemma LeftOut<T>(all: multiset<Item<T>>, kept: multiset<Item<T>>, s: set<T>, t: set<T>, score: T -> real, w: T)
    requires Holds(all, s, score) && Holds(kept, t, score) && w in s && w !in t
    ensures ItemFor(w, score) in all - kept
  {
    HoldsMember(all, s, score, ItemFor(w, score));
    HoldsMember(kept, t, score, ItemFor(w, score));
  }

  // ---------- cutting a queue down ----------

  /** Popping one more item than were popped before keeps the best of the rest. */
  lemma DropFirst<T>(all: multiset<Item<T>>, kept: multiset<Item<T>>, n: nat, max: bool, r: Item<T>)
    requires Kept(all, kept, n + 1, max) && |kept| == n + 1 && IsFirst(kept, max, r)
    ensures Kept(all, kept - multiset{r}, n, max)
  {
    var now := kept - multiset{r};
    assert kept == now + multiset{r};
    forall x, y | x in all - now && y in now
      ensures !Less(max, y, x)
    {
      if x !in all - kept {
        assert x == r;
      }
    }
  }

  lemma KeptAll<T>(all: multiset<Item<T>>, n: nat, max: bool)
    requires n >= |all|
    ensures Kept(all, all, n, max)
  {
  }

  /** Two queues of opposite kind: what was moved so far is no worse than what is left. */
  ghost predicate Moved<T>(all: multiset<Item<T>>, left: multiset<Item<T>>, moved: multiset<Item<T>>, max: bool) {
    all == left + moved && forall x, y :: x in left && y in moved ==> !Less(max, y, x)
  }

  /** The first item of the reversed queue is the next best. */
  lemma MoveFirst<T>(all: multiset<Item<T>>, left: multiset<Item<T>>, moved: multiset<Item<T>>, max: bool, r: Item<T>)
    requires Moved(all, left, moved, max) && IsFirst(left, !max, r)
    ensures Moved(all, left - multiset{r}, moved + multiset{r}, max)
  {
    assert left == left - multiset{r} + multiset{r};
  }

  lemma MovedIsKept<T>(all: multiset<Item<T>>, left: multiset<Item<T>>, moved: multiset<Item<T>>, max: bool, k: nat)
    requires Moved(all, left, moved, max) && |moved| <= k && (left == multiset{} || |moved| == k)
    ensures Kept(all, moved, k, max)
  {
    assert all - moved == left;
  }

  /** `selectNeighbors`: pop until `k` are left. */
  method SelectNeighbors<T>(neighbors: PriorityQueue<T>, k: nat)
    requires neighbors.Valid()
    modifies neighbors`len, neighbors.buf
    ensures neighbors.Valid() && Kept(old(neighbors.Contents()), neighbors.Contents(), k, neighbors.max)
  {
    hide Kept, IsFirst, HeapOk;
    ghost var all := neighbors.Contents();
    KeptAll(all, if neighbors.len > k then neighbors.len else k, neighbors.max);
    while neighbors.len > k
      invariant neighbors.Valid()
      invariant Kept(all, neighbors.Contents(), if neighbors.len > k then neighbors.len else k, neighbors.max)
    {
      ghost var kept := neighbors.Contents();
      var r := neighbors.Pop();
      DropFirst(all, kept, neighbors.len, neighbors.max, r);
    }
  }

  /** The two queues of `selectNeighborsHeuristic`. */
  ghost predicate Moving<T>(all: multiset<Item<T>>, candidates: PriorityQueue<T>, result: PriorityQueue<T>)
    reads candidates, candidates.buf, result, result.buf
  {
    candidates.Valid() && !candidates.max && result.Valid() && result.max
    && candidates != result && candidates.buf != result.buf
    && Moved(all, candidates.Contents(), result.Contents(), true)
  }

  /** `result.Push(candidateVertices.Pop())`. */
  method MoveOne<T>(candidates: PriorityQueue<T>, result: PriorityQueue<T>, ghost all: multiset<Item<T>>)
    requires Moving(all, candidates, result) && candidates.len > 0
    modifies candidates`len, candidates.buf, result, result.buf
    ensures Moving(all, candidates, result) && candidates.len == old(candidates.len) - 1 && result.len == old(result.len) + 1
    ensures candidates.buf == old(candidates.buf) && (result.buf == old(result.buf) || fresh(result.buf))
  {
    hide IsFirst, HeapOk, Moved, candidates.Contents;
    ghost var left, moved := candidates.Contents(), result.Contents();
    var item := candidates.Pop();
    result.Push(item);
    MoveFirst(all, left, moved, true, item);
  }

  /** `selectNeighborsHeuristic` without candidate extension: reverse the queue over the same
      array, then move the first items to a new queue. */
  method SelectNeighborsHeuristic<T>(neighbors: PriorityQueue<T>, k: nat, keepPruned: bool) returns (result: PriorityQueue<T>)
    requires neighbors.Valid() && neighbors.max
    modifies neighbors.buf
    ensures fresh(result) && fresh(result.buf) && result.Valid() && result.max
    ensures Kept(old(neighbors.Contents()), result.Contents(), k, true)
  {
    hide Kept, HeapOk, Moved;
    ghost var all := neighbors.Contents();
    var candidates := neighbors.Reverse();
    result := new PriorityQueue<T>(true);
    NothingMoved(all, true);
    while candidates.len > 0 && result.len < k
      invariant Moving(all, candidates, result) && fresh(candidates) && candidates.buf == neighbors.buf
      invariant fresh(result) && fresh(result.buf) && result.len <= k
      decreases candidates.len
    {
      MoveOne(candidates, result, all);
    }
    if keepPruned {
      while candidates.len > 0
        invariant Moving(all, candidates, result) && fresh(candidates) && candidates.buf == neighbors.buf
        invariant fresh(result) && fresh(result.buf) && result.len <= k
        decreases candidates.len
      {
        if result.len >= k {
          break;
        }
        MoveOne(candidates, result, all);
      }
    }
    MovedIsKept(all, candidates.Contents(), result.Contents(), true, k);
  }

  lemma NothingMoved<T>(all: multiset<Item<T>>, max: bool)
    ensures Moved(all, all, multiset{}, max)
  {
  }

  /** Both selections keep the same distances. */
  lemma SelectionsAgree<T>(all: multiset<Item<T>>, simple: multiset<Item<T>>, heuristic: multiset<Item<T>>, k: nat)
    requires Kept(all, simple, k, true) && Kept(all, heuristic, k, true)
    ensures ScoresOf(simple) == ScoresOf(heuristic)
  {
    KeptScoresAgree(all, simple, heuristic, k, true);
  }
}
