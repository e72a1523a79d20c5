/** What holds in every reachable state of the concurrent map, whatever the interleaving. */
module CmapSafety {
  import opened Common
  import opened CmapList
  import opened CmapArena
  import opened CmapThreads
  import opened CmapConcurrent

  lemma {:induction false} IdleOwesNothing<K, V>(threads: seq<Pc<K, V>>)
    requires forall i :: 0 <= i < |threads| ==> threads[i].Idle?
    ensures AllOwed(threads) == 0
  {
    if threads != [] {
      IdleOwesNothing(threads[1..]);
    }
  }

  lemma InitialInv<K, V>(zeroKey: K, zeroValue: V, n: nat, hash: K -> Word)
    requires hash(zeroKey) != 0
    ensures Inv(Initial(zeroKey, zeroValue, n), hash)
  {
    var s := Initial(zeroKey, zeroValue, n);
    IdleOwesNothing(s.threads);
    assert LinkOk(s.nodes, s.linked, 0);
  }

  lemma {:induction false} RunKeepsInv<K, V>(s: State<K, V>, steps: seq<(nat, Action<K, V>)>, hash: K -> Word)
    requires Inv(s, hash)
    ensures Inv(RunFrom(s, steps, hash), hash)
  {
    hide Inv, Step;
    if steps != [] {
      RunKeepsInv(s, steps[..|steps| - 1], hash);
      var last := steps[|steps| - 1];
      StepKeepsInv(RunFrom(s, steps[..|steps| - 1], hash), last.0, last.1, hash);
    }
  }

  /** Every link runs forward in (hash, creation order), in every state of every run. */
  lemma LinksIncrease<K, V>(zeroKey: K, zeroValue: V, n: nat, steps: seq<(nat, Action<K, V>)>, r: nat, hash: K -> Word)
    requires hash(zeroKey) != 0
    ensures var s := Run(zeroKey, zeroValue, n, steps, hash);
            (r < |s.nodes| && s.nodes[r].next != NIL ==>
               0 <= s.nodes[r].next < |s.nodes|
               && (s.nodes[r].keyHash < s.nodes[s.nodes[r].next].keyHash
                   || (s.nodes[r].keyHash == s.nodes[s.nodes[r].next].keyHash && r < s.nodes[r].next)))
  {
    hide RunFrom, ThreadsOk, CountOk, NodeOk, MarksOk;
    InitialInv(zeroKey, zeroValue, n, hash);
    RunKeepsInv(Initial(zeroKey, zeroValue, n), steps, hash);
    var s := Run(zeroKey, zeroValue, n, steps, hash);
    assert r < |s.nodes| ==> LinkOk(s.nodes, s.linked, r);
  }

  /** The node reached from `r` by `n` links, NIL past the end. */
  ghost function Hop<K, V>(nodes: seq<Node<K, V>>, r: int, n: nat): int
    decreases n
  {
    if n == 0 || r < 0 then r else Hop(nodes, NextOf(nodes, r), n - 1)
  }

  lemma {:induction false} HopsGoForward<K, V>(nodes: seq<Node<K, V>>, linked: set<nat>, r: nat, n: nat)
    requires LinksOk(nodes, linked) && r < |nodes| && n > 0
    ensures Before(nodes, r, Hop(nodes, r, n)) && Target(linked, Hop(nodes, r, n))
    decreases n
  {
    assert LinkOk(nodes, linked, r);
    var next := NextOf(nodes, r);
    assert Hop(nodes, r, n) == Hop(nodes, next, n - 1);
    if next >= 0 && n > 1 {
      HopsGoForward(nodes, linked, next, n - 1);
    }
  }

  /** No reachable state has a cycle: following links never comes back to a node. */
  lemma NoCycles<K, V>(zeroKey: K, zeroValue: V, n: nat, steps: seq<(nat, Action<K, V>)>, r: nat, hops: nat, hash: K -> Word)
    requires hash(zeroKey) != 0 && hops > 0
    ensures var s := Run(zeroKey, zeroValue, n, steps, hash);
            r < |s.nodes| ==> Hop(s.nodes, r, hops) != r
  {
    hide RunFrom, ThreadsOk, CountOk, NodesOk, MarksOk, LinksOk, Hop;
    InitialInv(zeroKey, zeroValue, n, hash);
    RunKeepsInv(Initial(zeroKey, zeroValue, n), steps, hash);
    var s := Run(zeroKey, zeroValue, n, steps, hash);
    if r < |s.nodes| {
      HopsGoForward(s.nodes, s.linked, r, hops);
    }
  }

  /** Each node is marked deleted at most once: the history of successful marks repeats nothing
      and lists exactly the nodes whose flag is set, all of them linked in before. */
  lemma MarkedAtMostOnce<K, V>(zeroKey: K, zeroValue: V, n: nat, steps: seq<(nat, Action<K, V>)>, hash: K -> Word)
    requires hash(zeroKey) != 0
    ensures var s := Run(zeroKey, zeroValue, n, steps, hash);
            (forall i, j :: 0 <= i < j < |s.marks| ==> s.marks[i] != s.marks[j])
            && (forall r :: 0 <= r < |s.nodes| ==> (s.nodes[r].deleted <==> r in s.marks))
            && (forall i :: 0 <= i < |s.marks| ==> s.marks[i] in s.linked)
  {
    hide RunFrom, ThreadsOk, CountOk, NodesOk, LinksOk;
    InitialInv(zeroKey, zeroValue, n, hash);
    RunKeepsInv(Initial(zeroKey, zeroValue, n), steps, hash);
  }

  ghost function Elements(s: seq<nat>): (e: set<nat>)
    ensures forall x :: x in e <==> x in s
  {
    set x | x in s
  }

  lemma {:induction false} DistinctCount(s: seq<nat>)
    requires forall i, j :: 0 <= i < j < |s| ==> s[i] != s[j]
    ensures |Elements(s)| == |s|
  {
    if s != [] {
      hide Elements;
      var n := |s| - 1;
      var rest := Elements(s[..n]);
      DistinctCount(s[..n]);
      assert s == s[..n] + [s[n]];
      assert Elements(s) == rest + {s[n]};
    } else {
      assert Elements(s) == {};
    }
  }

  /** Marked nodes are linked ones: the live ones are the rest. */
  lemma LiveOnes<K, V>(nodes: seq<Node<K, V>>, linked: set<nat>, marks: seq<nat>)
    requires MarksOk(nodes, linked, marks) && InRange(linked, |nodes|)
    ensures |set r | r in linked && !DeletedAt(nodes, r)| == |linked| - |marks|
  {
    DistinctCount(marks);
    hide Elements;
    var gone := Elements(marks);
    var live := set r | r in linked && !DeletedAt(nodes, r);
    assert gone <= linked;
    assert live == linked - gone by {
      forall r | r in linked
        ensures r in gone <==> DeletedAt(nodes, r)
      {
        assert r < |nodes|;
      }
    }
    assert |live| == |linked| - |gone|;
  }

  /** When every thread is idle the item counter is the number of nodes linked in minus the
      number marked deleted, and that is the number of linked nodes still live. */
  lemma IdleCountIsExact<K, V>(zeroKey: K, zeroValue: V, n: nat, steps: seq<(nat, Action<K, V>)>, hash: K -> Word)
    requires hash(zeroKey) != 0
    ensures var s := Run(zeroKey, zeroValue, n, steps, hash);
            (|s.linked| < TWO64 && (forall i :: 0 <= i < |s.threads| ==> s.threads[i].Idle?)) ==>
              s.numItems == |s.linked| - |s.marks| == |set r | r in s.linked && !DeletedAt(s.nodes, r)|
  {
    hide RunFrom, ThreadsOk, NodesOk, MarksOk, LinkOk;
    InitialInv(zeroKey, zeroValue, n, hash);
    RunKeepsInv(Initial(zeroKey, zeroValue, n), steps, hash);
    var s := Run(zeroKey, zeroValue, n, steps, hash);
    LiveOnes(s.nodes, s.linked, s.marks);
    if forall i :: 0 <= i < |s.threads| ==> s.threads[i].Idle? {
      IdleOwesNothing(s.threads);
    }
  }

  /** A key and value answered by `Get` were passed together to some `Set` before. */
  lemma GetsAnswerWhatWasSet<K, V>(zeroKey: K, zeroValue: V, n: nat, steps: seq<(nat, Action<K, V>)>, hash: K -> Word)
    requires hash(zeroKey) != 0
    ensures var s := Run(zeroKey, zeroValue, n, steps, hash); s.answers <= s.stored
  {
    hide RunFrom, ThreadsOk, NodesOk, LinksOk, MarksOk, CountOk;
    InitialInv(zeroKey, zeroValue, n, hash);
    RunKeepsInv(Initial(zeroKey, zeroValue, n), steps, hash);
  }

  // ---------- which insertions can be found ----------

  ghost predicate Reachable<K, V>(nodes: seq<Node<K, V>>, r: nat) {
    exists n: nat :: Hop(nodes, 0, n) == r
  }

  lemma {:induction false} HopSplit<K, V>(nodes: seq<Node<K, V>>, r: int, a: nat, b: nat)
    ensures Hop(nodes, r, a + b) == Hop(nodes, Hop(nodes, r, a), b)
    decreases a
  {
    if a > 0 && r >= 0 {
      HopSplit(nodes, NextOf(nodes, r), a - 1, b);
    }
  }

  /** Walks that have not met `left` yet do not see that its link changed. */
  lemma {:induction false} HopUnchanged<K, V>(nodes: seq<Node<K, V>>, left: nat, x: int, r: int, n: nat)
    requires forall k: nat :: k < n ==> Hop(nodes, r, k) != left
    ensures Hop(WithNext(nodes, left, x), r, n) == Hop(nodes, r, n)
    decreases n
  {
    if n > 0 && r >= 0 {
      assert Hop(nodes, r, 0) != left;
      forall k: nat | k < n - 1
        ensures Hop(nodes, NextOf(nodes, r), k) != left
      {
        assert Hop(nodes, r, k + 1) != left;
      }
      HopUnchanged(nodes, left, x, NextOf(nodes, r), n - 1);
    }
  }

  /** Walks from the head move strictly forward: the same node is never met twice. */
  lemma HopsDiffer<K, V>(nodes: seq<Node<K, V>>, linked: set<nat>, a: nat, b: nat)
    requires LinksOk(nodes, linked) && 0 < |nodes| && a < b && Hop(nodes, 0, a) >= 0
    ensures Hop(nodes, 0, b) != Hop(nodes, 0, a)
  {
    hide LinksOk, Hop;
    HopSplit(nodes, 0, a, b - a);
    HopInRange(nodes, linked, a);
    HopsGoForward(nodes, linked, Hop(nodes, 0, a), b - a);
  }

  lemma HopInRange<K, V>(nodes: seq<Node<K, V>>, linked: set<nat>, n: nat)
    requires LinksOk(nodes, linked) && 0 < |nodes|
    ensures NIL <= Hop(nodes, 0, n) < |nodes| && (n > 0 ==> Target(linked, Hop(nodes, 0, n)))
  {
    if n > 0 {
      HopsGoForward(nodes, linked, 0, n);
    }
  }

  /** A node that `addBefore` has just linked in can be reached from the head exactly if its left
      neighbour could be: behind a neighbour that was deleted and unlinked meanwhile, the new
      node is lost although it is counted. */
  lemma InsertedReachableIff<K, V>(s: State<K, V>, i: nat, choice: int, hash: K -> Word)
    requires Inv(s, hash) && i < |s.threads| && s.threads[i].Linking?
    requires NextOf(s.nodes, s.threads[i].left) == s.threads[i].right
    ensures var s', pc := Went(s, i, choice, hash), s.threads[i];
            s'.linked == s.linked + {pc.alloc} && s'.threads[i] == Counting
            && (Reachable(s'.nodes, pc.alloc) <==> Reachable(s.nodes, pc.left))
  {
    hide ThreadsOk, CountOk, LinksOk, NodesOk, MarksOk, Hop, AllOwed;
    var pc := s.threads[i];
    ThreadKnows(s, i, hash);
    var nodes' := WithNext(s.nodes, pc.left, pc.alloc);
    if n: nat :| Hop(s.nodes, 0, n) == pc.left {
      ReachedStays(s.nodes, s.linked, pc.left, pc.alloc, n);
    }
    if n: nat :| Hop(nodes', 0, n) == pc.alloc {
      ReachedBefore(s.nodes, s.linked, pc.left, pc.alloc, n);
    }
  }

  lemma ReachedStays<K, V>(nodes: seq<Node<K, V>>, linked: set<nat>, left: nat, alloc: nat, n: nat)
    requires LinksOk(nodes, linked) && left < |nodes| && Hop(nodes, 0, n) == left
    ensures Hop(WithNext(nodes, left, alloc), 0, n + 1) == alloc
  {
    var nodes' := WithNext(nodes, left, alloc);
    forall k: nat | k < n
      ensures Hop(nodes, 0, k) != left
    {
      if Hop(nodes, 0, k) == left {
        HopsDiffer(nodes, linked, k, n);
      }
    }
    HopUnchanged(nodes, left, alloc, 0, n);
    HopSplit(nodes', 0, n, 1);
    assert Hop(nodes', left, 1) == Hop(nodes', NextOf(nodes', left), 0);
  }

  /** If some walk now meets the new node, the first one to differ had come to `left`. */
  lemma ReachedBefore<K, V>(nodes: seq<Node<K, V>>, linked: set<nat>, left: nat, alloc: nat, n: nat)
    requires LinksOk(nodes, linked) && left < |nodes| && 0 < alloc && alloc !in linked
    requires Hop(WithNext(nodes, left, alloc), 0, n) == alloc
    ensures Reachable(nodes, left)
  {
    if forall k: nat :: k < n ==> Hop(nodes, 0, k) != left {
      HopUnchanged(nodes, left, alloc, 0, n);
      HopInRange(nodes, linked, n);
      assert false;
    }
  }
}
