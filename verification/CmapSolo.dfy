/** What `next` does when one thread of the concurrent map runs alone. */
module CmapSolo {
  import opened CmapList
  import opened CmapArena
  import opened CmapEffects
  import opened CmapThreads
  import opened CmapConcurrent

  // ---------- steps of one thread ----------

  /** `n` steps of thread `i` while the others stand still. */
  ghost function Alone<K, V>(s: State<K, V>, i: nat, n: nat, hash: K -> Word): State<K, V> {
    if n == 0 then s else Step(Alone(s, i, n - 1, hash), i, Go(0), hash)
  }

  lemma {:induction false} AloneMore<K, V>(s: State<K, V>, i: nat, a: nat, b: nat, hash: K -> Word)
    ensures Alone(Alone(s, i, a, hash), i, b, hash) == Alone(s, i, a + b, hash)
  {
    hide Step;
    if b > 0 {
      AloneMore(s, i, a, b - 1, hash);
    }
  }

  lemma {:induction false} AloneKeepsInv<K, V>(s: State<K, V>, i: nat, n: nat, hash: K -> Word)
    requires Inv(s, hash)
    ensures Inv(Alone(s, i, n, hash), hash)
  {
    hide Inv, Step;
    if n > 0 {
      AloneKeepsInv(s, i, n - 1, hash);
      StepKeepsInv(Alone(s, i, n - 1, hash), i, Go(0), hash);
    }
  }

  lemma OneAlone<K, V>(s: State<K, V>, i: nat, hash: K -> Word)
    ensures Alone(s, i, 1, hash) == Step(s, i, Go(0), hash)
  {
    hide Step;
    assert Alone(s, i, 0, hash) == s;
  }

  /** A call, what it reads from the index, and `n` more steps. */
  ghost function SoloSteps<K, V>(i: nat, call: Call<K, V>, choice: int, n: nat): seq<(nat, Action<K, V>)> {
    [(i, Begin(call)), (i, Go(choice))] + seq(n, _ => (i, Go(0)))
  }

  lemma {:induction false} SoloRun<K, V>(s: State<K, V>, i: nat, call: Call<K, V>, choice: int, n: nat, hash: K -> Word)
    ensures RunFrom(s, SoloSteps(i, call, choice, n), hash)
         == Alone(Step(Step(s, i, Begin(call), hash), i, Go(choice), hash), i, n, hash)
  {
    hide Step;
    var steps := SoloSteps(i, call, choice, n);
    if n == 0 {
      assert steps == [(i, Begin(call)), (i, Go(choice))];
      assert steps[..1] == [(i, Begin(call))];
      assert [(i, Begin(call))][..0] == [];
      assert RunFrom(s, steps[..1], hash) == Step(s, i, Begin(call), hash);
    } else {
      SoloRun(s, i, call, choice, n - 1, hash);
      assert steps[..|steps| - 1] == SoloSteps(i, call, choice, n - 1);
    }
  }

  // ---------- the next live node ----------

  /** Behind `r` come `k` deleted nodes and then `m`, which is live or the end. */
  ghost predicate NextLive<K, V>(nodes: seq<Node<K, V>>, r: nat, m: int, k: nat)
    decreases k
  {
    var n := NextOf(nodes, r);
    if k == 0 then n == m && (m == NIL || (m >= 0 && !DeletedAt(nodes, m)))
    else n >= 0 && DeletedAt(nodes, n) && NextLive(nodes, n, m, k - 1)
  }

  ghost predicate LiveAfter<K, V>(nodes: seq<Node<K, V>>, r: nat, m: int) {
    exists k: nat :: NextLive(nodes, r, m, k)
  }

  lemma {:induction false} NextLiveUnique<K, V>(nodes: seq<Node<K, V>>, r: nat, m: int, k: nat, m': int, k': nat)
    requires NextLive(nodes, r, m, k) && NextLive(nodes, r, m', k')
    ensures m == m' && k == k'
    decreases k
  {
    if k > 0 && k' > 0 {
      NextLiveUnique(nodes, NextOf(nodes, r), m, k - 1, m', k' - 1);
    }
  }

  /** The nodes that can come after `r`. */
  ghost function Later<K, V>(nodes: seq<Node<K, V>>, r: nat): set<nat> {
    set x: nat | x < |nodes| && Before(nodes, r, x)
  }

  lemma LaterShrinks<K, V>(nodes: seq<Node<K, V>>, r: nat, x: nat)
    requires x < |nodes| && Before(nodes, r, x)
    ensures |Later(nodes, x)| < |Later(nodes, r)|
  {
    var a, b := Later(nodes, x), Later(nodes, r);
    assert a <= b - {x};
    SubsetCard(a, b - {x});
    assert |b - {x}| == |b| - 1;
  }

  lemma SubsetCard<T>(a: set<T>, b: set<T>)
    requires a <= b
    ensures |a| <= |b|
  {
    assert b == a + (b - a);
  }

  lemma {:induction false} SomeLiveAfter<K, V>(nodes: seq<Node<K, V>>, linked: set<nat>, r: nat) returns (m: int, k: nat)
    requires LinksOk(nodes, linked) && r < |nodes|
    ensures NextLive(nodes, r, m, k) && Target(linked, m) && Before(nodes, r, m)
    decreases |Later(nodes, r)|
  {
    hide Later;
    assert LinkOk(nodes, linked, r);
    var n := NextOf(nodes, r);
    if n >= 0 && DeletedAt(nodes, n) {
      LaterShrinks(nodes, r, n);
      m, k := SomeLiveAfter(nodes, linked, n);
      k := k + 1;
    } else {
      m, k := n, 0;
    }
  }

  // ---------- tidying ----------

  /** Nothing but links differs. */
  ghost predicate SameData<K, V>(a: seq<Node<K, V>>, b: seq<Node<K, V>>) {
    |a| == |b| && forall r :: 0 <= r < |a| ==> b[r] == a[r].(next := b[r].next)
  }

  /** Links have been swung past deleted nodes, from `self` on. */
  ghost predicate Tidied<K, V>(a: seq<Node<K, V>>, b: seq<Node<K, V>>, self: nat) {
    SameData(a, b) && (forall r: nat, m :: LiveAfter(a, r, m) ==> LiveAfter(b, r, m))
    && forall r: nat :: r != self && !Before(a, self, r) ==> NextOf(b, r) == NextOf(a, r)
  }

  lemma NothingTidied<K, V>(nodes: seq<Node<K, V>>, self: nat)
    ensures Tidied(nodes, nodes, self)
  {
  }

  lemma {:induction false} SwingKeeps<K, V>(nodes: seq<Node<K, V>>, self: nat, n: nat, m: int, k: nat, r: nat, x: int, j: nat)
    requires self < |nodes| && NextOf(nodes, self) == n && DeletedAt(nodes, n) && NextLive(nodes, n, m, k) && NextLive(nodes, r, x, j)
    ensures LiveAfter(WithNext(nodes, self, m), r, x)
    decreases j
  {
    var nodes' := WithNext(nodes, self, m);
    if r == self {
      NextLiveUnique(nodes, self, m, k + 1, x, j);
      EndsLive(nodes, n, m, k);
      assert NextLive(nodes', r, x, 0);
    } else if j == 0 {
      assert NextLive(nodes', r, x, 0);
    } else {
      SwingKeeps(nodes, self, n, m, k, NextOf(nodes, r), x, j - 1);
      var i: nat :| NextLive(nodes', NextOf(nodes, r), x, i);
      assert NextLive(nodes', r, x, i + 1);
    }
  }

  lemma {:induction false} EndsLive<K, V>(nodes: seq<Node<K, V>>, r: nat, m: int, k: nat)
    requires NextLive(nodes, r, m, k)
    ensures m == NIL || (m >= 0 && !DeletedAt(nodes, m))
    decreases k
  {
    if k > 0 {
      EndsLive(nodes, NextOf(nodes, r), m, k - 1);
    }
  }

  /** What `next` of a deleted node has tidied, and then the swing past that node. */
  lemma TidiedOneMore<K, V>(a: seq<Node<K, V>>, b: seq<Node<K, V>>, self: nat, n: nat, m: int, k: nat)
    requires Tidied(a, b, n) && self < |a| && NextOf(a, self) == n && DeletedAt(a, n) && Before(a, self, n) && NextLive(a, n, m, k)
    ensures NextOf(b, self) == n && Tidied(a, WithNext(b, self, m), self) && NextOf(WithNext(b, self, m), self) == m
  {
    hide NextLive;
    assert !Before(a, n, self) && self != n;
    assert LiveAfter(a, n, m);
    var k': nat :| NextLive(b, n, m, k');
    assert DeletedAt(b, n);
    forall r: nat, x | LiveAfter(a, r, x)
      ensures LiveAfter(WithNext(b, self, m), r, x)
    {
      var j: nat :| NextLive(b, r, x, j);
      SwingKeeps(b, self, n, m, k', r, x, j);
    }
  }

  // ---------- `next` alone ----------

  lemma GotoTwice<K, V>(s: State<K, V>, i: nat, x: Pc<K, V>, pc: Pc<K, V>)
    requires i < |s.threads|
    ensures Goto(s.(threads := s.threads[i := x]), i, pc) == Goto(s, i, pc)
  {
    assert s.threads[i := x][i := pc] == s.threads[i := pc];
  }

  /** Where a thread stood does not matter for where it goes when `next` returns. */
  lemma ReturnForgets<K, V>(s: State<K, V>, i: nat, x: Pc<K, V>, frames: seq<Frame>, cont: Cont<K, V>, v: int, hash: K -> Word)
    requires i < |s.threads|
    ensures NextReturns(s.(threads := s.threads[i := x]), i, frames, cont, v, hash) == NextReturns(s, i, frames, cont, v, hash)
  {
    hide Goto, HashAt, HoldsKey, WithNext;
    var t := s.(threads := s.threads[i := x]);
    if frames != [] {
      var f := frames[|frames| - 1];
      GotoTwice(s, i, x, Calling(frames[..|frames| - 1], Swap(f.self, f.n, v), cont));
    } else {
      match cont
      case SearchRight(key, value, prev, curr) =>
        GotoTwice(s, i, x, FromHead(key, value));
        if prev >= 0 {
          AllocatedForgets(s, i, x, key, value, prev, curr, hash);
        }
        GotoTwice(s, i, x, Storing(key, value, curr));
        GotoTwice(s, i, x, CallNext(curr, SearchNext(key, value, curr)));
      case SearchNext(key, value, left) =>
        AllocatedForgets(s, i, x, key, value, left, NIL, hash);
        if v >= 0 {
          GotoTwice(s, i, x, CallNext(v, SearchRight(key, value, left, v)));
        }
      case BeforeAdd(key, value, alloc, left, right) =>
        GotoTwice(s, i, x, FromHead(key, value));
        GotoTwice(s.(nodes := WithNext(s.nodes, alloc, right)), i, x, Linking(key, value, alloc, left, right));
      case DelNext(key) => GotoTwice(s, i, x, DelAt(key, v));
      case UnindexNext(item, version) => GotoTwice(s, i, x, CheckVersion(item, version));
      case GrowNext =>
        GotoTwice(s, i, x, Publishing);
        if v >= 0 {
          GotoTwice(s, i, x, CallNext(v, GrowNext));
        }
    }
  }

  lemma AllocatedForgets<K, V>(s: State<K, V>, i: nat, x: Pc<K, V>, key: K, value: V, left: nat, right: int, hash: K -> Word)
    requires i < |s.threads|
    ensures Allocated(s.(threads := s.threads[i := x]), i, key, value, left, right, hash) == Allocated(s, i, key, value, left, right, hash)
  {
    hide Goto;
    GotoTwice(s.(nodes := s.nodes + [Node(hash(key), key, value, NIL, false)]), i, x,
              CallNext(left, BeforeAdd(key, value, |s.nodes|, left, right)));
  }

  lemma NextAlone<K, V>(s: State<K, V>, i: nat, frames: seq<Frame>, self: nat, cont: Cont<K, V>, m: int, k: nat, hash: K -> Word)
    returns (n: nat, nodes': seq<Node<K, V>>)
    requires Inv(s, hash) && i < |s.threads| && s.threads[i] == Calling(frames, Load(self), cont)
    requires self < |s.nodes| && NextLive(s.nodes, self, m, k)
    ensures Tidied(s.nodes, nodes', self) && NextOf(nodes', self) == m
    ensures Alone(s, i, n, hash) == NextReturns(s.(nodes := nodes'), i, frames, cont, m, hash)
    decreases k
  {
    hide Inv, NextLive, Tidied, NextReturns, Before, DeletedAt, NextOf, WithNext, Alone;
    if k == 0 {
      n := NextFound(s, i, frames, self, cont, m, hash);
      nodes' := s.nodes;
      NothingTidied(s.nodes, self);
      FirstLive(s.nodes, self, m);
    } else {
      var d := NextDeleted(s, i, frames, self, cont, m, k, hash);
      var s2 := Alone(s, i, 2, hash);
      AloneKeepsInv(s, i, 2, hash);
      var n1, nodes1 := NextAlone(s2, i, frames + [Frame(self, d)], d, cont, m, k - 1, hash);
      TidiedOneMore(s.nodes, nodes1, self, d, m, k - 1);
      nodes' := WithNext(nodes1, self, m);
      Swung(s, s2, i, frames, self, d, cont, m, n1, nodes1, hash);
      var s4 := Alone(s, i, 2 + n1 + 1, hash);
      AloneKeepsInv(s, i, 2 + n1 + 1, hash);
      SwungLive(s.nodes, nodes', self, m, d, k - 1);
      var n2 := NextFound(s4, i, frames, self, cont, m, hash);
      AloneMore(s, i, 2 + n1 + 1, n2, hash);
      n := 2 + n1 + 1 + n2;
      SameReturn(s, s4, i, nodes', frames, cont, m, hash);
    }
  }

  lemma FirstLive<K, V>(nodes: seq<Node<K, V>>, self: nat, m: int)
    requires NextLive(nodes, self, m, 0)
    ensures NextOf(nodes, self) == m
  {
  }

  lemma SwungLive<K, V>(nodes: seq<Node<K, V>>, nodes': seq<Node<K, V>>, self: nat, m: int, d: nat, k: nat)
    requires Tidied(nodes, nodes', self) && NextOf(nodes', self) == m && NextLive(nodes, d, m, k)
    ensures NextLive(nodes', self, m, 0)
  {
    EndsLive(nodes, d, m, k);
  }

  /** The next node is live, or there is none: one or two steps. */
  lemma NextFound<K, V>(s: State<K, V>, i: nat, frames: seq<Frame>, self: nat, cont: Cont<K, V>, m: int, hash: K -> Word) returns (n: nat)
    requires i < |s.threads| && s.threads[i] == Calling(frames, Load(self), cont) && NextLive(s.nodes, self, m, 0)
    ensures Alone(s, i, n, hash) == NextReturns(s, i, frames, cont, m, hash)
  {
    hide NextReturns, HashAt, HoldsKey;
    OneAlone(s, i, hash);
    if m < 0 {
      n := 1;
    } else {
      n := 2;
      var s1 := Goto(s, i, Calling(frames, Check(self, m), cont));
      assert Alone(s, i, 1, hash) == s1;
      assert Alone(s, i, 2, hash) == Step(s1, i, Go(0), hash);
      ReturnForgets(s, i, s1.threads[i], frames, cont, m, hash);
    }
  }

  /** The next node is deleted: two steps lead to its own `next`. */
  lemma NextDeleted<K, V>(s: State<K, V>, i: nat, frames: seq<Frame>, self: nat, cont: Cont<K, V>, m: int, k: nat, hash: K -> Word)
    returns (d: nat)
    requires Inv(s, hash) && i < |s.threads| && s.threads[i] == Calling(frames, Load(self), cont) && self < |s.nodes|
    requires k > 0 && NextLive(s.nodes, self, m, k)
    ensures d < |s.nodes| && NextOf(s.nodes, self) == d && DeletedAt(s.nodes, d) && Before(s.nodes, self, d)
    ensures NextLive(s.nodes, d, m, k - 1)
    ensures Alone(s, i, 2, hash) == Goto(s, i, Calling(frames + [Frame(self, d)], Load(d), cont))
  {
    hide NodesOk, MarksOk, ThreadsOk, CountOk, HashAt, HoldsKey;
    d := NextOf(s.nodes, self);
    assert LinkOk(s.nodes, s.linked, self);
    OneAlone(s, i, hash);
    var s1 := Goto(s, i, Calling(frames, Check(self, d), cont));
    assert Alone(s, i, 1, hash) == s1;
    assert Alone(s, i, 2, hash) == Step(s1, i, Go(0), hash);
    GotoTwice(s, i, s1.threads[i], Calling(frames + [Frame(self, d)], Load(d), cont));
  }

  /** The deleted node's `next` has returned `m`, and the swing past it succeeds. */
  lemma Swung<K, V>(s: State<K, V>, s2: State<K, V>, i: nat, frames: seq<Frame>, self: nat, d: nat, cont: Cont<K, V>, m: int,
                    n1: nat, nodes1: seq<Node<K, V>>, hash: K -> Word)
    requires i < |s.threads| && s2 == Alone(s, i, 2, hash) == Goto(s, i, Calling(frames + [Frame(self, d)], Load(d), cont))
    requires Alone(s2, i, n1, hash) == NextReturns(s2.(nodes := nodes1), i, frames + [Frame(self, d)], cont, m, hash)
    requires NextOf(nodes1, self) == d
    ensures Alone(s, i, 2 + n1 + 1, hash) == Goto(s.(nodes := WithNext(nodes1, self, m)), i, Calling(frames, Load(self), cont))
  {
    hide Goto, Step, NextReturns, WithNext, NextOf;
    AloneMore(s, i, 2, n1, hash);
    SameThreads(s, s2, i, Calling(frames + [Frame(self, d)], Load(d), cont), WithNext(nodes1, self, m), Calling(frames, Load(self), cont));
    ReturnsToFrame(s2.(nodes := nodes1), i, frames, self, d, cont, m, hash);
    var s3 := Goto(s2.(nodes := nodes1), i, Calling(frames, Swap(self, d, m), cont));
    assert Alone(s, i, 2 + n1, hash) == s3;
    assert Alone(s, i, 2 + n1 + 1, hash) == Step(s3, i, Go(0), hash);
    SwingStep(s2.(nodes := nodes1), i, frames, self, d, cont, m, hash);
  }

  lemma ReturnsToFrame<K, V>(t: State<K, V>, i: nat, frames: seq<Frame>, self: nat, d: nat, cont: Cont<K, V>, m: int, hash: K -> Word)
    requires i < |t.threads|
    ensures NextReturns(t, i, frames + [Frame(self, d)], cont, m, hash) == Goto(t, i, Calling(frames, Swap(self, d, m), cont))
  {
    var more := frames + [Frame(self, d)];
    assert more[..|more| - 1] == frames;
  }

  lemma SwingStep<K, V>(t: State<K, V>, i: nat, frames: seq<Frame>, self: nat, d: nat, cont: Cont<K, V>, m: int, hash: K -> Word)
    requires i < |t.threads| && NextOf(t.nodes, self) == d
    ensures Step(Goto(t, i, Calling(frames, Swap(self, d, m), cont)), i, Go(0), hash)
         == Goto(t.(nodes := WithNext(t.nodes, self, m)), i, Calling(frames, Load(self), cont))
  {
    hide WithNext, NextOf, HashAt, HoldsKey;
    var x := Calling(frames, Swap(self, d, m), cont);
    GotoTwice(t.(nodes := WithNext(t.nodes, self, m)), i, x, Calling(frames, Load(self), cont));
  }

  lemma SameThreads<K, V>(s: State<K, V>, s2: State<K, V>, i: nat, x: Pc<K, V>, nodes': seq<Node<K, V>>, pc: Pc<K, V>)
    requires i < |s.threads| && s2 == Goto(s, i, x)
    ensures i < |s2.threads| && Goto(s2.(nodes := nodes'), i, pc) == Goto(s.(nodes := nodes'), i, pc)
  {
    GotoTwice(s.(nodes := nodes'), i, x, pc);
  }

  lemma SameReturn<K, V>(s: State<K, V>, s4: State<K, V>, i: nat, nodes': seq<Node<K, V>>, frames: seq<Frame>, cont: Cont<K, V>,
                         m: int, hash: K -> Word)
    requires i < |s.threads| && exists pc :: s4 == Goto(s.(nodes := nodes'), i, pc)
    ensures NextReturns(s4, i, frames, cont, m, hash) == NextReturns(s.(nodes := nodes'), i, frames, cont, m, hash)
  {
    hide NextReturns;
    ReturnForgets(s.(nodes := nodes'), i, s4.threads[i], frames, cont, m, hash);
    assert s4 == s.(nodes := nodes').(threads := s.threads[i := s4.threads[i]]);
  }
}
