/** What can be reached from the list head, step by step and over runs. */
module CmapReach {
  import opened CmapList
  import opened CmapArena
  import opened CmapEffects
  import opened CmapThreads
  import opened CmapConcurrent
  import opened CmapSafety

  /** A walk from `a` comes to `r`. */
  ghost predicate From<K, V>(nodes: seq<Node<K, V>>, a: int, r: nat) {
    exists k: nat :: Hop(nodes, a, k) == r
  }

  // ---------- writing one link ----------

  lemma {:induction false} SameLinks<K, V>(nodes: seq<Node<K, V>>, nodes': seq<Node<K, V>>, a: int, n: nat)
    requires forall r: nat :: NextOf(nodes', r) == NextOf(nodes, r)
    ensures Hop(nodes', a, n) == Hop(nodes, a, n)
    decreases n
  {
    hide NextOf;
    if n > 0 && a >= 0 {
      SameLinks(nodes, nodes', NextOf(nodes, a), n - 1);
    }
  }

  lemma SameLinksReach<K, V>(nodes: seq<Node<K, V>>, nodes': seq<Node<K, V>>, r: nat)
    requires forall k: nat :: NextOf(nodes', k) == NextOf(nodes, k)
    ensures Reachable(nodes', r) <==> Reachable(nodes, r)
  {
    hide NextOf, Hop;
    forall n: nat
      ensures Hop(nodes', 0, n) == Hop(nodes, 0, n)
    {
      SameLinks(nodes, nodes', 0, n);
    }
  }

  /** Walks that start behind a node never come to it. */
  lemma BehindUnchanged<K, V>(nodes: seq<Node<K, V>>, linked: set<nat>, at: nat, next: int, n: nat)
    requires LinksOk(nodes, linked) && at < |nodes| && Before(nodes, at, next) && Target(linked, next)
    ensures Hop(WithNext(nodes, at, next), next, n) == Hop(nodes, next, n)
  {
    hide LinksOk, Hop, WithNext;
    forall k: nat | k < n
      ensures Hop(nodes, next, k) != at
    {
      BehindNotMet(nodes, linked, at, next, k);
    }
    HopUnchanged(nodes, at, next, next, n);
  }

  lemma BehindNotMet<K, V>(nodes: seq<Node<K, V>>, linked: set<nat>, at: nat, next: int, k: nat)
    requires LinksOk(nodes, linked) && at < |nodes| && Before(nodes, at, next) && Target(linked, next)
    ensures Hop(nodes, next, k) != at
  {
    if next >= 0 && k > 0 {
      HopsGoForward(nodes, linked, next, k);
    }
  }

  /** A link of a node no walk comes to does not matter. */
  lemma UnmetUnchanged<K, V>(nodes: seq<Node<K, V>>, at: nat, next: int, r: nat)
    requires !Reachable(nodes, at)
    ensures Reachable(WithNext(nodes, at, next), r) <==> Reachable(nodes, r)
  {
    hide Hop, WithNext;
    forall n: nat
      ensures Hop(WithNext(nodes, at, next), 0, n) == Hop(nodes, 0, n)
    {
      HopUnchanged(nodes, at, next, 0, n);
    }
  }

  /** Where a walk is after it has passed `at`, before and after the write. */
  lemma PastTheWrite<K, V>(nodes: seq<Node<K, V>>, linked: set<nat>, at: nat, next: int, p: nat, n: nat)
    requires LinksOk(nodes, linked) && at < |nodes| && Before(nodes, at, next) && Target(linked, next)
    requires Hop(nodes, 0, p) == at
    ensures n <= p ==> Hop(WithNext(nodes, at, next), 0, n) == Hop(nodes, 0, n)
    ensures n > p ==> Hop(WithNext(nodes, at, next), 0, n) == Hop(nodes, next, n - p - 1)
    ensures n > p ==> Hop(nodes, 0, n) == Hop(nodes, NextOf(nodes, at), n - p - 1)
  {
    hide LinksOk, Hop;
    var nodes' := WithNext(nodes, at, next);
    forall k: nat | k < p
      ensures Hop(nodes, 0, k) != at
    {
      if Hop(nodes, 0, k) == at {
        HopsDiffer(nodes, linked, k, p);
      }
    }
    if n <= p {
      HopUnchanged(nodes, at, next, 0, n);
    } else {
      HopUnchanged(nodes, at, next, 0, p);
      HopSplit(nodes', 0, p, n - p);
      HopSplit(nodes, 0, p, n - p);
      OneHop(nodes', at, n - p);
      OneHop(nodes, at, n - p);
      BehindUnchanged(nodes, linked, at, next, n - p - 1);
    }
  }

  lemma OneHop<K, V>(nodes: seq<Node<K, V>>, r: nat, n: nat)
    requires n > 0
    ensures Hop(nodes, r, n) == Hop(nodes, NextOf(nodes, r), n - 1)
  {
  }

  /** What can be reached once `at` links to `next`: what was reached up to `at`, and what `next` leads to. */
  ghost predicate ReachedAfterWrite<K, V>(nodes: seq<Node<K, V>>, at: nat, next: int, r: nat) {
    if Reachable(nodes, at) then (Reachable(nodes, r) && !From(nodes, NextOf(nodes, at), r)) || From(nodes, next, r)
    else Reachable(nodes, r)
  }

  lemma WriteReaches<K, V>(nodes: seq<Node<K, V>>, linked: set<nat>, at: nat, next: int, r: nat)
    requires LinksOk(nodes, linked) && at < |nodes| && Before(nodes, at, next) && Target(linked, next)
    ensures Reachable(WithNext(nodes, at, next), r) <==> ReachedAfterWrite(nodes, at, next, r)
  {
    hide LinksOk, Hop, WithNext, NextOf, Before;
    var nodes' := WithNext(nodes, at, next);
    if p: nat :| Hop(nodes, 0, p) == at {
      if n: nat :| Hop(nodes', 0, n) == r {
        PastTheWrite(nodes, linked, at, next, p, n);
        if n <= p {
          NotBehind(nodes, linked, at, p, n, r);
        }
      }
      if n: nat :| Hop(nodes, 0, n) == r {
        PastTheWrite(nodes, linked, at, next, p, n);
      }
      if j: nat :| Hop(nodes, next, j) == r {
        PastTheWrite(nodes, linked, at, next, p, p + 1 + j);
        assert Hop(nodes', 0, p + 1 + j) == r;
      }
    } else {
      UnmetUnchanged(nodes, at, next, r);
    }
  }

  /** What a walk meets before it passes `at` is not met again behind `at`. */
  lemma NotBehind<K, V>(nodes: seq<Node<K, V>>, linked: set<nat>, at: nat, p: nat, n: nat, r: nat)
    requires LinksOk(nodes, linked) && at < |nodes| && n <= p && Hop(nodes, 0, p) == at && Hop(nodes, 0, n) == r
    ensures !From(nodes, NextOf(nodes, at), r)
  {
    hide LinksOk, Hop, NextOf;
    forall j: nat
      ensures Hop(nodes, NextOf(nodes, at), j) != r
    {
      HopSplit(nodes, 0, p, j + 1);
      OneHop(nodes, at, j + 1);
      HopsDiffer(nodes, linked, n, p + (j + 1));
    }
  }

  // ---------- the link a step writes ----------

  datatype Write = NoWrite | Write(at: nat, next: int)

  /** What the innermost `next` is about to return, if it is. */
  ghost function Returning<K, V>(nodes: seq<Node<K, V>>, spot: Spot): (r: (bool, int)) {
    match spot
    case Load(self) => (NextOf(nodes, self) < 0, NIL)
    case Check(self, n) => (!DeletedAt(nodes, n), n)
    case Swap(self, n, m) => (false, NIL)
  }

  /** A step writes at most one link: a successful swing of `next`, the link of a new node, or its insertion. */
  ghost function WriteOf<K, V>(s: State<K, V>, i: nat, a: Action<K, V>): Write {
    if i >= |s.threads| || a.Begin? then NoWrite
    else
      match s.threads[i]
      case Linking(key, value, alloc, left, right) =>
        if NextOf(s.nodes, left) == right then Write(left, alloc) else NoWrite
      case Calling(frames, spot, cont) =>
        if spot.Swap? then if NextOf(s.nodes, spot.self) == spot.n then Write(spot.self, spot.m) else NoWrite
        else if frames == [] && cont.BeforeAdd? && Returning(s.nodes, spot) == (true, cont.right) then Write(cont.alloc, cont.right)
        else NoWrite
      case _ => NoWrite
  }

  ghost predicate LinkAfter<K, V>(s: State<K, V>, w: Write, nodes': seq<Node<K, V>>, r: nat) {
    NextOf(nodes', r) == if w.Write? && r == w.at && r < |s.nodes| then w.next else NextOf(s.nodes, r)
  }

  lemma StepLinks<K, V>(s: State<K, V>, i: nat, a: Action<K, V>, hash: K -> Word, r: nat)
    ensures LinkAfter(s, WriteOf(s, i, a), Step(s, i, a, hash).nodes, r)
  {
    hide HashAt, HoldsKey, Usable;
    if i < |s.threads| && a.Go? {
      match s.threads[i]
      case Calling(frames, spot, cont) => CallLinks(s, i, a, frames, spot, cont, hash, r);
      case _ =>
    }
  }

  /** `addBefore` stores the link of its new node once `next` has returned what it expects. */
  ghost function ReturnWrites<K, V>(cont: Cont<K, V>, v: int): Write {
    if cont.BeforeAdd? && v == cont.right then Write(cont.alloc, cont.right) else NoWrite
  }

  lemma ReturnLinks<K, V>(s: State<K, V>, i: nat, cont: Cont<K, V>, v: int, hash: K -> Word, r: nat)
    requires i < |s.threads|
    ensures LinkAfter(s, ReturnWrites(cont, v), Returned(s, i, cont, v, hash).nodes, r)
  {
    hide HashAt, HoldsKey, CallNext, FromHead;
  }

  lemma CallLinks<K, V>(s: State<K, V>, i: nat, a: Action<K, V>, frames: seq<Frame>, spot: Spot, cont: Cont<K, V>, hash: K -> Word, r: nat)
    requires i < |s.threads| && a.Go? && s.threads[i] == Calling(frames, spot, cont)
    ensures LinkAfter(s, WriteOf(s, i, a), NextStep(s, i, frames, spot, cont, hash).nodes, r)
  {
    hide HashAt, HoldsKey, Usable, Returned, DeletedAt;
    match spot
    case Load(self) => ReturnLinks(s, i, cont, NIL, hash, r);
    case Check(self, n) => ReturnLinks(s, i, cont, n, hash, r);
    case Swap(self, n, m) =>
  }

  lemma MoreLinked<K, V>(nodes: seq<Node<K, V>>, linked: set<nat>, alloc: nat)
    requires LinksOk(nodes, linked) && 0 < alloc < |nodes|
    ensures LinksOk(nodes, linked + {alloc})
  {
    forall r | 0 <= r < |nodes|
      ensures LinkOk(nodes, linked + {alloc}, r)
    {
      assert LinkOk(nodes, linked, r);
    }
  }

  /** The written link runs forward; it is in the list, or its node is still private, or it leads to the new node. */
  lemma WriteGoesForward<K, V>(s: State<K, V>, i: nat, a: Action<K, V>, hash: K -> Word) returns (linked: set<nat>)
    requires Inv(s, hash) && WriteOf(s, i, a).Write?
    ensures var w := WriteOf(s, i, a);
            LinksOk(s.nodes, linked) && w.at < |s.nodes| && Before(s.nodes, w.at, w.next) && Target(linked, w.next)
            && (w.at == 0 || w.at in s.linked || w.at == Private(s.threads[i]))
  {
    hide LinksOk, NodesOk, MarksOk, ThreadsOk, CountOk, FramesOk, NextOf, DeletedAt;
    ThreadKnows(s, i, hash);
    linked := s.linked;
    match s.threads[i]
    case Linking(key, value, alloc, left, right) =>
      MoreLinked(s.nodes, s.linked, alloc);
      linked := s.linked + {alloc};
    case _ =>
  }

  /** What can be reached after a step. */
  ghost predicate ReachedNext<K, V>(s: State<K, V>, i: nat, a: Action<K, V>, r: nat) {
    match WriteOf(s, i, a)
    case NoWrite => Reachable(s.nodes, r)
    case Write(at, next) => ReachedAfterWrite(s.nodes, at, next, r)
  }

  lemma StepReaches<K, V>(s: State<K, V>, i: nat, a: Action<K, V>, hash: K -> Word, r: nat)
    requires Inv(s, hash)
    ensures Reachable(Step(s, i, a, hash).nodes, r) <==> ReachedNext(s, i, a, r)
  {
    hide Inv, LinksOk, Step, WriteOf, NextOf, ReachedAfterWrite, Reachable, Before;
    var w, nodes' := WriteOf(s, i, a), Step(s, i, a, hash).nodes;
    forall k: nat
      ensures LinkAfter(s, w, nodes', k)
    {
      StepLinks(s, i, a, hash, k);
    }
    match w
    case NoWrite =>
      forall k: nat
        ensures NextOf(nodes', k) == NextOf(s.nodes, k)
      {
        assert LinkAfter(s, w, nodes', k);
      }
      SameLinksReach(s.nodes, nodes', r);
    case Write(at, next) =>
      var linked := WriteGoesForward(s, i, a, hash);
      WriteReaches(s.nodes, linked, at, next, r);
      forall k: nat
        ensures NextOf(nodes', k) == NextOf(WithNext(s.nodes, at, next), k)
      {
        assert LinkAfter(s, w, nodes', k);
        WrittenLink(s.nodes, at, next, k);
      }
      SameLinksReach(WithNext(s.nodes, at, next), nodes', r);
  }

  lemma WrittenLink<K, V>(nodes: seq<Node<K, V>>, at: nat, next: int, k: nat)
    requires at < |nodes|
    ensures NextOf(WithNext(nodes, at, next), k) == if k == at then next else NextOf(nodes, k)
  {
  }

  // ---------- a node about to be linked leads where it should ----------

  ghost predicate ReadyAt<K, V>(nodes: seq<Node<K, V>>, pc: Pc<K, V>) {
    pc.Linking? ==> NextOf(nodes, pc.alloc) == pc.right
  }

  ghost predicate Ready<K, V>(s: State<K, V>) {
    forall i :: 0 <= i < |s.threads| ==> ReadyAt(s.nodes, s.threads[i])
  }

  /** Only thread `i` moves. */
  ghost predicate OnlyMoves<K, V>(s: State<K, V>, s': State<K, V>, i: nat) {
    |s'.threads| == |s.threads| && forall j :: 0 <= j < |s.threads| && j != i ==> s'.threads[j] == s.threads[j]
  }

  lemma ReturnedMoves<K, V>(s: State<K, V>, i: nat, cont: Cont<K, V>, v: int, hash: K -> Word)
    requires i < |s.threads|
    ensures OnlyMoves(s, Returned(s, i, cont, v, hash), i)
  {
    hide HashAt, HoldsKey, WithNext;
  }

  lemma CallMoves<K, V>(s: State<K, V>, i: nat, frames: seq<Frame>, spot: Spot, cont: Cont<K, V>, hash: K -> Word)
    requires i < |s.threads|
    ensures OnlyMoves(s, NextStep(s, i, frames, spot, cont, hash), i)
  {
    hide HashAt, HoldsKey, Returned, NextOf, DeletedAt, WithNext;
    match spot
    case Load(self) => ReturnedMoves(s, i, cont, NIL, hash);
    case Check(self, n) => ReturnedMoves(s, i, cont, n, hash);
    case Swap(self, n, m) =>
  }

  lemma WentMoves<K, V>(s: State<K, V>, i: nat, choice: int, hash: K -> Word)
    requires i < |s.threads|
    ensures OnlyMoves(s, Went(s, i, choice, hash), i)
  {
    hide HashAt, HoldsKey, Usable, NextOf, DeletedAt, NextStep, CallNext, FromHead, AddWrapped, WithNext, WithStored, WithMark;
    if s.threads[i].Calling? {
      CallMoves(s, i, s.threads[i].frames, s.threads[i].spot, s.threads[i].cont, hash);
    }
  }

  lemma StepMoves<K, V>(s: State<K, V>, i: nat, a: Action<K, V>, hash: K -> Word)
    ensures OnlyMoves(s, Step(s, i, a, hash), i)
  {
    hide Went;
    if i < |s.threads| && a.Go? {
      WentMoves(s, i, a.choice, hash);
    }
  }

  /** Only the step that writes the private link makes a thread ready to link. */
  ghost predicate NewlyReady<K, V>(s: State<K, V>, i: nat, a: Action<K, V>, pc: Pc<K, V>) {
    pc.Linking? ==> WriteOf(s, i, a) == Write(pc.alloc, pc.right)
  }

  lemma BecomesReady<K, V>(s: State<K, V>, i: nat, a: Action<K, V>, hash: K -> Word)
    requires i < |s.threads| && |Step(s, i, a, hash).threads| == |s.threads|
    ensures a.Begin? ==> Step(s, i, a, hash).threads[i].Linking? ==> Step(s, i, a, hash) == s
    ensures a.Go? ==> NewlyReady(s, i, a, Step(s, i, a, hash).threads[i])
  {
    hide HashAt, HoldsKey, Usable, NextOf, DeletedAt, NextStep, AddWrapped, WithNext, WithStored, WithMark;
    if a.Go? && s.threads[i].Calling? {
      CallBecomesReady(s, i, a, s.threads[i].frames, s.threads[i].spot, s.threads[i].cont, hash);
    }
  }

  lemma ReturnBecomesReady<K, V>(s: State<K, V>, i: nat, cont: Cont<K, V>, v: int, hash: K -> Word)
    requires i < |s.threads|
    ensures |Returned(s, i, cont, v, hash).threads| == |s.threads|
    ensures var pc := Returned(s, i, cont, v, hash).threads[i];
            pc.Linking? ==> ReturnWrites(cont, v) == Write(pc.alloc, pc.right)
  {
    hide HashAt, HoldsKey, WithNext;
  }

  lemma CallBecomesReady<K, V>(s: State<K, V>, i: nat, a: Action<K, V>, frames: seq<Frame>, spot: Spot, cont: Cont<K, V>, hash: K -> Word)
    requires i < |s.threads| && a.Go? && s.threads[i] == Calling(frames, spot, cont)
    ensures |NextStep(s, i, frames, spot, cont, hash).threads| == |s.threads|
    ensures NewlyReady(s, i, a, NextStep(s, i, frames, spot, cont, hash).threads[i])
  {
    hide HashAt, HoldsKey, Usable, Returned, NextOf, DeletedAt, WithNext;
    match spot
    case Load(self) => ReturnBecomesReady(s, i, cont, NIL, hash);
    case Check(self, n) => ReturnBecomesReady(s, i, cont, n, hash);
    case Swap(self, n, m) =>
  }

  lemma WriteMissesPrivate<K, V>(s: State<K, V>, i: nat, a: Action<K, V>, hash: K -> Word, j: nat)
    requires Inv(s, hash) && i < |s.threads| && j < |s.threads| && j != i && s.threads[j].Linking?
    ensures WriteOf(s, i, a).Write? ==> WriteOf(s, i, a).at != s.threads[j].alloc
  {
    hide LinksOk, NodesOk, MarksOk, CountOk, PcOk, WriteOf, Before;
    if WriteOf(s, i, a).Write? {
      var linked := WriteGoesForward(s, i, a, hash);
      assert Private(s.threads[j]) == s.threads[j].alloc;
    }
  }

  lemma StepKeepsReady<K, V>(s: State<K, V>, i: nat, a: Action<K, V>, hash: K -> Word)
    requires Inv(s, hash) && Ready(s)
    ensures Ready(Step(s, i, a, hash))
  {
    hide Inv, Step, WriteOf, NextOf;
    if i >= |s.threads| {
      NoThread(s, i, a, hash);
      return;
    }
    var s' := Step(s, i, a, hash);
    StepMoves(s, i, a, hash);
    forall j | 0 <= j < |s'.threads|
      ensures ReadyAt(s'.nodes, s'.threads[j])
    {
      if s'.threads[j].Linking? {
        StepLinks(s, i, a, hash, s'.threads[j].alloc);
        if j == i {
          BecomesReady(s, i, a, hash);
          if a.Go? {
            var linked := WriteGoesForward(s, i, a, hash);
          }
        } else {
          WriteMissesPrivate(s, i, a, hash, j);
        }
        assert ReadyAt(s.nodes, s.threads[j]);
      }
    }
  }

  lemma NoThread<K, V>(s: State<K, V>, i: nat, a: Action<K, V>, hash: K -> Word)
    requires i >= |s.threads|
    ensures Step(s, i, a, hash) == s && WriteOf(s, i, a) == NoWrite
  {
  }

  // ---------- when a step drops a node ----------

  /** Thread `i` is about to swing the link of `self` from `n` to `m`, and `r` lies behind `n` but not behind `m`. */
  ghost predicate StaleSwap<K, V>(s: State<K, V>, i: nat, a: Action<K, V>, r: nat) {
    && i < |s.threads| && a.Go? && s.threads[i].Calling? && s.threads[i].spot.Swap?
    && var spot := s.threads[i].spot;
    NextOf(s.nodes, spot.self) == spot.n && Reachable(s.nodes, spot.self)
    && From(s.nodes, spot.n, r) && !From(s.nodes, spot.m, r)
  }

  lemma PrivateUnmet<K, V>(s: State<K, V>, i: nat, hash: K -> Word)
    requires Inv(s, hash) && i < |s.threads| && Private(s.threads[i]) >= 0
    ensures !Reachable(s.nodes, Private(s.threads[i]))
  {
    hide LinksOk, NodesOk, MarksOk, ThreadsOk, CountOk, PcOk, Private, Hop;
    ThreadKnows(s, i, hash);
    forall n: nat
      ensures Hop(s.nodes, 0, n) != Private(s.threads[i])
    {
      HopInRange(s.nodes, s.linked, n);
      HopZero(s.nodes);
    }
  }

  lemma HopZero<K, V>(nodes: seq<Node<K, V>>)
    ensures Hop(nodes, 0, 0) == 0
  {
  }

  lemma FromNext<K, V>(nodes: seq<Node<K, V>>, a: nat, r: nat)
    requires From(nodes, NextOf(nodes, a), r)
    ensures From(nodes, a, r)
  {
    hide NextOf, Hop;
    var k: nat :| Hop(nodes, NextOf(nodes, a), k) == r;
    OneHop(nodes, a, k + 1);
  }

  /** What a write other than a swing of `next` does to nodes already in the list: nothing. */
  lemma OtherWritesKeep<K, V>(s: State<K, V>, i: nat, a: Action<K, V>, hash: K -> Word, r: nat)
    requires Inv(s, hash) && Ready(s) && Reachable(s.nodes, r) && WriteOf(s, i, a).Write?
    requires !(s.threads[i].Calling? && s.threads[i].spot.Swap?)
    ensures ReachedAfterWrite(s.nodes, WriteOf(s, i, a).at, WriteOf(s, i, a).next, r)
  {
    hide Inv, Reachable, From, NextOf, DeletedAt;
    match s.threads[i]
    case Linking(key, value, alloc, left, right) =>
      assert ReadyAt(s.nodes, s.threads[i]);
      if From(s.nodes, NextOf(s.nodes, left), r) {
        FromNext(s.nodes, alloc, r);
      }
    case Calling(frames, spot, cont) => PrivateUnmet(s, i, hash);
  }

  /** A step drops a node from the list exactly if it is a swing of `next` past that node. */
  lemma StepDropsIff<K, V>(s: State<K, V>, i: nat, a: Action<K, V>, hash: K -> Word, r: nat)
    requires Inv(s, hash) && Ready(s) && Reachable(s.nodes, r)
    ensures !Reachable(Step(s, i, a, hash).nodes, r) <==> StaleSwap(s, i, a, r)
  {
    hide Inv, Ready, Step, Reachable, From, NextOf, DeletedAt;
    StepReaches(s, i, a, hash, r);
    if WriteOf(s, i, a).Write? && !(s.threads[i].Calling? && s.threads[i].spot.Swap?) {
      OtherWritesKeep(s, i, a, hash, r);
    }
  }

  /** The list keeps all its live nodes at every step but one: a swing of `next` past a live node that was linked in
      behind the deleted one meanwhile. */
  lemma LiveNodesStayIff<K, V>(s: State<K, V>, i: nat, a: Action<K, V>, hash: K -> Word)
    requires Inv(s, hash) && Ready(s)
    ensures (forall r: nat :: Reachable(s.nodes, r) && !DeletedAt(s.nodes, r) ==> Reachable(Step(s, i, a, hash).nodes, r))
            <==> !(exists r: nat :: StaleSwap(s, i, a, r) && !DeletedAt(s.nodes, r))
  {
    hide Inv, Ready, Step, Reachable, From, NextOf, StaleSwap;
    forall r: nat | StaleSwap(s, i, a, r)
      ensures Reachable(s.nodes, r)
    {
      StaleIsReached(s, i, a, hash, r);
    }
    forall r: nat | Reachable(s.nodes, r)
      ensures !Reachable(Step(s, i, a, hash).nodes, r) <==> StaleSwap(s, i, a, r)
    {
      StepDropsIff(s, i, a, hash, r);
    }
  }

  lemma StaleIsReached<K, V>(s: State<K, V>, i: nat, a: Action<K, V>, hash: K -> Word, r: nat)
    requires StaleSwap(s, i, a, r)
    ensures Reachable(s.nodes, r)
  {
    hide NextOf, Hop;
    var self := s.threads[i].spot.self;
    var p: nat :| Hop(s.nodes, 0, p) == self;
    var k: nat :| Hop(s.nodes, NextOf(s.nodes, self), k) == r;
    HopSplit(s.nodes, 0, p, k + 1);
    OneHop(s.nodes, self, k + 1);
  }

  // ---------- when a run drops a node ----------

  /** Thread `i` links `r` behind a node that is no longer in the list. */
  ghost predicate LostInsertion<K, V>(s: State<K, V>, i: nat, a: Action<K, V>, r: nat) {
    && i < |s.threads| && a.Go? && s.threads[i].Linking? && s.threads[i].alloc == r
    && NextOf(s.nodes, s.threads[i].left) == s.threads[i].right && !Reachable(s.nodes, s.threads[i].left)
  }

  ghost predicate Loses<K, V>(s: State<K, V>, i: nat, a: Action<K, V>, r: nat) {
    LostInsertion(s, i, a, r) || StaleSwap(s, i, a, r)
  }

  ghost function After<K, V>(zeroKey: K, zeroValue: V, n: nat, steps: seq<(nat, Action<K, V>)>, k: nat, hash: K -> Word): State<K, V>
    requires k <= |steps|
  {
    Run(zeroKey, zeroValue, n, steps[..k], hash)
  }

  lemma NextState<K, V>(zeroKey: K, zeroValue: V, n: nat, steps: seq<(nat, Action<K, V>)>, k: nat, hash: K -> Word)
    requires k < |steps|
    ensures After(zeroKey, zeroValue, n, steps, k + 1, hash)
         == Step(After(zeroKey, zeroValue, n, steps, k, hash), steps[k].0, steps[k].1, hash)
  {
    hide Step;
    assert steps[..k + 1][..k] == steps[..k];
  }

  lemma {:induction false} AlwaysReady<K, V>(zeroKey: K, zeroValue: V, n: nat, steps: seq<(nat, Action<K, V>)>, k: nat, hash: K -> Word)
    requires hash(zeroKey) != 0 && k <= |steps|
    ensures Inv(After(zeroKey, zeroValue, n, steps, k, hash), hash) && Ready(After(zeroKey, zeroValue, n, steps, k, hash))
  {
    hide Inv, Step;
    if k == 0 {
      InitialInv(zeroKey, zeroValue, n, hash);
    } else {
      hide Ready, After;
      AlwaysReady(zeroKey, zeroValue, n, steps, k - 1, hash);
      NextState(zeroKey, zeroValue, n, steps, k - 1, hash);
      var s, e := After(zeroKey, zeroValue, n, steps, k - 1, hash), steps[k - 1];
      StepKeepsInv(s, e.0, e.1, hash);
      StepKeepsReady(s, e.0, e.1, hash);
    }
  }

  /** The step writes a link that leads from a node in the list to `r`. */
  ghost predicate Regains<K, V>(s: State<K, V>, i: nat, a: Action<K, V>, r: nat) {
    var w := WriteOf(s, i, a);
    w.Write? && Reachable(s.nodes, w.at) && From(s.nodes, w.next, r)
  }

  /** A node that is not in the list is there after a step exactly if the step links back to it. */
  lemma RegainsIff<K, V>(s: State<K, V>, i: nat, a: Action<K, V>, hash: K -> Word, r: nat)
    requires Inv(s, hash) && !Reachable(s.nodes, r)
    ensures Reachable(Step(s, i, a, hash).nodes, r) <==> Regains(s, i, a, r)
  {
    hide Inv, Step, Reachable, From, WriteOf;
    StepReaches(s, i, a, hash, r);
  }

  /** Step `k` of the run loses `r`, and no later step links back to it. */
  ghost predicate LostAt<K, V>(zeroKey: K, zeroValue: V, n: nat, steps: seq<(nat, Action<K, V>)>, k: nat, upTo: nat, r: nat, hash: K -> Word)
    requires k < upTo <= |steps|
  {
    Loses(After(zeroKey, zeroValue, n, steps, k, hash), steps[k].0, steps[k].1, r)
    && forall j :: k < j < upTo ==> !Regains(After(zeroKey, zeroValue, n, steps, j, hash), steps[j].0, steps[j].1, r)
  }

  /** A lost node cannot be reached right after the step that loses it. */
  lemma LosesMeansGone<K, V>(s: State<K, V>, i: nat, a: Action<K, V>, hash: K -> Word, r: nat)
    requires Inv(s, hash) && Ready(s) && Loses(s, i, a, r)
    ensures !Reachable(Step(s, i, a, hash).nodes, r)
  {
    hide Inv, Ready, Step, Reachable, From, NextOf, DeletedAt;
    if StaleSwap(s, i, a, r) {
      StaleIsReached(s, i, a, hash, r);
      StepDropsIff(s, i, a, hash, r);
    } else {
      PrivateUnmet(s, i, hash);
      StepReaches(s, i, a, hash, r);
    }
  }

  lemma {:induction false} GoneUpTo<K, V>(zeroKey: K, zeroValue: V, n: nat, steps: seq<(nat, Action<K, V>)>, k: nat, upTo: nat, r: nat, hash: K -> Word)
    requires hash(zeroKey) != 0 && k < upTo <= |steps|
    requires LostAt(zeroKey, zeroValue, n, steps, k, upTo, r, hash)
    ensures !Reachable(After(zeroKey, zeroValue, n, steps, upTo, hash).nodes, r)
  {
    hide Inv, Ready, Step, Reachable, After, Loses, Regains;
    var s, e := After(zeroKey, zeroValue, n, steps, upTo - 1, hash), steps[upTo - 1];
    NextState(zeroKey, zeroValue, n, steps, upTo - 1, hash);
    AlwaysReady(zeroKey, zeroValue, n, steps, upTo - 1, hash);
    if k == upTo - 1 {
      LosesMeansGone(s, e.0, e.1, hash, r);
    } else {
      GoneUpTo(zeroKey, zeroValue, n, steps, k, upTo - 1, r, hash);
      RegainsIff(s, e.0, e.1, hash, r);
    }
  }

  /** The step that links a node in, and whether it can be found then. */
  lemma LinkedByStep<K, V>(s: State<K, V>, i: nat, a: Action<K, V>, hash: K -> Word, r: nat)
    requires Inv(s, hash) && r !in s.linked && r in Step(s, i, a, hash).linked
    ensures Reachable(Step(s, i, a, hash).nodes, r) || LostInsertion(s, i, a, r)
  {
    hide Inv, Reachable, Hop, NextOf, HashAt, HoldsKey, Usable, WithNext, DeletedAt, NextStep;
    LinksOnlyItsOwn(s, i, a, hash, r);
    InsertedReachableIff(s, i, a.choice, hash);
  }

  lemma LinksOnlyItsOwn<K, V>(s: State<K, V>, i: nat, a: Action<K, V>, hash: K -> Word, r: nat)
    requires r !in s.linked && r in Step(s, i, a, hash).linked
    ensures i < |s.threads| && a.Go? && s.threads[i].Linking? && s.threads[i].alloc == r
    ensures NextOf(s.nodes, s.threads[i].left) == s.threads[i].right
  {
    hide HashAt, HoldsKey, Usable, NextOf, DeletedAt, WithNext, NextStep, AddWrapped;
    if i < |s.threads| && a.Go? && s.threads[i].Calling? {
      CallLinksNothing(s, i, s.threads[i].frames, s.threads[i].spot, s.threads[i].cont, hash);
    }
  }

  lemma CallLinksNothing<K, V>(s: State<K, V>, i: nat, frames: seq<Frame>, spot: Spot, cont: Cont<K, V>, hash: K -> Word)
    requires i < |s.threads|
    ensures NextStep(s, i, frames, spot, cont, hash).linked == s.linked
  {
    hide HashAt, HoldsKey, NextOf, DeletedAt, WithNext;
  }

  /** A linked node is missing from the list exactly if some step of the run lost it, by linking it in behind a node that
      had left the list or by swinging a link past it, and no later step linked back to it. */
  lemma LostIff<K, V>(zeroKey: K, zeroValue: V, n: nat, steps: seq<(nat, Action<K, V>)>, upTo: nat, r: nat, hash: K -> Word)
    requires hash(zeroKey) != 0 && upTo <= |steps|
    requires r in After(zeroKey, zeroValue, n, steps, upTo, hash).linked
    ensures !Reachable(After(zeroKey, zeroValue, n, steps, upTo, hash).nodes, r)
            <==> exists k: nat :: k < upTo && LostAt(zeroKey, zeroValue, n, steps, k, upTo, r, hash)
  {
    hide Reachable, After, LostAt;
    if !Reachable(After(zeroKey, zeroValue, n, steps, upTo, hash).nodes, r) {
      var k := MissingWasLost(zeroKey, zeroValue, n, steps, upTo, r, hash);
    }
    forall k: nat | k < upTo && LostAt(zeroKey, zeroValue, n, steps, k, upTo, r, hash)
      ensures !Reachable(After(zeroKey, zeroValue, n, steps, upTo, hash).nodes, r)
    {
      GoneUpTo(zeroKey, zeroValue, n, steps, k, upTo, r, hash);
    }
  }

  lemma {:induction false} MissingWasLost<K, V>(zeroKey: K, zeroValue: V, n: nat, steps: seq<(nat, Action<K, V>)>, upTo: nat, r: nat, hash: K -> Word)
    returns (k: nat)
    requires hash(zeroKey) != 0 && upTo <= |steps|
    requires r in After(zeroKey, zeroValue, n, steps, upTo, hash).linked
    requires !Reachable(After(zeroKey, zeroValue, n, steps, upTo, hash).nodes, r)
    ensures k < upTo && LostAt(zeroKey, zeroValue, n, steps, k, upTo, r, hash)
  {
    hide Inv, Ready, Step, Reachable, After, Loses, Regains;
    if upTo == 0 {
      NothingLinked(zeroKey, zeroValue, n, steps, hash);
      assert false;
    }
    var s, e := After(zeroKey, zeroValue, n, steps, upTo - 1, hash), steps[upTo - 1];
    NextState(zeroKey, zeroValue, n, steps, upTo - 1, hash);
    AlwaysReady(zeroKey, zeroValue, n, steps, upTo - 1, hash);
    k := upTo - 1;
    if r !in s.linked {
      LinkedByStep(s, e.0, e.1, hash, r);
      IsLoss(s, e.0, e.1, r);
    } else if Reachable(s.nodes, r) {
      StepDropsIff(s, e.0, e.1, hash, r);
      IsLoss(s, e.0, e.1, r);
    } else {
      k := MissingWasLost(zeroKey, zeroValue, n, steps, upTo - 1, r, hash);
      RegainsIff(s, e.0, e.1, hash, r);
    }
  }

  lemma IsLoss<K, V>(s: State<K, V>, i: nat, a: Action<K, V>, r: nat)
    ensures Loses(s, i, a, r) <==> LostInsertion(s, i, a, r) || StaleSwap(s, i, a, r)
  {
  }

  lemma NothingLinked<K, V>(zeroKey: K, zeroValue: V, n: nat, steps: seq<(nat, Action<K, V>)>, hash: K -> Word)
    ensures After(zeroKey, zeroValue, n, steps, 0, hash).linked == {}
  {
  }
}
