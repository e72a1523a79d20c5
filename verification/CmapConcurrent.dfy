/**
 * Safety of the concurrent map under every interleaving of its threads.
 *
 * The invariant relates the shared list to what every thread holds: the nodes it has linked, the node it has allocated
 * but not linked yet, the frames of its pending `next` calls, and the count it still owes. Each kind of step keeps it.
 */
module CmapConcurrent {
  import opened CmapList
  import opened CmapArena
  import opened CmapEffects
  import opened CmapThreads

  // ---------- the invariant ----------

  /** The order along which every link runs: by hash, then by creation. */
  ghost predicate Before<K, V>(nodes: seq<Node<K, V>>, a: nat, b: int) {
    b == NIL || (0 <= b && (HashAt(nodes, a) < HashAt(nodes, b) || (HashAt(nodes, a) == HashAt(nodes, b) && a < b)))
  }

  ghost predicate Target(linked: set<nat>, r: int) {
    r == NIL || (r >= 0 && r in linked)
  }

  ghost predicate Here(linked: set<nat>, r: int) {
    r == 0 || (r > 0 && r in linked)
  }

  ghost predicate LinkOk<K, V>(nodes: seq<Node<K, V>>, linked: set<nat>, r: nat) {
    Before(nodes, r, NextOf(nodes, r)) && Target(linked, NextOf(nodes, r))
  }

  ghost predicate InRange(linked: set<nat>, n: nat) {
    forall r :: r in linked ==> 0 < r < n
  }

  ghost predicate LinksOk<K, V>(nodes: seq<Node<K, V>>, linked: set<nat>) {
    InRange(linked, |nodes|) && forall r :: 0 <= r < |nodes| ==> LinkOk(nodes, linked, r)
  }

  /** Nodes carry the hash of their key and a value some `Set` of that key brought. */
  ghost predicate NodeOk<K, V>(nodes: seq<Node<K, V>>, stored: set<(K, V)>, r: nat, hash: K -> Word)
    requires r < |nodes|
  {
    nodes[r].keyHash == hash(nodes[r].key) && (nodes[r].key, nodes[r].value) in stored
  }

  ghost predicate NodesOk<K, V>(nodes: seq<Node<K, V>>, stored: set<(K, V)>, hash: K -> Word) {
    0 < |nodes| && nodes[0].keyHash == 0 && hash(nodes[0].key) != 0
    && forall r :: 0 < r < |nodes| ==> NodeOk(nodes, stored, r, hash)
  }

  /** The history of marks lists exactly the deleted nodes, each once, and only linked ones. */
  ghost predicate MarksOk<K, V>(nodes: seq<Node<K, V>>, linked: set<nat>, marks: seq<nat>) {
    (forall i, j :: 0 <= i < j < |marks| ==> marks[i] != marks[j])
    && (forall i :: 0 <= i < |marks| ==> marks[i] in linked)
    && (forall r :: 0 <= r < |nodes| ==> (nodes[r].deleted <==> r in marks))
  }

  /** The pending calls of `next`, outermost first: each asked the deleted node it found. */
  ghost predicate FramesOk<K, V>(nodes: seq<Node<K, V>>, linked: set<nat>, frames: seq<Frame>, base: nat, inner: nat) {
    if frames == [] then inner == base
    else
      var f := frames[|frames| - 1];
      f.n == inner && f.n in linked && Here(linked, f.self) && Before(nodes, f.self, f.n)
      && FramesOk(nodes, linked, frames[..|frames| - 1], base, f.self)
  }

  ghost predicate SpotOk<K, V>(nodes: seq<Node<K, V>>, linked: set<nat>, spot: Spot) {
    Here(linked, spot.self)
    && match spot
       case Load(self) => true
       case Check(self, n) => n in linked && Before(nodes, self, n)
       case Swap(self, n, m) => n in linked && Before(nodes, self, n) && Target(linked, m) && Before(nodes, n, m)
  }

  ghost predicate AllocOk<K, V>(nodes: seq<Node<K, V>>, linked: set<nat>, key: K, alloc: nat, left: nat, right: int, hash: K -> Word) {
    left < alloc < |nodes| && HashAt(nodes, alloc) == hash(key) && HashAt(nodes, left) <= hash(key)
    && Target(linked, right) && (right != NIL ==> hash(key) < HashAt(nodes, right))
  }

  ghost predicate ContOk<K, V>(nodes: seq<Node<K, V>>, linked: set<nat>, stored: set<(K, V)>, cont: Cont<K, V>, base: nat, hash: K -> Word) {
    match cont
    case SearchRight(key, value, prev, curr) =>
      base == curr && (key, value) in stored && (prev == NIL || (Here(linked, prev) && HashAt(nodes, prev) <= hash(key)))
    case SearchNext(key, value, left) => base == left && (key, value) in stored && HashAt(nodes, left) <= hash(key)
    case BeforeAdd(key, value, alloc, left, right) =>
      base == left && (key, value) in stored && AllocOk(nodes, linked, key, alloc, left, right, hash)
    case DelNext(key) => true
    case UnindexNext(item, version) => item in linked
    case GrowNext => true
  }

  ghost predicate PcOk<K, V>(nodes: seq<Node<K, V>>, linked: set<nat>, stored: set<(K, V)>, pc: Pc<K, V>, hash: K -> Word) {
    match pc
    case Idle => true
    case SetIndex(key, value) => (key, value) in stored
    case Calling(frames, spot, cont) =>
      SpotOk(nodes, linked, spot)
      && var base := if frames == [] then spot.self else frames[0].self;
      FramesOk(nodes, linked, frames, base, spot.self) && ContOk(nodes, linked, stored, cont, base, hash)
    case Linking(key, value, alloc, left, right) =>
      (key, value) in stored && Here(linked, left) && AllocOk(nodes, linked, key, alloc, left, right, hash)
    case Storing(key, value, curr) => (key, value) in stored && curr in linked && HoldsKey(nodes, curr, key)
    case Counting => true
    case Indexing => true
    case GetIndex(key) => true
    case GetAt(key, at) => Target(linked, at)
    case GetFlag(key, elem, value) => elem in linked && (key, value) in stored
    case DelIndex(key) => true
    case DelAt(key, existing) => Target(linked, existing)
    case Marking(item) => item in linked
    case UnindexLoad(item) => item in linked
    case CheckVersion(item, version) => item in linked
    case Uncounting => true
    case Resizing => true
    case Publishing => true
  }

  /** The node a thread has made but not linked yet. */
  ghost function Private<K, V>(pc: Pc<K, V>): int {
    match pc
    case Calling(frames, spot, BeforeAdd(key, value, alloc, left, right)) => alloc
    case Linking(key, value, alloc, left, right) => alloc
    case _ => NIL
  }

  /** What a thread still owes the item counter. */
  ghost function Owed<K, V>(pc: Pc<K, V>): int {
    match pc
    case Counting => 1
    case Calling(frames, spot, UnindexNext(item, version)) => -1
    case UnindexLoad(item) => -1
    case CheckVersion(item, version) => -1
    case Uncounting => -1
    case _ => 0
  }

  ghost function AllOwed<K, V>(threads: seq<Pc<K, V>>): int {
    if threads == [] then 0 else Owed(threads[0]) + AllOwed(threads[1..])
  }

  ghost predicate OwnOk<K, V>(n: nat, linked: set<nat>, threads: seq<Pc<K, V>>) {
    (forall i :: 0 <= i < |threads| && Private(threads[i]) != NIL ==> 0 < Private(threads[i]) < n && Private(threads[i]) !in linked)
    && (forall i, j :: 0 <= i < j < |threads| && Private(threads[i]) == Private(threads[j]) ==> Private(threads[i]) == NIL)
  }

  ghost predicate ThreadsOk<K, V>(nodes: seq<Node<K, V>>, linked: set<nat>, stored: set<(K, V)>, threads: seq<Pc<K, V>>, hash: K -> Word) {
    (forall i :: 0 <= i < |threads| ==> PcOk(nodes, linked, stored, threads[i], hash))
    && OwnOk(|nodes|, linked, threads)
  }

  /** The item counter, up to what the threads still owe, is linked minus deleted nodes, as a word. */
  ghost predicate CountOk<K, V>(numItems: nat, linked: set<nat>, marks: seq<nat>, threads: seq<Pc<K, V>>) {
    numItems == AddWrapped(0, |linked| - |marks| - AllOwed(threads))
  }

  /** The part of the invariant about shared memory and history. */
  ghost predicate SharedOk<K, V>(s: State<K, V>, hash: K -> Word) {
    LinksOk(s.nodes, s.linked) && NodesOk(s.nodes, s.stored, hash) && MarksOk(s.nodes, s.linked, s.marks)
    && s.answers <= s.stored
  }

  ghost predicate Inv<K, V>(s: State<K, V>, hash: K -> Word) {
    SharedOk(s, hash)
    && ThreadsOk(s.nodes, s.linked, s.stored, s.threads, hash)
    && CountOk(s.numItems, s.linked, s.marks, s.threads)
  }

  // ---------- what a growing memory keeps ----------

  ghost predicate Grows<K, V>(nodes: seq<Node<K, V>>, nodes': seq<Node<K, V>>) {
    |nodes| <= |nodes'|
    && forall r :: 0 <= r < |nodes| ==> nodes'[r].keyHash == nodes[r].keyHash && nodes'[r].key == nodes[r].key
  }

  lemma {:induction false} FramesStayOk<K, V>(nodes: seq<Node<K, V>>, nodes': seq<Node<K, V>>, linked: set<nat>, linked': set<nat>,
                                              frames: seq<Frame>, base: nat, inner: nat)
    requires 0 < |nodes| && Grows(nodes, nodes') && linked <= linked' && InRange(linked, |nodes|)
    requires FramesOk(nodes, linked, frames, base, inner)
    ensures FramesOk(nodes', linked', frames, base, inner) && (Here(linked, inner) ==> Here(linked, base))
  {
    if frames != [] {
      FramesStayOk(nodes, nodes', linked, linked', frames[..|frames| - 1], base, frames[|frames| - 1].self);
    }
  }

  lemma ContStaysOk<K, V>(nodes: seq<Node<K, V>>, nodes': seq<Node<K, V>>, linked: set<nat>, linked': set<nat>,
                          stored: set<(K, V)>, stored': set<(K, V)>, cont: Cont<K, V>, base: nat, hash: K -> Word)
    requires 0 < |nodes| && Grows(nodes, nodes') && linked <= linked' && stored <= stored' && InRange(linked, |nodes|)
    requires Here(linked, base) && ContOk(nodes, linked, stored, cont, base, hash)
    ensures ContOk(nodes', linked', stored', cont, base, hash)
  {
  }

  lemma PcStaysOk<K, V>(nodes: seq<Node<K, V>>, nodes': seq<Node<K, V>>, linked: set<nat>, linked': set<nat>,
                        stored: set<(K, V)>, stored': set<(K, V)>, pc: Pc<K, V>, hash: K -> Word)
    requires 0 < |nodes| && Grows(nodes, nodes') && linked <= linked' && stored <= stored' && InRange(linked, |nodes|)
    requires PcOk(nodes, linked, stored, pc, hash)
    ensures PcOk(nodes', linked', stored', pc, hash)
  {
    match pc
    case Calling(frames, spot, cont) =>
      var base := if frames == [] then spot.self else frames[0].self;
      FramesStayOk(nodes, nodes', linked, linked', frames, base, spot.self);
      hide FramesOk;
      ContStaysOk(nodes, nodes', linked, linked', stored, stored', cont, base, hash);
      hide ContOk;
    case _ =>
  }

  lemma {:induction false} OwedUpdate<K, V>(threads: seq<Pc<K, V>>, i: nat, pc: Pc<K, V>)
    requires i < |threads|
    ensures AllOwed(threads[i := pc]) == AllOwed(threads) - Owed(threads[i]) + Owed(pc)
  {
    if i == 0 {
      assert threads[i := pc][1..] == threads[1..];
    } else {
      OwedUpdate(threads[1..], i - 1, pc);
      assert threads[i := pc][1..] == threads[1..][i - 1 := pc];
    }
  }

  /** One thread moves on: the others keep what they knew, since memory only grows and only a
      thread's own private node can become linked. */
  lemma ThreadsMove<K, V>(nodes: seq<Node<K, V>>, nodes': seq<Node<K, V>>, linked: set<nat>, linked': set<nat>,
                          stored: set<(K, V)>, stored': set<(K, V)>, threads: seq<Pc<K, V>>, i: nat, pc: Pc<K, V>, hash: K -> Word)
    requires 0 < |nodes| && Grows(nodes, nodes') && linked <= linked' && stored <= stored' && InRange(linked, |nodes|)
    requires i < |threads| && ThreadsOk(nodes, linked, stored, threads, hash) && PcOk(nodes', linked', stored', pc, hash)
    requires Private(pc) == NIL || (0 < Private(pc) < |nodes'| && Private(pc) !in linked'
                                    && (Private(pc) == Private(threads[i]) || Private(pc) >= |nodes|))
    requires linked' == linked || linked' == linked + {Private(threads[i])}
    ensures ThreadsOk(nodes', linked', stored', threads[i := pc], hash)
  {
    hide PcOk, Private;
    var threads' := threads[i := pc];
    forall j | 0 <= j < |threads'|
      ensures PcOk(nodes', linked', stored', threads'[j], hash)
    {
      if j != i {
        PcStaysOk(nodes, nodes', linked, linked', stored, stored', threads[j], hash);
      }
    }
  }

  /** The general step: `s'` is `s` with memory and history changed for the better, and thread
      `i` goes to `pc`. */
  lemma MoveKeepsInv<K, V>(s: State<K, V>, s': State<K, V>, i: nat, pc: Pc<K, V>, hash: K -> Word)
    requires Inv(s, hash) && i < |s.threads| && s'.threads == s.threads && SharedOk(s', hash)
    requires Grows(s.nodes, s'.nodes) && s.linked <= s'.linked && s.stored <= s'.stored
    requires PcOk(s'.nodes, s'.linked, s'.stored, pc, hash)
    requires Private(pc) == NIL || (0 < Private(pc) < |s'.nodes| && Private(pc) !in s'.linked
                                    && (Private(pc) == Private(s.threads[i]) || Private(pc) >= |s.nodes|))
    requires s'.linked == s.linked || s'.linked == s.linked + {Private(s.threads[i])}
    requires (s'.numItems
              == AddWrapped(s.numItems, (|s'.linked| - |s.linked|) - (|s'.marks| - |s.marks|) - (Owed(pc) - Owed(s.threads[i]))))
    ensures Inv(Goto(s', i, pc), hash)
  {
    hide PcOk, Private, Owed, NodesOk, MarksOk, AllOwed, ThreadsOk;
    assert 0 < |s.nodes| && InRange(s.linked, |s.nodes|) by {
      NodesFacts(s, hash);
    }
    ThreadsMove(s.nodes, s'.nodes, s.linked, s'.linked, s.stored, s'.stored, s.threads, i, pc, hash);
    OwedUpdate(s.threads, i, pc);
  }

  lemma NodesFacts<K, V>(s: State<K, V>, hash: K -> Word)
    requires SharedOk(s, hash)
    ensures 0 < |s.nodes| && InRange(s.linked, |s.nodes|)
  {
  }

  /** A step that only moves the thread. */
  lemma GotoKeepsInv<K, V>(s: State<K, V>, i: nat, pc: Pc<K, V>, hash: K -> Word)
    requires Inv(s, hash) && i < |s.threads| && PcOk(s.nodes, s.linked, s.stored, pc, hash)
    requires Private(pc) == NIL || Private(pc) == Private(s.threads[i])
    requires Owed(pc) == Owed(s.threads[i])
    ensures Inv(Goto(s, i, pc), hash)
  {
    hide PcOk, Private, Owed, NodesOk, MarksOk, LinksOk, AllOwed;
    MoveKeepsInv(s, s, i, pc, hash);
  }

  // ---------- the steps on memory ----------

  /** Moving a link forward keeps every link going forward. */
  lemma WithNextKeeps<K, V>(nodes: seq<Node<K, V>>, linked: set<nat>, linked': set<nat>, stored: set<(K, V)>, marks: seq<nat>,
                            r: nat, n: int, hash: K -> Word)
    requires LinksOk(nodes, linked) && NodesOk(nodes, stored, hash) && MarksOk(nodes, linked, marks)
    requires r < |nodes| && linked <= linked' && InRange(linked', |nodes|) && Before(nodes, r, n) && Target(linked', n)
    ensures var nodes' := WithNext(nodes, r, n);
            (LinksOk(nodes', linked') && NodesOk(nodes', stored, hash) && MarksOk(nodes', linked', marks)
             && Grows(nodes, nodes') && Grows(nodes', nodes))
  {
    var nodes' := WithNext(nodes, r, n);
    assert Grows(nodes, nodes');
    forall k | 0 <= k < |nodes'|
      ensures LinkOk(nodes', linked', k)
    {
      assert LinkOk(nodes, linked, k);
    }
    forall k | 0 < k < |nodes'|
      ensures NodeOk(nodes', stored, k, hash)
    {
      assert NodeOk(nodes, stored, k, hash);
    }
  }

  lemma AppendKeeps<K, V>(nodes: seq<Node<K, V>>, linked: set<nat>, stored: set<(K, V)>, marks: seq<nat>, key: K, value: V, hash: K -> Word)
    requires LinksOk(nodes, linked) && NodesOk(nodes, stored, hash) && MarksOk(nodes, linked, marks) && (key, value) in stored
    ensures var nodes' := nodes + [Node(hash(key), key, value, NIL, false)];
            (LinksOk(nodes', linked) && NodesOk(nodes', stored, hash) && MarksOk(nodes', linked, marks) && Grows(nodes, nodes'))
  {
    var nodes' := nodes + [Node(hash(key), key, value, NIL, false)];
    forall k | 0 <= k < |nodes'|
      ensures LinkOk(nodes', linked, k)
    {
      assert k < |nodes| ==> LinkOk(nodes, linked, k);
    }
    forall k | 0 < k < |nodes'|
      ensures NodeOk(nodes', stored, k, hash)
    {
      assert k < |nodes| ==> NodeOk(nodes, stored, k, hash);
    }
  }

  lemma StoreKeeps<K, V>(nodes: seq<Node<K, V>>, linked: set<nat>, stored: set<(K, V)>, marks: seq<nat>, r: nat, value: V, hash: K -> Word)
    requires LinksOk(nodes, linked) && NodesOk(nodes, stored, hash) && MarksOk(nodes, linked, marks)
    requires 0 < r < |nodes| && (nodes[r].key, value) in stored
    ensures var nodes' := WithStored(nodes, r, value);
            (LinksOk(nodes', linked) && NodesOk(nodes', stored, hash) && MarksOk(nodes', linked, marks) && Grows(nodes, nodes'))
  {
    var nodes' := WithStored(nodes, r, value);
    forall k | 0 <= k < |nodes'|
      ensures LinkOk(nodes', linked, k)
    {
      assert LinkOk(nodes, linked, k);
    }
    forall k | 0 < k < |nodes'|
      ensures NodeOk(nodes', stored, k, hash)
    {
      assert NodeOk(nodes, stored, k, hash);
    }
  }

  lemma MarkKeeps<K, V>(nodes: seq<Node<K, V>>, linked: set<nat>, stored: set<(K, V)>, marks: seq<nat>, r: nat, hash: K -> Word)
    requires LinksOk(nodes, linked) && NodesOk(nodes, stored, hash) && MarksOk(nodes, linked, marks)
    requires r in linked && !nodes[r].deleted
    ensures var nodes' := WithMark(nodes, r);
            (LinksOk(nodes', linked) && NodesOk(nodes', stored, hash) && MarksOk(nodes', linked, marks + [r]) && Grows(nodes, nodes'))
  {
    var nodes' := WithMark(nodes, r);
    forall k | 0 <= k < |nodes'|
      ensures LinkOk(nodes', linked, k)
    {
      assert LinkOk(nodes, linked, k);
    }
    forall k | 0 < k < |nodes'|
      ensures NodeOk(nodes', stored, k, hash)
    {
      assert NodeOk(nodes, stored, k, hash);
    }
  }

  /** Memory only grew in links: what a thread knew it still knows. */
  lemma PcOkSame<K, V>(nodes: seq<Node<K, V>>, nodes': seq<Node<K, V>>, linked: set<nat>, linked': set<nat>,
                       stored: set<(K, V)>, pc: Pc<K, V>, hash: K -> Word)
    requires 0 < |nodes| && Grows(nodes, nodes') && linked <= linked' && InRange(linked, |nodes|)
    requires PcOk(nodes, linked, stored, pc, hash)
    ensures PcOk(nodes', linked', stored, pc, hash)
  {
    PcStaysOk(nodes, nodes', linked, linked', stored, stored, pc, hash);
  }

  // ---------- the steps of `next` ----------

  lemma AllocatedKeepsInv<K, V>(s: State<K, V>, i: nat, key: K, value: V, left: nat, right: int, hash: K -> Word)
    requires Inv(s, hash) && i < |s.threads| && Owed(s.threads[i]) == 0
    requires (key, value) in s.stored && Here(s.linked, left) && HashAt(s.nodes, left) <= hash(key)
    requires Target(s.linked, right) && (right != NIL ==> hash(key) < HashAt(s.nodes, right))
    ensures Inv(Allocated(s, i, key, value, left, right, hash), hash)
  {
    hide ThreadsOk, AllOwed, LinkOk, NodeOk, MarksOk;
    AppendKeeps(s.nodes, s.linked, s.stored, s.marks, key, value, hash);
    var s' := s.(nodes := s.nodes + [Node(hash(key), key, value, NIL, false)]);
    MoveKeepsInv(s, s', i, CallNext(left, BeforeAdd(key, value, |s.nodes|, left, right)), hash);
  }

  lemma ReturnedKeepsInv<K, V>(s: State<K, V>, i: nat, spot: Spot, cont: Cont<K, V>, v: int, hash: K -> Word)
    requires Inv(s, hash) && i < |s.threads| && s.threads[i] == Calling([], spot, cont)
    requires Target(s.linked, v) && Before(s.nodes, spot.self, v)
    ensures Inv(Returned(s, i, cont, v, hash), hash)
  {
    hide Inv, AllocOk, HashAt;
    ThreadKnows(s, i, hash);
    match cont
    case SearchRight(key, value, prev, curr) => SearchedKeepsInv(s, i, spot, key, value, prev, curr, hash);
    case SearchNext(key, value, left) =>
      if v < 0 {
        AllocatedKeepsInv(s, i, key, value, left, NIL, hash);
      } else {
        GotoKeepsInv(s, i, CallNext(v, SearchRight(key, value, left, v)), hash);
      }
    case BeforeAdd(key, value, alloc, left, right) =>
      if v != right {
        GotoKeepsInv(s, i, FromHead(key, value), hash);
      } else {
        ReadyKeepsInv(s, i, spot, key, value, alloc, left, right, hash);
      }
    case DelNext(key) => GotoKeepsInv(s, i, DelAt(key, v), hash);
    case UnindexNext(item, version) => GotoKeepsInv(s, i, CheckVersion(item, version), hash);
    case GrowNext => GotoKeepsInv(s, i, if v < 0 then Publishing else CallNext(v, GrowNext), hash);
  }

  /** A search has looked behind the current node: it stops, has found the key, or moves on. */
  lemma SearchedKeepsInv<K, V>(s: State<K, V>, i: nat, spot: Spot, key: K, value: V, prev: int, curr: nat, hash: K -> Word)
    requires Inv(s, hash) && i < |s.threads| && s.threads[i] == Calling([], spot, SearchRight(key, value, prev, curr))
    ensures Inv(Returned(s, i, SearchRight(key, value, prev, curr), NIL, hash), hash)
  {
    hide ThreadsOk, CountOk, AllOwed, LinkOk, NodeOk, MarksOk;
    ThreadKnows(s, i, hash);
    if hash(key) < HashAt(s.nodes, curr) {
      if prev < 0 {
        GotoKeepsInv(s, i, FromHead(key, value), hash);
      } else {
        AllocatedKeepsInv(s, i, key, value, prev, curr, hash);
      }
    } else if hash(key) == HashAt(s.nodes, curr) && HoldsKey(s.nodes, curr, key) {
      GotoKeepsInv(s, i, Storing(key, value, curr), hash);
    } else {
      GotoKeepsInv(s, i, CallNext(curr, SearchNext(key, value, curr)), hash);
    }
  }

  lemma ThreadKnows<K, V>(s: State<K, V>, i: nat, hash: K -> Word)
    requires Inv(s, hash) && i < |s.threads|
    ensures PcOk(s.nodes, s.linked, s.stored, s.threads[i], hash) && 0 < |s.nodes| && InRange(s.linked, |s.nodes|)
    ensures Private(s.threads[i]) != NIL ==> 0 < Private(s.threads[i]) < |s.nodes| && Private(s.threads[i]) !in s.linked
  {
    hide PcOk, Private;
  }

  /** `addBefore` found the expected neighbour: the new node points at it. */
  lemma ReadyKeepsInv<K, V>(s: State<K, V>, i: nat, spot: Spot, key: K, value: V, alloc: nat, left: nat, right: int, hash: K -> Word)
    requires Inv(s, hash) && i < |s.threads| && s.threads[i] == Calling([], spot, BeforeAdd(key, value, alloc, left, right))
    ensures Inv(Goto(s.(nodes := WithNext(s.nodes, alloc, right)), i, Linking(key, value, alloc, left, right)), hash)
  {
    hide ThreadsOk, AllOwed, LinkOk, NodeOk, MarksOk, NodesOk, LinksOk, WithNext;
    ThreadKnows(s, i, hash);
    WithNextKeeps(s.nodes, s.linked, s.linked, s.stored, s.marks, alloc, right, hash);
    var s' := s.(nodes := WithNext(s.nodes, alloc, right));
    var pc := Linking(key, value, alloc, left, right);
    assert PcOk(s.nodes, s.linked, s.stored, pc, hash);
    PcOkSame(s.nodes, s'.nodes, s.linked, s.linked, s.stored, pc, hash);
    MoveKeepsInv(s, s', i, pc, hash);
  }

  lemma NextReturnsKeepsInv<K, V>(s: State<K, V>, i: nat, frames: seq<Frame>, spot: Spot, cont: Cont<K, V>, v: int, hash: K -> Word)
    requires Inv(s, hash) && i < |s.threads| && s.threads[i] == Calling(frames, spot, cont)
    requires Target(s.linked, v) && Before(s.nodes, spot.self, v)
    ensures Inv(NextReturns(s, i, frames, cont, v, hash), hash)
  {
    hide ThreadsOk, CountOk, AllOwed, SharedOk, ContOk;
    if frames == [] {
      ReturnedKeepsInv(s, i, spot, cont, v, hash);
    } else {
      ThreadKnows(s, i, hash);
      var n := |frames| - 1;
      assert FramesOk(s.nodes, s.linked, frames[..n], frames[0].self, frames[n].self);
      assert n > 0 ==> frames[..n][0] == frames[0];
      assert n == 0 ==> frames[..n] == [];
      GotoKeepsInv(s, i, Calling(frames[..n], Swap(frames[n].self, frames[n].n, v), cont), hash);
    }
  }

  lemma {:induction false} DescendFrames<K, V>(nodes: seq<Node<K, V>>, linked: set<nat>, frames: seq<Frame>, base: nat, self: nat, n: nat)
    requires FramesOk(nodes, linked, frames, base, self) && Here(linked, self) && n in linked && Before(nodes, self, n)
    ensures FramesOk(nodes, linked, frames + [Frame(self, n)], base, n)
    ensures (frames + [Frame(self, n)])[0].self == if frames == [] then self else frames[0].self
  {
    hide Before;
    var frames' := frames + [Frame(self, n)];
    assert frames'[..|frames'| - 1] == frames;
  }

  lemma DescendKeepsInv<K, V>(s: State<K, V>, i: nat, frames: seq<Frame>, self: nat, n: nat, cont: Cont<K, V>, hash: K -> Word)
    requires Inv(s, hash) && i < |s.threads| && s.threads[i] == Calling(frames, Check(self, n), cont)
    ensures Inv(Goto(s, i, Calling(frames + [Frame(self, n)], Load(n), cont)), hash)
  {
    hide ThreadsOk, CountOk, AllOwed, SharedOk, ContOk, FramesOk, Inv, Before;
    ThreadKnows(s, i, hash);
    var base := if frames == [] then self else frames[0].self;
    DescendFrames(s.nodes, s.linked, frames, base, self, n);
    GotoKeepsInv(s, i, Calling(frames + [Frame(self, n)], Load(n), cont), hash);
  }

  lemma NextOfLinked<K, V>(s: State<K, V>, r: nat, hash: K -> Word)
    requires Inv(s, hash) && Here(s.linked, r)
    ensures r < |s.nodes| && LinkOk(s.nodes, s.linked, r)
  {
    hide ThreadsOk, CountOk, NodeOk, MarksOk, LinkOk;
  }

  /** The compare-and-swap of `next`: past a deleted node, forward. */
  lemma SwapKeepsInv<K, V>(s: State<K, V>, i: nat, frames: seq<Frame>, self: nat, n: nat, m: int, cont: Cont<K, V>, hash: K -> Word)
    requires Inv(s, hash) && i < |s.threads| && s.threads[i] == Calling(frames, Swap(self, n, m), cont)
    ensures Inv(NextStep(s, i, frames, Swap(self, n, m), cont, hash), hash)
  {
    hide ThreadsOk, AllOwed, LinksOk, NodesOk, MarksOk, WithNext, PcOk, Private, Owed, CountOk, AddWrapped;
    ThreadKnows(s, i, hash);
    SwapFacts(s, frames, self, n, m, cont, hash);
    var pc := Calling(frames, Load(self), cont);
    if NextOf(s.nodes, self) == n {
      var s' := s.(nodes := WithNext(s.nodes, self, m));
      WithNextKeeps(s.nodes, s.linked, s.linked, s.stored, s.marks, self, m, hash);
      PcOkSame(s.nodes, s'.nodes, s.linked, s.linked, s.stored, pc, hash);
      MoveKeepsInv(s, s', i, pc, hash);
    } else {
      GotoKeepsInv(s, i, pc, hash);
    }
  }

  lemma SwapFacts<K, V>(s: State<K, V>, frames: seq<Frame>, self: nat, n: nat, m: int, cont: Cont<K, V>, hash: K -> Word)
    requires PcOk(s.nodes, s.linked, s.stored, Calling(frames, Swap(self, n, m), cont), hash)
    requires 0 < |s.nodes| && InRange(s.linked, |s.nodes|) && CountOk(s.numItems, s.linked, s.marks, s.threads)
    ensures PcOk(s.nodes, s.linked, s.stored, Calling(frames, Load(self), cont), hash)
    ensures Owed(Calling(frames, Load(self), cont)) == Owed(Calling(frames, Swap(self, n, m), cont))
    ensures Private(Calling(frames, Load(self), cont)) == Private(Calling(frames, Swap(self, n, m), cont))
    ensures self < |s.nodes| && Before(s.nodes, self, m) && Target(s.linked, m) && AddWrapped(s.numItems, 0) == s.numItems
  {
    hide ContOk, FramesOk, AllOwed;
  }

  lemma NextStepKeepsInv<K, V>(s: State<K, V>, i: nat, frames: seq<Frame>, spot: Spot, cont: Cont<K, V>, hash: K -> Word)
    requires Inv(s, hash) && i < |s.threads| && s.threads[i] == Calling(frames, spot, cont)
    ensures Inv(NextStep(s, i, frames, spot, cont, hash), hash)
  {
    hide ThreadsOk, CountOk, AllOwed, SharedOk, ContOk, FramesOk;
    ThreadKnows(s, i, hash);
    match spot
    case Load(self) =>
      NextOfLinked(s, self, hash);
      var n := NextOf(s.nodes, self);
      if n < 0 {
        NextReturnsKeepsInv(s, i, frames, spot, cont, NIL, hash);
      } else {
        GotoKeepsInv(s, i, Calling(frames, Check(self, n), cont), hash);
      }
    case Check(self, n) =>
      if DeletedAt(s.nodes, n) {
        DescendKeepsInv(s, i, frames, self, n, cont, hash);
      } else {
        NextReturnsKeepsInv(s, i, frames, spot, cont, n, hash);
      }
    case Swap(self, n, m) => SwapKeepsInv(s, i, frames, self, n, m, cont, hash);
  }

  // ---------- the other steps ----------

  /** The compare-and-swap of `addBefore`. */
  lemma LinkingKeepsInv<K, V>(s: State<K, V>, i: nat, choice: int, key: K, value: V, alloc: nat, left: nat, right: int, hash: K -> Word)
    requires Inv(s, hash) && i < |s.threads| && s.threads[i] == Linking(key, value, alloc, left, right)
    ensures Inv(Went(s, i, choice, hash), hash)
  {
    hide ThreadsOk, AllOwed, LinksOk, NodesOk, MarksOk, WithNext;
    ThreadKnows(s, i, hash);
    if NextOf(s.nodes, left) == right {
      var s' := s.(nodes := WithNext(s.nodes, left, alloc), linked := s.linked + {alloc});
      WithNextKeeps(s.nodes, s.linked, s'.linked, s.stored, s.marks, left, alloc, hash);
      MoveKeepsInv(s, s', i, Counting, hash);
    } else {
      GotoKeepsInv(s, i, FromHead(key, value), hash);
    }
  }

  lemma StoringKeepsInv<K, V>(s: State<K, V>, i: nat, choice: int, key: K, value: V, curr: nat, hash: K -> Word)
    requires Inv(s, hash) && i < |s.threads| && s.threads[i] == Storing(key, value, curr)
    ensures Inv(Went(s, i, choice, hash), hash)
  {
    hide ThreadsOk, AllOwed, LinksOk, NodesOk, MarksOk, WithStored;
    ThreadKnows(s, i, hash);
    StoreKeeps(s.nodes, s.linked, s.stored, s.marks, curr, value, hash);
    MoveKeepsInv(s, s.(nodes := WithStored(s.nodes, curr, value)), i, Indexing, hash);
  }

  lemma MarkingKeepsInv<K, V>(s: State<K, V>, i: nat, choice: int, item: nat, hash: K -> Word)
    requires Inv(s, hash) && i < |s.threads| && s.threads[i] == Marking(item)
    ensures Inv(Went(s, i, choice, hash), hash)
  {
    hide Inv;
    if DeletedAt(s.nodes, item) {
      GotoKeepsInv(s, i, Idle, hash);
    } else {
      MarkedKeepsInv(s, i, item, hash);
    }
  }

  /** The successful compare-and-swap of `remove`. */
  lemma MarkedKeepsInv<K, V>(s: State<K, V>, i: nat, item: nat, hash: K -> Word)
    requires Inv(s, hash) && i < |s.threads| && s.threads[i] == Marking(item) && !DeletedAt(s.nodes, item)
    ensures Inv(Goto(s.(nodes := WithMark(s.nodes, item), marks := s.marks + [item]), i, UnindexLoad(item)), hash)
  {
    hide ThreadsOk, AllOwed, LinksOk, NodesOk, MarksOk, WithMark, InRange, PcOk, Private, Owed, CountOk, AddWrapped;
    ThreadKnows(s, i, hash);
    MarkingFacts(s, item, hash);
    MarkKeeps(s.nodes, s.linked, s.stored, s.marks, item, hash);
    var s' := s.(nodes := WithMark(s.nodes, item), marks := s.marks + [item]);
    UnindexFacts(s', item, hash);
    MoveKeepsInv(s, s', i, UnindexLoad(item), hash);
  }

  lemma MarkingFacts<K, V>(s: State<K, V>, item: nat, hash: K -> Word)
    requires PcOk(s.nodes, s.linked, s.stored, Marking(item), hash) && InRange(s.linked, |s.nodes|)
    requires CountOk(s.numItems, s.linked, s.marks, s.threads)
    ensures item in s.linked && item < |s.nodes| && AddWrapped(s.numItems, 0) == s.numItems
    ensures Owed<K, V>(Marking(item)) == 0 && Private<K, V>(Marking(item)) == NIL
  {
  }

  lemma UnindexFacts<K, V>(s: State<K, V>, item: nat, hash: K -> Word)
    requires item in s.linked
    ensures PcOk(s.nodes, s.linked, s.stored, UnindexLoad(item), hash)
    ensures Owed<K, V>(UnindexLoad(item)) == -1 && Private<K, V>(UnindexLoad(item)) == NIL
  {
  }

  /** The walk of `Get`. */
  lemma GetKeepsInv<K, V>(s: State<K, V>, i: nat, choice: int, hash: K -> Word)
    requires Inv(s, hash) && i < |s.threads| && (s.threads[i].GetIndex? || s.threads[i].GetAt? || s.threads[i].GetFlag?)
    ensures Inv(Went(s, i, choice, hash), hash)
  {
    hide ThreadsOk, AllOwed, LinksOk, MarksOk;
    ThreadKnows(s, i, hash);
    match s.threads[i]
    case GetIndex(key) => GotoKeepsInv(s, i, GetAt(key, if choice in s.linked then choice else NIL), hash);
    case GetAt(key, at) =>
      if at < 0 || hash(key) < HashAt(s.nodes, at) {
        GotoKeepsInv(s, i, Idle, hash);
      } else if HoldsKey(s.nodes, at, key) {
        assert NodeOk(s.nodes, s.stored, at, hash);
        GotoKeepsInv(s, i, GetFlag(key, at, s.nodes[at].value), hash);
      } else {
        NextOfLinked(s, at, hash);
        GotoKeepsInv(s, i, GetAt(key, NextOf(s.nodes, at)), hash);
      }
    case GetFlag(key, elem, value) =>
      if DeletedAt(s.nodes, elem) {
        GotoKeepsInv(s, i, Idle, hash);
      } else {
        MoveKeepsInv(s, s.(answers := s.answers + {(key, value)}), i, Idle, hash);
      }
  }

  lemma DelBeginKeepsInv<K, V>(s: State<K, V>, i: nat, choice: int, key: K, hash: K -> Word)
    requires Inv(s, hash) && i < |s.threads| && s.threads[i] == DelIndex(key)
    ensures Inv(Went(s, i, choice, hash), hash)
  {
    hide Inv, HashAt;
    if Usable(s, choice, hash(key)) {
      GotoKeepsInv(s, i, DelAt(key, choice), hash);
    } else {
      GotoKeepsInv(s, i, CallNext(0, DelNext(key)), hash);
    }
  }

  /** The walk of `Del`. */
  lemma DelKeepsInv<K, V>(s: State<K, V>, i: nat, choice: int, key: K, existing: int, hash: K -> Word)
    requires Inv(s, hash) && i < |s.threads| && s.threads[i] == DelAt(key, existing)
    ensures Inv(Went(s, i, choice, hash), hash)
  {
    hide Inv, HashAt, HoldsKey;
    ThreadKnows(s, i, hash);
    if existing < 0 || hash(key) < HashAt(s.nodes, existing) {
      GotoKeepsInv(s, i, Idle, hash);
    } else if HoldsKey(s.nodes, existing, key) {
      GotoKeepsInv(s, i, Marking(existing), hash);
    } else {
      GotoKeepsInv(s, i, CallNext(existing, DelNext(key)), hash);
    }
  }

  lemma UnindexKeepsInv<K, V>(s: State<K, V>, i: nat, choice: int, item: nat, hash: K -> Word)
    requires Inv(s, hash) && i < |s.threads| && s.threads[i] == UnindexLoad(item)
    ensures Inv(Went(s, i, choice, hash), hash)
  {
    hide Inv;
    ThreadKnows(s, i, hash);
    GotoKeepsInv(s, i, CallNext(item, UnindexNext(item, s.version)), hash);
  }

  lemma UncountKeepsInv<K, V>(s: State<K, V>, i: nat, choice: int, item: nat, version: nat, hash: K -> Word)
    requires Inv(s, hash) && i < |s.threads| && s.threads[i] == CheckVersion(item, version)
    ensures Inv(Went(s, i, choice, hash), hash)
  {
    hide ThreadsOk, AllOwed, SharedOk;
    ThreadKnows(s, i, hash);
    GotoKeepsInv(s, i, if version == s.version then Uncounting else UnindexLoad(item), hash);
  }

  lemma CountDownKeepsInv<K, V>(s: State<K, V>, i: nat, choice: int, hash: K -> Word)
    requires Inv(s, hash) && i < |s.threads| && s.threads[i].Uncounting?
    ensures Inv(Went(s, i, choice, hash), hash)
  {
    hide ThreadsOk, AllOwed, SharedOk;
    ThreadKnows(s, i, hash);
    var s' := s.(numItems := AddWrapped(s.numItems, -1));
    SameShared(s, s', hash);
    MoveKeepsInv(s, s', i, Idle, hash);
  }

  lemma SameShared<K, V>(s: State<K, V>, s': State<K, V>, hash: K -> Word)
    requires SharedOk(s, hash) && s'.nodes == s.nodes && s'.linked == s.linked && s'.stored == s.stored
    requires s'.marks == s.marks && s'.answers == s.answers
    ensures SharedOk(s', hash)
  {
    hide LinksOk, NodesOk, MarksOk;
  }

  /** Steps that touch counters and flags only. */
  lemma OtherKeepsInv<K, V>(s: State<K, V>, i: nat, choice: int, hash: K -> Word)
    requires Inv(s, hash) && i < |s.threads|
    requires s.threads[i].SetIndex? || s.threads[i].Counting? || s.threads[i].Indexing? || s.threads[i].Resizing? || s.threads[i].Publishing?
    ensures Inv(Went(s, i, choice, hash), hash)
  {
    hide ThreadsOk, AllOwed, LinksOk, NodesOk, MarksOk;
    ThreadKnows(s, i, hash);
    match s.threads[i]
    case SetIndex(key, value) =>
      if Usable(s, choice, hash(key)) {
        GotoKeepsInv(s, i, CallNext(choice, SearchRight(key, value, NIL, choice)), hash);
      } else {
        GotoKeepsInv(s, i, FromHead(key, value), hash);
      }
    case Counting => MoveKeepsInv(s, s.(numItems := AddWrapped(s.numItems, 1)), i, Indexing, hash);
    case Indexing => GotoKeepsInv(s, i, if choice > 0 then Resizing else Idle, hash);
    case Resizing =>
      if s.resizing {
        GotoKeepsInv(s, i, Idle, hash);
      } else {
        MoveKeepsInv(s, s.(resizing := true), i, CallNext(0, GrowNext), hash);
      }
    case Publishing =>
      var s' := s.(version := s.version + 1);
      if choice > 0 {
        MoveKeepsInv(s, s', i, CallNext(0, GrowNext), hash);
      } else {
        MoveKeepsInv(s, s'.(resizing := false), i, Idle, hash);
      }
  }

  lemma StartedKeepsInv<K, V>(s: State<K, V>, i: nat, call: Call<K, V>, hash: K -> Word)
    requires Inv(s, hash) && i < |s.threads| && s.threads[i].Idle?
    ensures Inv(Started(s, i, call), hash)
  {
    hide ThreadsOk, AllOwed, LinksOk, MarksOk;
    match call
    case CallSet(key, value) =>
      var s' := s.(stored := s.stored + {(key, value)});
      forall r | 0 < r < |s.nodes|
        ensures NodeOk(s.nodes, s'.stored, r, hash)
      {
        assert NodeOk(s.nodes, s.stored, r, hash);
      }
      MoveKeepsInv(s, s', i, SetIndex(key, value), hash);
    case CallGet(key) => GotoKeepsInv(s, i, GetIndex(key), hash);
    case CallDel(key) => GotoKeepsInv(s, i, DelIndex(key), hash);
    case CallGrow => GotoKeepsInv(s, i, Resizing, hash);
  }

  /** Every step of every thread keeps the invariant. */
  lemma StepKeepsInv<K, V>(s: State<K, V>, i: nat, a: Action<K, V>, hash: K -> Word)
    requires Inv(s, hash)
    ensures Inv(Step(s, i, a, hash), hash)
  {
    hide Inv, Went, Started;
    if i < |s.threads| {
      match a
      case Begin(call) =>
        if s.threads[i].Idle? {
          StartedKeepsInv(s, i, call, hash);
        }
      case Go(choice) => WentKeepsInv(s, i, choice, hash);
    }
  }

  lemma WentKeepsInv<K, V>(s: State<K, V>, i: nat, choice: int, hash: K -> Word)
    requires Inv(s, hash) && i < |s.threads|
    ensures Inv(Went(s, i, choice, hash), hash)
  {
    hide Inv;
    match s.threads[i]
    case Idle =>
    case Calling(frames, spot, cont) => NextStepKeepsInv(s, i, frames, spot, cont, hash);
    case Linking(key, value, alloc, left, right) => LinkingKeepsInv(s, i, choice, key, value, alloc, left, right, hash);
    case Storing(key, value, curr) => StoringKeepsInv(s, i, choice, key, value, curr, hash);
    case GetIndex(key) => GetKeepsInv(s, i, choice, hash);
    case GetAt(key, at) => GetKeepsInv(s, i, choice, hash);
    case GetFlag(key, elem, value) => GetKeepsInv(s, i, choice, hash);
    case Marking(item) => MarkingKeepsInv(s, i, choice, item, hash);
    case DelIndex(key) => DelBeginKeepsInv(s, i, choice, key, hash);
    case DelAt(key, existing) => DelKeepsInv(s, i, choice, key, existing, hash);
    case UnindexLoad(item) => UnindexKeepsInv(s, i, choice, item, hash);
    case CheckVersion(item, version) => UncountKeepsInv(s, i, choice, item, version, hash);
    case Uncounting => CountDownKeepsInv(s, i, choice, hash);
    case _ => OtherKeepsInv(s, i, choice, hash);
  }
}
