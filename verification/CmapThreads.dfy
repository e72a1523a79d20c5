/** The concurrent map used by any number of goroutines: a state machine whose steps are the
    atomic loads, stores and compare-and-swaps of `Set`, `Get`, `Del` and growth.
    The index is abstract here: reading it may give any node ever linked. */
module CmapThreads {
  import opened Common
  import opened CmapList
  import opened CmapArena
  import opened CmapEffects

  datatype Call<K, V> = CallSet(key: K, value: V) | CallGet(key: K) | CallDel(key: K) | CallGrow

  /** Where a call of `next` on `self` is: about to load the link, to test what it loaded, or to
      swing the link past the deleted node `n` to `m`. */
  datatype Spot = Load(self: nat) | Check(self: nat, n: nat) | Swap(self: nat, n: nat, m: int)

  /** A pending call of `next` on `self` that found `n` deleted and asked `n` for its `next`. */
  datatype Frame = Frame(self: nat, n: nat)

  /** What the result of `next` is wanted for. */
  datatype Cont<K, V> =
    | SearchRight(key: K, value: V, prev: int, curr: nat)
    | SearchNext(key: K, value: V, left: nat)
    | BeforeAdd(key: K, value: V, alloc: nat, left: nat, right: int)
    | DelNext(key: K)
    | UnindexNext(item: nat, version: nat)
    | GrowNext

  datatype Pc<K, V> =
    | Idle
    | SetIndex(key: K, value: V)
    | Calling(frames: seq<Frame>, spot: Spot, cont: Cont<K, V>)
    | Linking(key: K, value: V, alloc: nat, left: nat, right: int)
    | Storing(key: K, value: V, curr: nat)
    | Counting
    | Indexing
    | GetIndex(key: K)
    | GetAt(key: K, at: int)
    | GetFlag(key: K, elem: nat, value: V)
    | DelIndex(key: K)
    | DelAt(key: K, existing: int)
    | Marking(item: nat)
    | UnindexLoad(item: nat)
    | CheckVersion(item: nat, version: nat)
    | Uncounting
    | Resizing
    | Publishing

  /** The shared memory, the threads, and the history of the run: what was ever passed to `Set`,
      what `Get` answered, which nodes were linked in and which were marked deleted. */
  datatype State<K(==), V(==)> = State(
    nodes: seq<Node<K, V>>, numItems: nat, version: nat, resizing: bool, threads: seq<Pc<K, V>>,
    stored: set<(K, V)>, answers: set<(K, V)>, linked: set<nat>, marks: seq<nat>)

  /** A thread begins a call, or takes its next step; `choice` is what it reads from the index,
      or its decision whether to grow. */
  datatype Action<K, V> = Begin(call: Call<K, V>) | Go(choice: int)

  // ---------- total access to the nodes ----------

  function NextOf<K, V>(nodes: seq<Node<K, V>>, r: nat): int {
    if r < |nodes| then nodes[r].next else NIL
  }

  predicate DeletedAt<K, V>(nodes: seq<Node<K, V>>, r: nat) {
    r < |nodes| && nodes[r].deleted
  }

  predicate HoldsKey<K(==), V>(nodes: seq<Node<K, V>>, r: nat, key: K) {
    r < |nodes| && nodes[r].key == key
  }

  function WithNext<K, V>(nodes: seq<Node<K, V>>, r: nat, n: int): seq<Node<K, V>> {
    if r < |nodes| then nodes[r := nodes[r].(next := n)] else nodes
  }

  function WithStored<K, V>(nodes: seq<Node<K, V>>, r: nat, v: V): seq<Node<K, V>> {
    if r < |nodes| then nodes[r := nodes[r].(value := v)] else nodes
  }

  function WithMark<K, V>(nodes: seq<Node<K, V>>, r: nat): seq<Node<K, V>> {
    if r < |nodes| then nodes[r := nodes[r].(deleted := true)] else nodes
  }

  // ---------- the steps ----------

  ghost function Goto<K, V>(s: State<K, V>, i: nat, pc: Pc<K, V>): State<K, V>
    requires i < |s.threads|
  {
    s.(threads := s.threads[i := pc])
  }

  function CallNext<K, V>(self: nat, cont: Cont<K, V>): Pc<K, V> {
    Calling([], Load(self), cont)
  }

  /** `inject` once more, from the head. */
  function FromHead<K, V>(key: K, value: V): Pc<K, V> {
    CallNext(0, SearchRight(key, value, NIL, 0))
  }

  /** The end of an unsuccessful search: a new node, then `addBefore`. */
  ghost function Allocated<K, V>(s: State<K, V>, i: nat, key: K, value: V, left: nat, right: int, hash: K -> Word): State<K, V>
    requires i < |s.threads|
  {
    Goto(s.(nodes := s.nodes + [Node(hash(key), key, value, NIL, false)]), i,
         CallNext(left, BeforeAdd(key, value, |s.nodes|, left, right)))
  }

  /** What a thread does with the result `v` of the outermost `next`. */
  ghost function Returned<K, V>(s: State<K, V>, i: nat, cont: Cont<K, V>, v: int, hash: K -> Word): State<K, V>
    requires i < |s.threads|
  {
    match cont
    case SearchRight(key, value, prev, curr) =>
      if hash(key) < HashAt(s.nodes, curr) then
        if prev < 0 then Goto(s, i, FromHead(key, value)) else Allocated(s, i, key, value, prev, curr, hash)
      else if hash(key) == HashAt(s.nodes, curr) && HoldsKey(s.nodes, curr, key) then Goto(s, i, Storing(key, value, curr))
      else Goto(s, i, CallNext(curr, SearchNext(key, value, curr)))
    case SearchNext(key, value, left) =>
      if v < 0 then Allocated(s, i, key, value, left, NIL, hash)
      else Goto(s, i, CallNext(v, SearchRight(key, value, left, v)))
    case BeforeAdd(key, value, alloc, left, right) =>
      if v != right then Goto(s, i, FromHead(key, value))
      else Goto(s.(nodes := WithNext(s.nodes, alloc, right)), i, Linking(key, value, alloc, left, right))
    case DelNext(key) => Goto(s, i, DelAt(key, v))
    case UnindexNext(item, version) => Goto(s, i, CheckVersion(item, version))
    case GrowNext => Goto(s, i, if v < 0 then Publishing else CallNext(v, GrowNext))
  }

  /** The innermost pending `next` returns `v`. */
  ghost function NextReturns<K, V>(s: State<K, V>, i: nat, frames: seq<Frame>, cont: Cont<K, V>, v: int, hash: K -> Word): State<K, V>
    requires i < |s.threads|
  {
    if frames == [] then Returned(s, i, cont, v, hash)
    else
      var n := |frames| - 1;
      Goto(s, i, Calling(frames[..n], Swap(frames[n].self, frames[n].n, v), cont))
  }

  ghost function NextStep<K, V>(s: State<K, V>, i: nat, frames: seq<Frame>, spot: Spot, cont: Cont<K, V>, hash: K -> Word): State<K, V>
    requires i < |s.threads|
  {
    match spot
    case Load(self) =>
      var n := NextOf(s.nodes, self);
      if n < 0 then NextReturns(s, i, frames, cont, NIL, hash)
      else Goto(s, i, Calling(frames, Check(self, n), cont))
    case Check(self, n) =>
      if DeletedAt(s.nodes, n) then Goto(s, i, Calling(frames + [Frame(self, n)], Load(n), cont))
      else NextReturns(s, i, frames, cont, n, hash)
    case Swap(self, n, m) =>
      Goto(if NextOf(s.nodes, self) == n then s.(nodes := WithNext(s.nodes, self, m)) else s, i, Calling(frames, Load(self), cont))
  }

  /** A node read from the index that has no larger hash. */
  predicate Usable<K, V>(s: State<K, V>, r: int, h: nat) {
    r in s.linked && HashAt(s.nodes, r) <= h
  }

  /** Addition on the item counter, which wraps at 64 bits. */
  function AddWrapped(n: nat, d: int): nat {
    (n + d) % TWO64
  }

  ghost function Started<K, V>(s: State<K, V>, i: nat, call: Call<K, V>): State<K, V>
    requires i < |s.threads|
  {
    match call
    case CallSet(key, value) => Goto(s.(stored := s.stored + {(key, value)}), i, SetIndex(key, value))
    case CallGet(key) => Goto(s, i, GetIndex(key))
    case CallDel(key) => Goto(s, i, DelIndex(key))
    case CallGrow => Goto(s, i, Resizing)
  }

  ghost function Went<K, V>(s: State<K, V>, i: nat, choice: int, hash: K -> Word): State<K, V>
    requires i < |s.threads|
  {
    match s.threads[i]
    case Idle => s
    // Set
    case SetIndex(key, value) =>
      if Usable(s, choice, hash(key)) then Goto(s, i, CallNext(choice, SearchRight(key, value, NIL, choice)))
      else Goto(s, i, FromHead(key, value))
    case Calling(frames, spot, cont) => NextStep(s, i, frames, spot, cont, hash)
    case Linking(key, value, alloc, left, right) =>
      if NextOf(s.nodes, left) == right
      then Goto(s.(nodes := WithNext(s.nodes, left, alloc), linked := s.linked + {alloc}), i, Counting)
      else Goto(s, i, FromHead(key, value))
    case Storing(key, value, curr) => Goto(s.(nodes := WithStored(s.nodes, curr, value)), i, Indexing)
    case Counting => Goto(s.(numItems := AddWrapped(s.numItems, 1)), i, Indexing)
    case Indexing => Goto(s, i, if choice > 0 then Resizing else Idle)
    // Get
    case GetIndex(key) => Goto(s, i, GetAt(key, if choice in s.linked then choice else NIL))
    case GetAt(key, at) =>
      if at < 0 || hash(key) < HashAt(s.nodes, at) then Goto(s, i, Idle)
      else if HoldsKey(s.nodes, at, key) then Goto(s, i, GetFlag(key, at, s.nodes[at].value))
      else Goto(s, i, GetAt(key, NextOf(s.nodes, at)))
    case GetFlag(key, elem, value) =>
      Goto(if DeletedAt(s.nodes, elem) then s else s.(answers := s.answers + {(key, value)}), i, Idle)
    // Del
    case DelIndex(key) =>
      if Usable(s, choice, hash(key)) then Goto(s, i, DelAt(key, choice)) else Goto(s, i, CallNext(0, DelNext(key)))
    case DelAt(key, existing) =>
      if existing < 0 || hash(key) < HashAt(s.nodes, existing) then Goto(s, i, Idle)
      else if HoldsKey(s.nodes, existing, key) then Goto(s, i, Marking(existing))
      else Goto(s, i, CallNext(existing, DelNext(key)))
    case Marking(item) =>
      if DeletedAt(s.nodes, item) then Goto(s, i, Idle)
      else Goto(s.(nodes := WithMark(s.nodes, item), marks := s.marks + [item]), i, UnindexLoad(item))
    case UnindexLoad(item) => Goto(s, i, CallNext(item, UnindexNext(item, s.version)))
    case CheckVersion(item, version) =>
      Goto(s, i, if version == s.version then Uncounting else UnindexLoad(item))
    case Uncounting => Goto(s.(numItems := AddWrapped(s.numItems, -1)), i, Idle)
    // growth
    case Resizing => if s.resizing then Goto(s, i, Idle) else Goto(s.(resizing := true), i, CallNext(0, GrowNext))
    case Publishing =>
      var s' := s.(version := s.version + 1);
      if choice > 0 then Goto(s', i, CallNext(0, GrowNext)) else Goto(s'.(resizing := false), i, Idle)
  }

  /** One step of thread `i`; a step that is not possible changes nothing. */
  ghost function Step<K, V>(s: State<K, V>, i: nat, a: Action<K, V>, hash: K -> Word): State<K, V> {
    if i >= |s.threads| then s
    else match a
      case Begin(call) => if s.threads[i].Idle? then Started(s, i, call) else s
      case Go(choice) => Went(s, i, choice, hash)
  }

  /** An empty map and `n` idle threads. */
  ghost function Initial<K, V>(zeroKey: K, zeroValue: V, n: nat): State<K, V> {
    State([Node(0, zeroKey, zeroValue, NIL, false)], 0, 0, false, seq(n, _ => Idle), {}, {}, {}, [])
  }

  ghost function RunFrom<K, V>(s: State<K, V>, steps: seq<(nat, Action<K, V>)>, hash: K -> Word): State<K, V> {
    if steps == [] then s
    else
      var last := steps[|steps| - 1];
      Step(RunFrom(s, steps[..|steps| - 1], hash), last.0, last.1, hash)
  }

  ghost function Run<K, V>(zeroKey: K, zeroValue: V, n: nat, steps: seq<(nat, Action<K, V>)>, hash: K -> Word): State<K, V> {
    RunFrom(Initial(zeroKey, zeroValue, n), steps, hash)
  }
}
