/** Uninterrupted calls, from any reachable state. */
module CmapCalls {
  import opened Common
  import opened CmapList
  import opened CmapArena
  import opened CmapEffects
  import opened CmapThreads
  import opened CmapConcurrent
  import opened CmapSafety
  import opened CmapSolo

  // ---------- Get ----------

  /** The node holds the key, under the hash of the key. */
  ghost predicate Matches<K, V>(nodes: seq<Node<K, V>>, r: int, key: K, h: nat) {
    0 <= r < |nodes| && nodes[r].keyHash == h && nodes[r].key == key
  }

  /** A walk for the key ends here. */
  ghost predicate Stops<K, V>(nodes: seq<Node<K, V>>, r: int, key: K, h: nat) {
    r < 0 || r >= |nodes| || nodes[r].keyHash > h || Matches(nodes, r, key, h)
  }

  /** Following `j` links from `at`, the first node at which a walk for the key ends is `r`. */
  ghost predicate FirstStop<K, V>(nodes: seq<Node<K, V>>, at: int, key: K, h: nat, r: int, j: nat)
    decreases j
  {
    if j == 0 then r == at && Stops(nodes, at, key, h)
    else at >= 0 && !Stops(nodes, at, key, h) && FirstStop(nodes, NextOf(nodes, at), key, h, r, j - 1)
  }

  lemma {:induction false} FirstStopUnique<K, V>(nodes: seq<Node<K, V>>, at: int, key: K, h: nat, r: int, j: nat, r': int, j': nat)
    requires FirstStop(nodes, at, key, h, r, j) && FirstStop(nodes, at, key, h, r', j')
    ensures r == r' && j == j'
    decreases j
  {
    if j > 0 && j' > 0 {
      FirstStopUnique(nodes, NextOf(nodes, at), key, h, r, j - 1, r', j' - 1);
    }
  }

  /** What a walk that ended at `r` answers: the value of a live node that holds the key, or nothing. */
  ghost function Answer<K, V>(nodes: seq<Node<K, V>>, r: int, key: K, h: nat): set<(K, V)> {
    if Matches(nodes, r, key, h) && !nodes[r].deleted then {(key, nodes[r].value)} else {}
  }

  lemma {:induction false} GetAlone<K, V>(s: State<K, V>, i: nat, key: K, at: int, hash: K -> Word) returns (n: nat, r: int, j: nat)
    requires Inv(s, hash) && i < |s.threads| && s.threads[i] == GetAt(key, at)
    ensures FirstStop(s.nodes, at, key, hash(key), r, j)
    ensures Alone(s, i, n, hash) == Goto(s.(answers := s.answers + Answer(s.nodes, r, key, hash(key))), i, Idle)
    decreases if at < 0 || at >= |s.nodes| then 0 else 1 + |Later(s.nodes, at)|
  {
    hide Inv, Later, Alone, Step;
    OneAlone(s, i, hash);
    AtIsLinked(s, i, key, at, hash);
    if Stops(s.nodes, at, key, hash(key)) {
      r, j := at, 0;
      n := GetEnds(s, i, key, at, hash);
    } else {
      var next := NextOf(s.nodes, at);
      var s1 := Goto(s, i, GetAt(key, next));
      GetGoesOn(s, i, key, at, hash);
      AloneKeepsInv(s, i, 1, hash);
      if next >= 0 {
        LaterShrinks(s.nodes, at, next);
      }
      n, r, j := GetAlone(s1, i, key, next, hash);
      AloneMore(s, i, 1, n, hash);
      GotoTwice(s.(answers := s.answers + Answer(s.nodes, r, key, hash(key))), i, GetAt(key, next), Idle);
      n, j := 1 + n, j + 1;
    }
  }

  lemma AtIsLinked<K, V>(s: State<K, V>, i: nat, key: K, at: int, hash: K -> Word)
    requires Inv(s, hash) && i < |s.threads| && s.threads[i] == GetAt(key, at)
    ensures at == NIL || (0 < at < |s.nodes| && s.nodes[at].keyHash == hash(s.nodes[at].key))
    ensures at >= 0 ==> NextOf(s.nodes, at) == NIL || (0 < NextOf(s.nodes, at) < |s.nodes| && Before(s.nodes, at, NextOf(s.nodes, at)))
  {
    hide MarksOk, CountOk;
    assert PcOk(s.nodes, s.linked, s.stored, s.threads[i], hash);
    if at >= 0 {
      assert LinkOk(s.nodes, s.linked, at) && NodeOk(s.nodes, s.stored, at, hash);
    }
  }

  lemma GetGoesOn<K, V>(s: State<K, V>, i: nat, key: K, at: int, hash: K -> Word)
    requires i < |s.threads| && s.threads[i] == GetAt(key, at) && 0 <= at < |s.nodes| && !Stops(s.nodes, at, key, hash(key))
    requires s.nodes[at].keyHash == hash(s.nodes[at].key)
    ensures Step(s, i, Go(0), hash) == Goto(s, i, GetAt(key, NextOf(s.nodes, at)))
  {
  }

  lemma GetEnds<K, V>(s: State<K, V>, i: nat, key: K, at: int, hash: K -> Word) returns (n: nat)
    requires i < |s.threads| && s.threads[i] == GetAt(key, at) && Stops(s.nodes, at, key, hash(key)) && at < |s.nodes|
    requires at >= 0 ==> s.nodes[at].keyHash == hash(s.nodes[at].key)
    ensures Alone(s, i, n, hash) == Goto(s.(answers := s.answers + Answer(s.nodes, at, key, hash(key))), i, Idle)
  {
    OneAlone(s, i, hash);
    if !Matches(s.nodes, at, key, hash(key)) {
      n := 1;
      assert s.answers + {} == s.answers;
    } else {
      n := 2;
      var s1 := Goto(s, i, GetFlag(key, at, s.nodes[at].value));
      assert Alone(s, i, 1, hash) == s1;
      assert Alone(s, i, 2, hash) == Step(s1, i, Go(0), hash);
      assert s.answers + {} == s.answers;
      GotoTwice(s, i, s1.threads[i], Idle);
      GotoTwice(s.(answers := s.answers + {(key, s.nodes[at].value)}), i, s1.threads[i], Idle);
    }
  }

  /** The node a call reads from the index, if it reads one that was ever linked in. */
  ghost function ReadFrom<K, V>(s: State<K, V>, choice: int): int {
    if choice in s.linked then choice else NIL
  }

  /** An uninterrupted `Get` ends, changes nothing, and answers the value of the first node it comes to that holds the key,
      exactly if that is live. */
  lemma GetSolo<K, V>(s: State<K, V>, i: nat, key: K, choice: int, hash: K -> Word) returns (n: nat, r: int, j: nat)
    requires Inv(s, hash) && i < |s.threads| && s.threads[i].Idle?
    ensures FirstStop(s.nodes, ReadFrom(s, choice), key, hash(key), r, j)
    ensures RunFrom(s, SoloSteps(i, CallGet(key), choice, n), hash) == s.(answers := s.answers + Answer(s.nodes, r, key, hash(key)))
  {
    hide Inv, Alone;
    var s1 := Step(s, i, Begin(CallGet(key)), hash);
    var s2 := Step(s1, i, Go(choice), hash);
    StepKeepsInv(s, i, Begin(CallGet(key)), hash);
    StepKeepsInv(s1, i, Go(choice), hash);
    n, r, j := GetAlone(s2, i, key, ReadFrom(s, choice), hash);
    SoloRun(s, i, CallGet(key), choice, n, hash);
    BackToIdle(s, i, GetIndex(key), GetAt(key, ReadFrom(s, choice)));
  }

  lemma BackToIdle<K, V>(s: State<K, V>, i: nat, x: Pc<K, V>, y: Pc<K, V>)
    requires i < |s.threads| && s.threads[i].Idle?
    ensures s.threads[i := x][i := y][i := Idle] == s.threads
  {
  }

  // ---------- walks over the live nodes ----------

  /** As `FirstStop`, from live node to live node. */
  ghost predicate LiveStop<K, V>(nodes: seq<Node<K, V>>, at: int, key: K, h: nat, r: int, j: nat)
    decreases j
  {
    if j == 0 then r == at && Stops(nodes, at, key, h)
    else at >= 0 && !Stops(nodes, at, key, h) && exists m :: LiveAfter(nodes, at, m) && LiveStop(nodes, m, key, h, r, j - 1)
  }

  /** The same data and the same live nodes behind each node. */
  ghost predicate Tidy<K, V>(a: seq<Node<K, V>>, b: seq<Node<K, V>>) {
    SameData(a, b) && forall r: nat, m :: r < |a| ==> (LiveAfter(a, r, m) <==> LiveAfter(b, r, m))
  }

  lemma TidiedIsTidy<K, V>(a: seq<Node<K, V>>, linked: set<nat>, b: seq<Node<K, V>>, self: nat)
    requires LinksOk(a, linked) && Tidied(a, b, self)
    ensures Tidy(a, b)
  {
    hide LinksOk, NextLive, SameData;
    forall r: nat, m | r < |a| && LiveAfter(b, r, m)
      ensures LiveAfter(a, r, m)
    {
      var m0, k0 := SomeLiveAfter(a, linked, r);
      assert LiveAfter(a, r, m0);
      var k: nat, k': nat :| NextLive(b, r, m, k) && NextLive(b, r, m0, k');
      NextLiveUnique(b, r, m, k, m0, k');
    }
  }

  lemma {:induction false} LiveStopTidy<K, V>(a: seq<Node<K, V>>, b: seq<Node<K, V>>, at: int, key: K, h: nat, r: int, j: nat)
    requires Tidy(a, b) && LiveStop(b, at, key, h, r, j)
    ensures LiveStop(a, at, key, h, r, j)
    decreases j
  {
    hide LiveAfter;
    if j > 0 {
      var m :| LiveAfter(b, at, m) && LiveStop(b, m, key, h, r, j - 1);
      LiveStopTidy(a, b, m, key, h, r, j - 1);
      assert LiveAfter(a, at, m);
    }
  }

  lemma LaterSame<K, V>(a: seq<Node<K, V>>, b: seq<Node<K, V>>, r: nat)
    requires SameData(a, b) && r < |a|
    ensures Later(a, r) == Later(b, r)
  {
    assert forall x :: 0 <= x < |a| ==> a[x].keyHash == b[x].keyHash;
  }

  /** Tidying once from `self` and then from a node behind it. */
  lemma TidiedTwice<K, V>(a: seq<Node<K, V>>, b: seq<Node<K, V>>, c: seq<Node<K, V>>, self: nat, m: nat)
    requires Tidied(a, b, self) && Tidied(b, c, m) && (m == self || Before(a, self, m)) && self < |a| && m < |a|
    ensures Tidied(a, c, self)
    ensures m != self ==> NextOf(c, self) == NextOf(b, self)
  {
    hide LiveAfter;
    forall r: nat | r != self && !Before(a, self, r)
      ensures NextOf(c, r) == NextOf(a, r)
    {
      if r < |a| {
        assert r != m && !Before(b, m, r);
      }
    }
    if m != self {
      assert !Before(b, m, self);
    }
  }

  // ---------- the search of Set ----------

  /** Where the search of a `Set` leaves its thread: at the node that holds the key, or with a new node and the gap for it. */
  ghost function Searched<K, V>(s: State<K, V>, i: nat, key: K, value: V, found: bool, left: nat, right: int, hash: K -> Word): State<K, V>
    requires i < |s.threads|
  {
    if found then Goto(s, i, Storing(key, value, left)) else Allocated(s, i, key, value, left, right, hash)
  }

  lemma SearchedForgets<K, V>(s: State<K, V>, i: nat, x: Pc<K, V>, key: K, value: V, found: bool, left: nat, right: int, hash: K -> Word)
    requires i < |s.threads|
    ensures Searched(s.(threads := s.threads[i := x]), i, key, value, found, left, right, hash)
         == Searched(s, i, key, value, found, left, right, hash)
  {
    hide Goto, Allocated;
    GotoTwice(s, i, x, Storing(key, value, left));
    AllocatedForgets(s, i, x, key, value, left, right, hash);
  }

  /** `next` has been called on `curr`: it holds the key, or the search moves on from it. */
  lemma SearchVisits<K, V>(s: State<K, V>, i: nat, key: K, value: V, prev: int, curr: nat, m: int, k: nat, hash: K -> Word)
    returns (n: nat, nodes': seq<Node<K, V>>)
    requires Inv(s, hash) && i < |s.threads| && s.threads[i] == CallNext(curr, SearchRight(key, value, prev, curr))
    requires curr < |s.nodes| && s.nodes[curr].keyHash <= hash(key) && NextLive(s.nodes, curr, m, k)
    ensures Tidied(s.nodes, nodes', curr) && NextOf(nodes', curr) == m
    ensures Alone(s, i, n, hash)
         == Goto(s.(nodes := nodes'), i,
                 if Matches(s.nodes, curr, key, hash(key)) then Storing(key, value, curr) else CallNext(curr, SearchNext(key, value, curr)))
  {
    hide Inv, NextLive, LiveAfter, Alone, Goto;
    n, nodes' := NextAlone(s, i, [], curr, SearchRight(key, value, prev, curr), m, k, hash);
    assert nodes'[curr] == s.nodes[curr].(next := nodes'[curr].next);
  }

  /** `next` has been called on it once more, for the node to move on to. */
  lemma SearchMoves<K, V>(s: State<K, V>, i: nat, key: K, value: V, curr: nat, m: int, k: nat, hash: K -> Word)
    returns (n: nat, nodes': seq<Node<K, V>>)
    requires Inv(s, hash) && i < |s.threads| && s.threads[i] == CallNext(curr, SearchNext(key, value, curr))
    requires curr < |s.nodes| && NextLive(s.nodes, curr, m, k)
    ensures Tidied(s.nodes, nodes', curr) && NextOf(nodes', curr) == m
    ensures Alone(s, i, n, hash)
         == if m < 0 then Allocated(s.(nodes := nodes'), i, key, value, curr, NIL, hash)
            else Goto(s.(nodes := nodes'), i, CallNext(m, SearchRight(key, value, curr, m)))
  {
    hide Inv, NextLive, LiveAfter, Alone, Goto, Allocated;
    n, nodes' := NextAlone(s, i, [], curr, SearchNext(key, value, curr), m, k, hash);
  }

  /** The node moved on to has a larger hash: the key belongs before it. */
  lemma SearchStops<K, V>(s: State<K, V>, i: nat, key: K, value: V, prev: nat, curr: nat, m: int, k: nat, hash: K -> Word)
    returns (n: nat, nodes': seq<Node<K, V>>)
    requires Inv(s, hash) && i < |s.threads| && s.threads[i] == CallNext(curr, SearchRight(key, value, prev, curr))
    requires curr < |s.nodes| && s.nodes[curr].keyHash > hash(key) && NextLive(s.nodes, curr, m, k)
    ensures Tidied(s.nodes, nodes', curr) && Alone(s, i, n, hash) == Allocated(s.(nodes := nodes'), i, key, value, prev, curr, hash)
  {
    hide Inv, NextLive, LiveAfter, Alone, Goto, Allocated;
    n, nodes' := NextAlone(s, i, [], curr, SearchRight(key, value, prev, curr), m, k, hash);
    assert nodes'[curr] == s.nodes[curr].(next := nodes'[curr].next);
  }

  /** What a search from `curr` has found when it ends, in the nodes as they were and as they are then. */
  ghost predicate SearchedTo<K, V>(nodes: seq<Node<K, V>>, nodes': seq<Node<K, V>>, curr: nat, key: K, h: nat, found: bool,
                                   left: nat, r: int, j: nat) {
    && Tidied(nodes, nodes', curr) && LiveStop(nodes, curr, key, h, r, j) && FirstStop(nodes', curr, key, h, r, j)
    && (found <==> Matches(nodes, r, key, h))
    && (found ==> left == r)
    && (!found ==> j > 0 && Hop(nodes', curr, j - 1) == left && left < |nodes| && NextOf(nodes', left) == r && LiveAfter(nodes', left, r)
                   && nodes'[left].keyHash <= h)
  }

  lemma {:induction false} SearchAlone<K, V>(s: State<K, V>, i: nat, key: K, value: V, prev: int, curr: nat, hash: K -> Word)
    returns (n: nat, nodes': seq<Node<K, V>>, found: bool, left: nat, r: int, j: nat)
    requires Inv(s, hash) && i < |s.threads| && s.threads[i] == CallNext(curr, SearchRight(key, value, prev, curr))
    requires curr < |s.nodes| && s.nodes[curr].keyHash <= hash(key)
    ensures SearchedTo(s.nodes, nodes', curr, key, hash(key), found, left, r, j)
    ensures Alone(s, i, n, hash) == Searched(s.(nodes := nodes'), i, key, value, found, left, r, hash)
    decreases |Later(s.nodes, curr)|
  {
    hide Inv, Later, NextLive, LiveAfter, Tidied, Alone, Step, Allocated, SearchedTo, LinksOk;
    var m, k := LiveHere(s, curr, hash);
    var n1, nodes1 := SearchVisits(s, i, key, value, prev, curr, m, k, hash);
    if Matches(s.nodes, curr, key, hash(key)) {
      n, nodes', found, left, r, j := n1, nodes1, true, curr, curr, 0;
      FoundHere(s.nodes, nodes1, curr, key, hash(key));
    } else {
      var s1 := Alone(s, i, n1, hash);
      AloneKeepsInv(s, i, n1, hash);
      var k1 := StillNext(s.nodes, nodes1, curr, m, k);
      DataSame(s.nodes, nodes1, curr, curr);
      var n2, nodes2 := SearchMoves(s1, i, key, value, curr, m, k1, hash);
      AloneMore(s, i, n1, n2, hash);
      TidiedAgain(s.nodes, nodes1, nodes2, curr);
      if m < 0 {
        n, nodes', found, left, r, j := n1 + n2, nodes2, false, curr, NIL, 1;
        EndedBehind(s.nodes, nodes2, curr, m, k, key, hash(key));
        AllocatedForgets(s.(nodes := nodes2), i, s1.threads[i], key, value, curr, NIL, hash);
      } else {
        n, nodes', found, left, r, j := SearchGoesOn(s, i, key, value, curr, m, k, n1 + n2, nodes2, hash);
      }
    }
  }

  lemma LiveHere<K, V>(s: State<K, V>, curr: nat, hash: K -> Word) returns (m: int, k: nat)
    requires Inv(s, hash) && curr < |s.nodes|
    ensures NextLive(s.nodes, curr, m, k) && LiveAfter(s.nodes, curr, m)
    ensures m == NIL || (0 < m < |s.nodes| && Before(s.nodes, curr, m))
    ensures LinksOk(s.nodes, s.linked)
  {
    hide NodesOk, MarksOk, ThreadsOk, CountOk, NextLive;
    m, k := SomeLiveAfter(s.nodes, s.linked, curr);
  }

  lemma StillNext<K, V>(a: seq<Node<K, V>>, b: seq<Node<K, V>>, curr: nat, m: int, k: nat) returns (k': nat)
    requires Tidied(a, b, curr) && NextLive(a, curr, m, k)
    ensures NextLive(b, curr, m, k')
  {
    hide NextLive;
    assert LiveAfter(a, curr, m);
    k' :| NextLive(b, curr, m, k');
  }

  lemma TidiedAgain<K, V>(a: seq<Node<K, V>>, b: seq<Node<K, V>>, c: seq<Node<K, V>>, self: nat)
    requires Tidied(a, b, self) && Tidied(b, c, self) && self < |a|
    ensures Tidied(a, c, self)
  {
    TidiedTwice(a, b, c, self, self);
  }

  lemma FoundHere<K, V>(nodes: seq<Node<K, V>>, nodes': seq<Node<K, V>>, curr: nat, key: K, h: nat)
    requires Tidied(nodes, nodes', curr) && Matches(nodes, curr, key, h)
    ensures SearchedTo(nodes, nodes', curr, key, h, true, curr, curr, 0)
  {
    hide LiveAfter;
    assert nodes'[curr] == nodes[curr].(next := nodes'[curr].next);
  }

  /** The search ends right behind `curr`: at the end of the list, or before a node of a larger hash. */
  lemma EndedBehind<K, V>(nodes: seq<Node<K, V>>, nodes': seq<Node<K, V>>, curr: nat, m: int, k: nat, key: K, h: nat)
    requires Tidied(nodes, nodes', curr) && NextOf(nodes', curr) == m && NextLive(nodes, curr, m, k)
    requires curr < |nodes| && nodes[curr].keyHash <= h && !Matches(nodes, curr, key, h)
    requires m == NIL || (0 <= m < |nodes| && nodes[m].keyHash > h)
    ensures SearchedTo(nodes, nodes', curr, key, h, false, curr, m, 1)
  {
    hide NextLive;
    assert LiveAfter(nodes, curr, m);
    assert nodes'[curr] == nodes[curr].(next := nodes'[curr].next);
    assert m >= 0 ==> nodes'[m] == nodes[m].(next := nodes'[m].next);
    assert LiveStop(nodes, m, key, h, m, 0) && FirstStop(nodes', m, key, h, m, 0);
    assert Hop(nodes', curr, 0) == curr;
  }

  /** The search goes on from the next live node. */
  lemma SearchGoesOn<K, V>(s: State<K, V>, i: nat, key: K, value: V, curr: nat, m: nat, k: nat, n0: nat, nodes0: seq<Node<K, V>>,
                           hash: K -> Word)
    returns (n: nat, nodes': seq<Node<K, V>>, found: bool, left: nat, r: int, j: nat)
    requires Inv(s, hash) && i < |s.threads| && curr < |s.nodes| && s.nodes[curr].keyHash <= hash(key)
    requires !Matches(s.nodes, curr, key, hash(key)) && NextLive(s.nodes, curr, m, k) && 0 < m < |s.nodes| && Before(s.nodes, curr, m)
    requires Tidied(s.nodes, nodes0, curr) && NextOf(nodes0, curr) == m
    requires Alone(s, i, n0, hash) == Goto(s.(nodes := nodes0), i, CallNext(m, SearchRight(key, value, curr, m)))
    ensures SearchedTo(s.nodes, nodes', curr, key, hash(key), found, left, r, j)
    ensures Alone(s, i, n, hash) == Searched(s.(nodes := nodes'), i, key, value, found, left, r, hash)
    decreases |Later(s.nodes, curr)|, 0
  {
    hide Inv, Later, NextLive, LiveAfter, Tidied, Alone, Step, Allocated, SearchedTo, Before, LinksOk;
    var s2 := Alone(s, i, n0, hash);
    AloneKeepsInv(s, i, n0, hash);
    DataSame(s.nodes, nodes0, curr, m);
    var m2, k2 := LiveHere(s2, m, hash);
    var n3;
    if nodes0[m].keyHash > hash(key) {
      n3, nodes' := SearchStops(s2, i, key, value, curr, m, m2, k2, hash);
      found, left, r, j := false, curr, m, 1;
      TidiedOn(s.nodes, nodes0, nodes', curr, m);
      EndedBehind(s.nodes, nodes', curr, m, k, key, hash(key));
      SearchedForgets(s.(nodes := nodes'), i, s2.threads[i], key, value, false, curr, m, hash);
    } else {
      LaterFalls(s.nodes, nodes0, curr, m);
      n3, nodes', found, left, r, j := SearchAlone(s2, i, key, value, curr, m, hash);
      SearchedForgets(s.(nodes := nodes'), i, s2.threads[i], key, value, found, left, r, hash);
      LinksHere(s, hash);
      SearchedFrom(s.nodes, s.linked, nodes0, nodes', curr, m, k, key, hash(key), found, left, r, j);
      j := j + 1;
    }
    AloneMore(s, i, n0, n3, hash);
    n := n0 + n3;
  }

  lemma LinksHere<K, V>(s: State<K, V>, hash: K -> Word)
    requires Inv(s, hash)
    ensures LinksOk(s.nodes, s.linked)
  {
  }

  lemma DataSame<K, V>(a: seq<Node<K, V>>, b: seq<Node<K, V>>, curr: nat, m: nat)
    requires Tidied(a, b, curr) && m < |a|
    ensures |b| == |a| && b[m].keyHash == a[m].keyHash
  {
    hide LiveAfter;
  }

  lemma LaterFalls<K, V>(a: seq<Node<K, V>>, b: seq<Node<K, V>>, curr: nat, m: nat)
    requires Tidied(a, b, curr) && m < |a| && Before(a, curr, m)
    ensures |Later(b, m)| < |Later(a, curr)|
  {
    hide LiveAfter;
    LaterSame(a, b, m);
    LaterShrinks(a, curr, m);
  }

  lemma TidiedOn<K, V>(a: seq<Node<K, V>>, b: seq<Node<K, V>>, c: seq<Node<K, V>>, curr: nat, m: nat)
    requires Tidied(a, b, curr) && Tidied(b, c, m) && Before(a, curr, m) && curr < |a| && m < |a| && NextOf(b, curr) == m
    ensures Tidied(a, c, curr) && NextOf(c, curr) == m
  {
    TidiedTwice(a, b, c, curr, m);
  }

  lemma SearchedFrom<K, V>(a: seq<Node<K, V>>, linked: set<nat>, b: seq<Node<K, V>>, c: seq<Node<K, V>>, curr: nat, m: nat, k: nat,
                           key: K, h: nat, found: bool, left: nat, r: int, j: nat)
    requires LinksOk(a, linked) && Tidied(a, b, curr) && NextOf(b, curr) == m && NextLive(a, curr, m, k) && curr < |a| && m < |a|
    requires Before(a, curr, m) && a[curr].keyHash <= h && !Matches(a, curr, key, h)
    requires SearchedTo(b, c, m, key, h, found, left, r, j)
    ensures SearchedTo(a, c, curr, key, h, found, left, r, j + 1)
  {
    hide LinksOk, NextLive, LiveAfter, Before;
    TidiedOn(a, b, c, curr, m);
    TidiedIsTidy(a, linked, b, curr);
    LiveStopTidy(a, b, m, key, h, r, j);
    assert LiveAfter(a, curr, m) by { LiveIs(a, curr, m, k); }
    assert c[curr] == a[curr].(next := c[curr].next);
    if r >= 0 && r < |a| {
      assert b[r] == a[r].(next := b[r].next);
    }
    assert Hop(c, curr, j) == if j > 0 then Hop(c, m, j - 1) else curr;
  }

  lemma LiveIs<K, V>(nodes: seq<Node<K, V>>, r: nat, m: int, k: nat)
    requires NextLive(nodes, r, m, k)
    ensures LiveAfter(nodes, r, m)
  {
  }

  // ---------- Set ----------

  /** Adding a node at the end of the memory changes nothing behind the others. */
  lemma {:induction false} LiveAfterGrows<K, V>(nodes: seq<Node<K, V>>, linked: set<nat>, x: Node<K, V>, r: nat, m: int, k: nat)
    requires LinksOk(nodes, linked) && r < |nodes| && NextLive(nodes, r, m, k)
    ensures NextLive(nodes + [x], r, m, k)
    decreases k
  {
    assert LinkOk(nodes, linked, r);
    if k > 0 {
      LiveAfterGrows(nodes, linked, x, NextOf(nodes, r), m, k - 1);
    }
  }

  /** The nodes once the new one is linked in between `left` and `right`. */
  ghost function LinkedIn<K, V>(nodes: seq<Node<K, V>>, left: nat, alloc: nat, right: int): seq<Node<K, V>> {
    WithNext(WithNext(nodes, alloc, right), left, alloc)
  }

  /** From the gap the search found, the new node is linked in and counted. */
  lemma LinkAlone<K, V>(s: State<K, V>, i: nat, key: K, value: V, left: nat, right: int, linked0: set<nat>, hash: K -> Word)
    returns (n: nat, nodes': seq<Node<K, V>>)
    requires i < |s.threads| && left < |s.nodes| && LinksOk(s.nodes, linked0) && LiveAfter(s.nodes, left, right)
    requires Inv(Allocated(s, i, key, value, left, right, hash), hash)
    ensures Tidied(s.nodes + [Node(hash(key), key, value, NIL, false)], nodes', left) && NextOf(nodes', left) == right
    ensures Alone(Allocated(s, i, key, value, left, right, hash), i, n, hash)
         == Goto(s.(nodes := LinkedIn(nodes', left, |s.nodes|, right), linked := s.linked + {|s.nodes|},
                    numItems := AddWrapped(s.numItems, 1)), i, Idle)
  {
    hide Inv, LinksOk, NextLive, Tidied, Alone, Step, WithNext, Before;
    var alloc, x := |s.nodes|, Node(hash(key), key, value, NIL, false);
    var s1 := Allocated(s, i, key, value, left, right, hash);
    var k: nat :| NextLive(s.nodes, left, right, k);
    LiveAfterGrows(s.nodes, linked0, x, left, right, k);
    var n1;
    n1, nodes' := NextAlone(s1, i, [], left, BeforeAdd(key, value, alloc, left, right), right, k, hash);
    LinkSteps(s, s1, i, key, value, left, right, n1, nodes', hash);
    n := n1 + 3;
  }

  lemma LinkSteps<K, V>(s: State<K, V>, s1: State<K, V>, i: nat, key: K, value: V, left: nat, right: int, n1: nat,
                        nodes': seq<Node<K, V>>, hash: K -> Word)
    requires i < |s.threads| && left < |s.nodes| && s1 == Allocated(s, i, key, value, left, right, hash) && NextOf(nodes', left) == right
    requires Alone(s1, i, n1, hash)
          == NextReturns(s1.(nodes := nodes'), i, [], BeforeAdd(key, value, |s.nodes|, left, right), right, hash)
    ensures Alone(s1, i, n1 + 3, hash)
         == Goto(s.(nodes := LinkedIn(nodes', left, |s.nodes|, right), linked := s.linked + {|s.nodes|},
                    numItems := AddWrapped(s.numItems, 1)), i, Idle)
  {
    hide Alone, Inv, HashAt, HoldsKey;
    var alloc := |s.nodes|;
    var a := Goto(s.(nodes := WithNext(nodes', alloc, right)), i, Linking(key, value, alloc, left, right));
    assert Alone(s1, i, n1, hash) == a by {
      GotoTwice(s.(nodes := WithNext(nodes', alloc, right)), i, s1.threads[i], a.threads[i]);
    }
    var b := Goto(s.(nodes := LinkedIn(nodes', left, alloc, right), linked := s.linked + {alloc}), i, Counting);
    assert Step(a, i, Go(0), hash) == b by {
      GotoTwice(s.(nodes := LinkedIn(nodes', left, alloc, right), linked := s.linked + {alloc}), i, a.threads[i], Counting);
    }
    var c := Goto(s.(nodes := b.nodes, linked := b.linked, numItems := AddWrapped(s.numItems, 1)), i, Indexing);
    assert Step(b, i, Go(0), hash) == c by {
      GotoTwice(s.(nodes := b.nodes, linked := b.linked, numItems := AddWrapped(s.numItems, 1)), i, Counting, Indexing);
    }
    GotoTwice(s.(nodes := b.nodes, linked := b.linked, numItems := AddWrapped(s.numItems, 1)), i, Indexing, Idle);
    ThreeMore(s1, i, n1, a, b, c, hash);
  }

  lemma ThreeMore<K, V>(s: State<K, V>, i: nat, n: nat, a: State<K, V>, b: State<K, V>, c: State<K, V>, hash: K -> Word)
    requires Alone(s, i, n, hash) == a && Step(a, i, Go(0), hash) == b && Step(b, i, Go(0), hash) == c
    ensures Alone(s, i, n + 3, hash) == Step(c, i, Go(0), hash)
  {
    hide Step;
    assert Alone(s, i, n + 1, hash) == b;
    assert Alone(s, i, n + 2, hash) == c;
  }

  /** At the node that holds the key, its value is replaced. */
  lemma StoreAlone<K, V>(s: State<K, V>, i: nat, key: K, value: V, r: nat, hash: K -> Word)
    requires i < |s.threads| && s.threads[i] == Storing(key, value, r)
    ensures Alone(s, i, 2, hash) == Goto(s.(nodes := WithStored(s.nodes, r, value)), i, Idle)
  {
    OneAlone(s, i, hash);
    var a := Goto(s.(nodes := WithStored(s.nodes, r, value)), i, Indexing);
    assert Alone(s, i, 1, hash) == a;
    assert Alone(s, i, 2, hash) == Step(a, i, Go(0), hash);
    GotoTwice(s.(nodes := WithStored(s.nodes, r, value)), i, Indexing, Idle);
  }

  /** The data of the nodes, but for one of them, are as they were. */
  ghost predicate DataKept<K, V>(a: seq<Node<K, V>>, b: seq<Node<K, V>>, but: int) {
    |a| <= |b| && forall r :: 0 <= r < |a| && r != but ==> b[r] == a[r].(next := b[r].next)
  }

  /** What a `Set` that began its search at `start` has done to the nodes. */
  ghost predicate SetDone<K, V>(nodes: seq<Node<K, V>>, nodes': seq<Node<K, V>>, start: nat, key: K, value: V, h: nat, found: bool,
                                r: int, j: nat) {
    && LiveStop(nodes, start, key, h, r, j) && (found <==> Matches(nodes, r, key, h))
    && (found ==> |nodes'| == |nodes| && DataKept(nodes, nodes', r) && nodes'[r] == nodes[r].(next := nodes'[r].next, value := value)
                  && FirstStop(nodes', start, key, h, r, j))
    && (!found ==> |nodes'| == |nodes| + 1 && DataKept(nodes, nodes', NIL) && nodes'[|nodes|] == Node(h, key, value, r, false)
                   && FirstStop(nodes', start, key, h, |nodes|, j))
  }

  /** The state after it: only the nodes, the record of what was stored, and for a new node the list and the counter differ. */
  ghost function AfterSet<K, V>(s: State<K, V>, key: K, value: V, found: bool, nodes': seq<Node<K, V>>): State<K, V> {
    var t := s.(nodes := nodes', stored := s.stored + {(key, value)});
    if found then t else t.(linked := s.linked + {|s.nodes|}, numItems := (s.numItems + 1) % TWO64)
  }

  lemma {:induction false} StoredStops<K, V>(nodes: seq<Node<K, V>>, x: nat, value: V, at: int, key: K, h: nat, r: int, j: nat)
    requires FirstStop(nodes, at, key, h, r, j) && x < |nodes|
    ensures FirstStop(WithStored(nodes, x, value), at, key, h, r, j)
    decreases j
  {
    if j > 0 {
      StoredStops(nodes, x, value, NextOf(nodes, at), key, h, r, j - 1);
    }
  }

  /** The walk that ended behind `left` now ends at the node linked in there. */
  lemma {:induction false} InsertedStops<K, V>(nodes: seq<Node<K, V>>, nodes': seq<Node<K, V>>, linked: set<nat>, at: nat, left: nat,
                                               key: K, h: nat, r: int, j: nat)
    requires FirstStop(nodes, at, key, h, r, j) && j > 0 && Hop(nodes, at, j - 1) == left && LinksOk(nodes, linked)
    requires |nodes'| == |nodes| + 1 && DataKept(nodes, nodes', NIL) && Matches(nodes', |nodes|, key, h) && NextOf(nodes', left) == |nodes|
    requires forall x: nat :: x < |nodes| && x != left && !Before(nodes, left, x) ==> NextOf(nodes', x) == NextOf(nodes, x)
    requires at < |nodes|
    ensures FirstStop(nodes', at, key, h, |nodes|, j)
    decreases j
  {
    hide LinksOk;
    assert nodes'[at] == nodes[at].(next := nodes'[at].next);
    if j == 1 {
      assert Hop(nodes, at, 0) == at;
      assert FirstStop(nodes', |nodes|, key, h, |nodes|, 0);
    } else {
      HopsGoForward(nodes, linked, at, j - 1);
      assert at != left && !Before(nodes, left, at);
      var n := NextOf(nodes, at);
      assert Hop(nodes, at, j - 1) == Hop(nodes, n, j - 2);
      NextLinked(nodes, linked, at);
      InsertedStops(nodes, nodes', linked, n, left, key, h, r, j - 1);
    }
  }

  lemma NextLinked<K, V>(nodes: seq<Node<K, V>>, linked: set<nat>, at: nat)
    requires LinksOk(nodes, linked) && at < |nodes|
    ensures NextOf(nodes, at) == NIL || (NextOf(nodes, at) in linked && 0 < NextOf(nodes, at) < |nodes|)
  {
    assert LinkOk(nodes, linked, at);
  }

  /** Where the search of a call starts: at the node read from the index if that comes early enough, or at the head. */
  ghost function StartOf<K, V>(s: State<K, V>, choice: int, h: nat): nat {
    if choice in s.linked && choice < |s.nodes| && s.nodes[choice].keyHash <= h then choice else 0
  }

  lemma SetBegins<K, V>(s: State<K, V>, i: nat, key: K, value: V, choice: int, hash: K -> Word) returns (s2: State<K, V>)
    requires Inv(s, hash) && i < |s.threads| && s.threads[i].Idle?
    ensures s2 == Step(Step(s, i, Begin(CallSet(key, value)), hash), i, Go(choice), hash) && Inv(s2, hash)
    ensures var start := StartOf(s, choice, hash(key));
            start < |s.nodes| && s.nodes[start].keyHash <= hash(key)
            && s2 == Goto(s.(stored := s.stored + {(key, value)}), i, CallNext(start, SearchRight(key, value, NIL, start)))
  {
    var s1 := Step(s, i, Begin(CallSet(key, value)), hash);
    StepKeepsInv(s, i, Begin(CallSet(key, value)), hash);
    s2 := Step(s1, i, Go(choice), hash);
    StepKeepsInv(s1, i, Go(choice), hash);
    var start := StartOf(s, choice, hash(key));
    GotoTwice(s.(stored := s.stored + {(key, value)}), i, SetIndex(key, value), CallNext(start, SearchRight(key, value, NIL, start)));
  }

  lemma StoredDone<K, V>(nodes: seq<Node<K, V>>, nodes': seq<Node<K, V>>, start: nat, key: K, value: V, h: nat, left: nat, r: int, j: nat)
    requires SearchedTo(nodes, nodes', start, key, h, true, left, r, j)
    ensures left == r && left < |nodes| && SetDone(nodes, WithStored(nodes', r, value), start, key, value, h, true, r, j)
  {
    hide LiveAfter;
    assert nodes'[r] == nodes[r].(next := nodes'[r].next);
    StoredStops(nodes', r, value, start, key, h, r, j);
  }

  /** An old node and the new one, once that is linked in. */
  lemma InsertedData<K, V>(nodes: seq<Node<K, V>>, nodes1: seq<Node<K, V>>, nodes2: seq<Node<K, V>>, start: nat, left: nat, r: int,
                           x: Node<K, V>)
    requires Tidied(nodes, nodes1, start) && Tidied(nodes1 + [x], nodes2, left) && left < |nodes| && NextOf(nodes1, left) == r
    ensures var nodes' := LinkedIn(nodes2, left, |nodes|, r);
            |nodes'| == |nodes| + 1 && DataKept(nodes, nodes', NIL) && DataKept(nodes1, nodes', NIL)
            && nodes'[|nodes|] == x.(next := r) && NextOf(nodes', left) == |nodes|
            && forall y: nat :: y < |nodes1| && y != left && !Before(nodes1, left, y) ==> NextOf(nodes', y) == NextOf(nodes1, y)
  {
    hide LiveAfter;
    var more, nodes' := nodes1 + [x], LinkedIn(nodes2, left, |nodes|, r);
    forall y | 0 <= y < |nodes|
      ensures nodes'[y] == nodes[y].(next := nodes'[y].next) && nodes'[y] == nodes1[y].(next := nodes'[y].next)
    {
      assert nodes1[y] == nodes[y].(next := nodes1[y].next);
      assert nodes2[y] == more[y].(next := nodes2[y].next);
    }
    assert nodes2[|nodes|] == more[|nodes|].(next := nodes2[|nodes|].next);
    forall y: nat | y < |nodes1| && y != left && !Before(nodes1, left, y)
      ensures NextOf(nodes', y) == NextOf(nodes1, y)
    {
      assert NextOf(nodes2, y) == NextOf(more, y);
    }
  }

  lemma InsertDone<K, V>(nodes: seq<Node<K, V>>, nodes1: seq<Node<K, V>>, nodes2: seq<Node<K, V>>, linked: set<nat>, start: nat,
                         key: K, value: V, h: nat, left: nat, r: int, j: nat)
    requires SearchedTo(nodes, nodes1, start, key, h, false, left, r, j) && LinksOk(nodes1, linked) && start < |nodes|
    requires Tidied(nodes1 + [Node(h, key, value, NIL, false)], nodes2, left)
    ensures left < |nodes| && SetDone(nodes, LinkedIn(nodes2, left, |nodes|, r), start, key, value, h, false, r, j)
  {
    hide LiveAfter, LinksOk, Tidied, FirstStop, LiveStop;
    var nodes' := LinkedIn(nodes2, left, |nodes|, r);
    SearchedMiss(nodes, nodes1, start, key, h, left, r, j);
    InsertedData(nodes, nodes1, nodes2, start, left, r, Node(h, key, value, NIL, false));
    InsertedStops(nodes1, nodes', linked, start, left, key, h, r, j);
  }

  lemma SearchedMiss<K, V>(nodes: seq<Node<K, V>>, nodes': seq<Node<K, V>>, start: nat, key: K, h: nat, left: nat, r: int, j: nat)
    requires SearchedTo(nodes, nodes', start, key, h, false, left, r, j)
    ensures |nodes'| == |nodes| && left < |nodes| && NextOf(nodes', left) == r && LiveAfter(nodes', left, r) && j > 0
    ensures Hop(nodes', start, j - 1) == left && FirstStop(nodes', start, key, h, r, j)
  {
    hide LiveAfter, FirstStop, LiveStop;
  }

  lemma LinksShorter<K, V>(nodes: seq<Node<K, V>>, x: Node<K, V>, linked: set<nat>)
    requires LinksOk(nodes + [x], linked) && InRange(linked, |nodes|)
    ensures LinksOk(nodes, linked)
  {
    var more := nodes + [x];
    forall r | 0 <= r < |nodes|
      ensures LinkOk(nodes, linked, r)
    {
      assert LinkOk(more, linked, r) && more[r] == nodes[r];
      assert NextOf(more, r) == NextOf(nodes, r);
    }
  }

  lemma NewNodeLinks<K, V>(b: State<K, V>, i: nat, key: K, value: V, left: nat, right: int, n: nat, hash: K -> Word)
    requires i < |b.threads| && Inv(Allocated(b, i, key, value, left, right, hash), hash) && InRange(b.linked, |b.nodes|)
    ensures LinksOk(b.nodes, b.linked)
  {
    hide NodesOk, MarksOk, ThreadsOk, CountOk, Before;
    LinksShorter(b.nodes, Node(hash(key), key, value, NIL, false), b.linked);
  }

  /** Where a `Set` is once it has read the index. */
  ghost function SetStart<K, V>(s: State<K, V>, i: nat, key: K, value: V, choice: int, hash: K -> Word): State<K, V> {
    Step(Step(s, i, Begin(CallSet(key, value)), hash), i, Go(choice), hash)
  }

  lemma SetSearches<K, V>(s: State<K, V>, i: nat, key: K, value: V, choice: int, hash: K -> Word)
    returns (n: nat, nodes': seq<Node<K, V>>, found: bool, left: nat, r: int, j: nat)
    requires Inv(s, hash) && i < |s.threads| && s.threads[i].Idle?
    ensures SearchedTo(s.nodes, nodes', StartOf(s, choice, hash(key)), key, hash(key), found, left, r, j)
    ensures var s3 := Alone(SetStart(s, i, key, value, choice, hash), i, n, hash);
            Inv(s3, hash)
            && s3 == Searched(s.(stored := s.stored + {(key, value)}, nodes := nodes'), i, key, value, found, left, r, hash)
  {
    hide Inv, Alone, Step, SearchedTo, LinksOk, Allocated, Searched;
    var s2 := SetBegins(s, i, key, value, choice, hash);
    n, nodes', found, left, r, j := SearchAlone(s2, i, key, value, NIL, StartOf(s, choice, hash(key)), hash);
    AloneKeepsInv(s2, i, n, hash);
    var b := s.(stored := s.stored + {(key, value)}, nodes := nodes');
    SearchedForgets(b, i, s2.threads[i], key, value, found, left, r, hash);
    assert s2.(nodes := nodes') == b.(threads := b.threads[i := s2.threads[i]]);
  }

  /** An uninterrupted `Set` ends. If a walk over the live nodes from where it starts comes to the key, the value there is
      replaced and nothing else of any node but links; otherwise one new node holds the key and the value, where a walk for
      the key now comes to it, and it is counted. */
  lemma SetSolo<K, V>(s: State<K, V>, i: nat, key: K, value: V, choice: int, hash: K -> Word)
    returns (n: nat, found: bool, nodes': seq<Node<K, V>>, r: int, j: nat)
    requires Inv(s, hash) && i < |s.threads| && s.threads[i].Idle?
    ensures SetDone(s.nodes, nodes', StartOf(s, choice, hash(key)), key, value, hash(key), found, r, j)
    ensures RunFrom(s, SoloSteps(i, CallSet(key, value), choice, n), hash) == AfterSet(s, key, value, found, nodes')
  {
    hide Inv, Alone, Step, SearchedTo, SetDone, LinksOk, Allocated, RunFrom;
    var start := StartOf(s, choice, hash(key));
    var s2 := SetStart(s, i, key, value, choice, hash);
    var n1, nodes1, left;
    n1, nodes1, found, left, r, j := SetSearches(s, i, key, value, choice, hash);
    var b := s.(stored := s.stored + {(key, value)}, nodes := nodes1);
    var n2;
    if found {
      StoredDone(s.nodes, nodes1, start, key, value, hash(key), left, r, j);
      StoreAlone(Alone(s2, i, n1, hash), i, key, value, left, hash);
      nodes' := WithStored(nodes1, r, value);
      n2 := 2;
      GotoTwice(b.(nodes := nodes'), i, Storing(key, value, left), Idle);
    } else {
      SearchedMiss(s.nodes, nodes1, start, key, hash(key), left, r, j);
      LinkedInRange(s, hash);
      NewNodeLinks(b, i, key, value, left, r, n1, hash);
      var nodes2;
      n2, nodes2 := LinkAlone(b, i, key, value, left, r, b.linked, hash);
      InsertDone(s.nodes, nodes1, nodes2, b.linked, start, key, value, hash(key), left, r, j);
      nodes' := LinkedIn(nodes2, left, |s.nodes|, r);
    }
    AloneMore(s2, i, n1, n2, hash);
    n := n1 + n2;
    SoloRun(s, i, CallSet(key, value), choice, n, hash);
    IdleAgain(s, i);
  }

  lemma LinkedInRange<K, V>(s: State<K, V>, hash: K -> Word)
    requires Inv(s, hash)
    ensures InRange(s.linked, |s.nodes|)
  {
    hide NodesOk, MarksOk, ThreadsOk, CountOk;
  }

  lemma IdleAgain<K, V>(s: State<K, V>, i: nat)
    requires i < |s.threads| && s.threads[i].Idle?
    ensures s.threads[i := Idle] == s.threads
  {
  }

  // ---------- Del ----------

  /** What the walk of a `Del` from `e` has come to, and the nodes then. */
  ghost predicate WalkedTo<K, V>(nodes: seq<Node<K, V>>, nodes': seq<Node<K, V>>, e: int, key: K, h: nat, r: int, j: nat) {
    && (if e >= 0 then Tidied(nodes, nodes', e) else nodes' == nodes)
    && LiveStop(nodes, e, key, h, r, j) && FirstStop(nodes', e, key, h, r, j)
  }

  lemma {:induction false} DelAlone<K, V>(s: State<K, V>, i: nat, key: K, e: int, hash: K -> Word)
    returns (n: nat, nodes': seq<Node<K, V>>, r: int, j: nat)
    requires Inv(s, hash) && i < |s.threads| && s.threads[i] == DelAt(key, e)
    ensures WalkedTo(s.nodes, nodes', e, key, hash(key), r, j)
    ensures Alone(s, i, n, hash)
         == Goto(s.(nodes := nodes'), i, if Matches(s.nodes, r, key, hash(key)) then Marking(r) else Idle)
    decreases if e < 0 || e >= |s.nodes| then 0 else 1 + |Later(s.nodes, e)|
  {
    hide Inv, Later, NextLive, LiveAfter, Tidied, Alone, Step, Before;
    DelAtIsLinked(s, i, key, e, hash);
    if Stops(s.nodes, e, key, hash(key)) {
      n, nodes', r, j := 1, s.nodes, e, 0;
      OneAlone(s, i, hash);
      DelEnds(s, i, key, e, hash);
      if e >= 0 {
        NothingTidied(s.nodes, e);
      }
    } else {
      DelGoesOn(s, i, key, e, hash);
      OneAlone(s, i, hash);
      AloneKeepsInv(s, i, 1, hash);
      GotoTwice(s, i, CallNext(e, DelNext(key)), Idle);
      n, nodes', r, j := DelMoves(s, Alone(s, i, 1, hash), i, key, e, hash);
      AloneMore(s, i, 1, n, hash);
      n := 1 + n;
    }
  }

  /** `next` is called on `e`, and the walk goes on from what it returns. */
  lemma DelMoves<K, V>(s: State<K, V>, s1: State<K, V>, i: nat, key: K, e: nat, hash: K -> Word)
    returns (n: nat, nodes': seq<Node<K, V>>, r: int, j: nat)
    requires Inv(s, hash) && Inv(s1, hash) && i < |s.threads| && e < |s.nodes| && !Stops(s.nodes, e, key, hash(key))
    requires s1 == Goto(s, i, CallNext(e, DelNext(key)))
    ensures WalkedTo(s.nodes, nodes', e, key, hash(key), r, j)
    ensures Alone(s1, i, n, hash)
         == Goto(s.(nodes := nodes'), i, if Matches(s.nodes, r, key, hash(key)) then Marking(r) else Idle)
    decreases 1 + |Later(s.nodes, e)|, 0
  {
    hide Inv, Later, NextLive, LiveAfter, Tidied, WalkedTo, Alone, Step, Before, Stops, LinksOk;
    var m, k := LiveHere(s, e, hash);
    var n1, nodes1 := NextAlone(s1, i, [], e, DelNext(key), m, k, hash);
    var s2 := Alone(s1, i, n1, hash);
    AloneKeepsInv(s1, i, n1, hash);
    DataSame(s.nodes, nodes1, e, e);
    if m >= 0 {
      LaterFalls(s.nodes, nodes1, e, m);
    }
    var n2;
    n2, nodes', r, j := DelAlone(s2, i, key, m, hash);
    WalkedFrom(s.nodes, s.linked, nodes1, nodes', e, m, k, key, hash(key), r, j);
    MatchesSame(s.nodes, nodes1, e, r, key, hash(key));
    AloneMore(s1, i, n1, n2, hash);
    n, j := n1 + n2, j + 1;
    GotoTwice(s.(nodes := nodes'), i, s2.threads[i], if Matches(s.nodes, r, key, hash(key)) then Marking(r) else Idle);
    assert s2.(nodes := nodes') == s.(nodes := nodes').(threads := s.threads[i := s2.threads[i]]) by {
      assert s.threads[i := s1.threads[i]][i := s2.threads[i]] == s.threads[i := s2.threads[i]];
    }
  }

  lemma DelAtIsLinked<K, V>(s: State<K, V>, i: nat, key: K, e: int, hash: K -> Word)
    requires Inv(s, hash) && i < |s.threads| && s.threads[i] == DelAt(key, e)
    ensures e == NIL || (0 < e < |s.nodes| && s.nodes[e].keyHash == hash(s.nodes[e].key))
  {
    hide MarksOk, CountOk;
    assert PcOk(s.nodes, s.linked, s.stored, s.threads[i], hash);
    if e >= 0 {
      assert NodeOk(s.nodes, s.stored, e, hash);
    }
  }

  lemma DelEnds<K, V>(s: State<K, V>, i: nat, key: K, e: int, hash: K -> Word)
    requires i < |s.threads| && s.threads[i] == DelAt(key, e) && Stops(s.nodes, e, key, hash(key)) && e < |s.nodes|
    requires e >= 0 ==> s.nodes[e].keyHash == hash(s.nodes[e].key)
    ensures Step(s, i, Go(0), hash) == Goto(s, i, if Matches(s.nodes, e, key, hash(key)) then Marking(e) else Idle)
  {
  }

  lemma DelGoesOn<K, V>(s: State<K, V>, i: nat, key: K, e: int, hash: K -> Word)
    requires i < |s.threads| && s.threads[i] == DelAt(key, e) && !Stops(s.nodes, e, key, hash(key)) && 0 <= e < |s.nodes|
    requires s.nodes[e].keyHash == hash(s.nodes[e].key)
    ensures Step(s, i, Go(0), hash) == Goto(s, i, CallNext(e, DelNext(key)))
  {
  }

  lemma MatchesSame<K, V>(a: seq<Node<K, V>>, b: seq<Node<K, V>>, self: nat, r: int, key: K, h: nat)
    requires Tidied(a, b, self)
    ensures Matches(a, r, key, h) <==> Matches(b, r, key, h)
  {
    hide LiveAfter;
    if 0 <= r < |a| {
      assert b[r] == a[r].(next := b[r].next);
    }
  }

  lemma WalkedFrom<K, V>(a: seq<Node<K, V>>, linked: set<nat>, b: seq<Node<K, V>>, c: seq<Node<K, V>>, e: nat, m: int, k: nat,
                         key: K, h: nat, r: int, j: nat)
    requires LinksOk(a, linked) && Tidied(a, b, e) && NextOf(b, e) == m && NextLive(a, e, m, k) && e < |a| && !Stops(a, e, key, h)
    requires m == NIL || (0 < m < |a| && Before(a, e, m))
    requires WalkedTo(b, c, m, key, h, r, j)
    ensures WalkedTo(a, c, e, key, h, r, j + 1)
  {
    hide LinksOk, NextLive, LiveAfter, Before;
    if m >= 0 {
      TidiedOn(a, b, c, e, m);
    }
    TidiedIsTidy(a, linked, b, e);
    LiveStopTidy(a, b, m, key, h, r, j);
    assert LiveAfter(a, e, m) by { LiveIs(a, e, m, k); }
    assert c[e] == a[e].(next := c[e].next);
  }

  /** A walk to `r` stays as it is when nothing changes before `r` but marks and values. */
  lemma {:induction false} StopsKept<K, V>(a: seq<Node<K, V>>, b: seq<Node<K, V>>, linked: set<nat>, at: int, key: K, h: nat, r: nat, j: nat)
    requires FirstStop(a, at, key, h, r, j) && LinksOk(a, linked) && |a| == |b| && 0 <= at < |a| && r < |a|
    requires forall x :: 0 <= x < |a| ==> b[x].keyHash == a[x].keyHash && b[x].key == a[x].key
    requires forall x: nat :: x < |a| && x != r && !Before(a, r, x) ==> NextOf(b, x) == NextOf(a, x)
    ensures FirstStop(b, at, key, h, r, j)
    decreases j
  {
    hide LinksOk;
    if j > 0 {
      StopHop(a, at, key, h, r, j);
      HopsGoForward(a, linked, at, j);
      assert at != r && !Before(a, r, at);
      NextLinked(a, linked, at);
      StopsKept(a, b, linked, NextOf(a, at), key, h, r, j - 1);
    }
  }

  lemma {:induction false} StopHop<K, V>(nodes: seq<Node<K, V>>, at: int, key: K, h: nat, r: int, j: nat)
    requires FirstStop(nodes, at, key, h, r, j)
    ensures Hop(nodes, at, j) == r
    decreases j
  {
    if j > 0 {
      StopHop(nodes, NextOf(nodes, at), key, h, r, j - 1);
    }
  }

  /** From the node found: it is marked, `next` is called on it once, and it is counted off. */
  lemma MarkAlone<K, V>(s: State<K, V>, i: nat, r: nat, hash: K -> Word) returns (n: nat, nodes': seq<Node<K, V>>)
    requires Inv(s, hash) && i < |s.threads| && s.threads[i] == Marking(r) && r < |s.nodes| && !s.nodes[r].deleted
    ensures Tidied(WithMark(s.nodes, r), nodes', r)
    ensures Alone(s, i, n, hash)
         == Goto(s.(nodes := nodes', marks := s.marks + [r], numItems := AddWrapped(s.numItems, -1)), i, Idle)
  {
    hide Inv, NextLive, LiveAfter, Tidied, Alone, Step, WithMark;
    MarkSteps(s, i, r, hash);
    var s2 := Alone(s, i, 2, hash);
    AloneKeepsInv(s, i, 2, hash);
    MarkedSize(s.nodes, r);
    var m, k := LiveHere(s2, r, hash);
    var n1;
    n1, nodes' := NextAlone(s2, i, [], r, UnindexNext(r, s.version), m, k, hash);
    CountOffSteps(s, s2, i, r, m, n1, nodes', hash);
    AloneMore(s, i, 2, n1 + 2, hash);
    n := 2 + (n1 + 2);
  }

  lemma MarkedSize<K, V>(nodes: seq<Node<K, V>>, r: nat)
    ensures |WithMark(nodes, r)| == |nodes|
  {
  }

  lemma MarkSteps<K, V>(s: State<K, V>, i: nat, r: nat, hash: K -> Word)
    requires i < |s.threads| && s.threads[i] == Marking(r) && r < |s.nodes| && !s.nodes[r].deleted
    ensures Alone(s, i, 2, hash)
         == Goto(s.(nodes := WithMark(s.nodes, r), marks := s.marks + [r]), i, CallNext(r, UnindexNext(r, s.version)))
  {
    hide HashAt, HoldsKey, WithMark;
    OneAlone(s, i, hash);
    var a := Goto(s.(nodes := WithMark(s.nodes, r), marks := s.marks + [r]), i, UnindexLoad(r));
    assert Alone(s, i, 1, hash) == a;
    assert Alone(s, i, 2, hash) == Step(a, i, Go(0), hash);
    GotoTwice(s.(nodes := a.nodes, marks := a.marks), i, UnindexLoad(r), CallNext(r, UnindexNext(r, s.version)));
  }

  lemma CountOffSteps<K, V>(s: State<K, V>, s2: State<K, V>, i: nat, r: nat, m: int, n1: nat, nodes': seq<Node<K, V>>, hash: K -> Word)
    requires i < |s.threads|
    requires s2 == Goto(s.(nodes := WithMark(s.nodes, r), marks := s.marks + [r]), i, CallNext(r, UnindexNext(r, s.version)))
    requires Alone(s2, i, n1, hash) == NextReturns(s2.(nodes := nodes'), i, [], UnindexNext(r, s.version), m, hash)
    ensures Alone(s2, i, n1 + 2, hash)
         == Goto(s.(nodes := nodes', marks := s.marks + [r], numItems := AddWrapped(s.numItems, -1)), i, Idle)
  {
    hide Alone, HashAt, HoldsKey, WithMark;
    var base := s.(nodes := nodes', marks := s.marks + [r]);
    var a, b := Goto(base, i, CheckVersion(r, s.version)), Goto(base, i, Uncounting);
    assert Alone(s2, i, n1, hash) == a by { GotoTwice(base, i, s2.threads[i], a.threads[i]); }
    assert Step(a, i, Go(0), hash) == b by { GotoTwice(base, i, a.threads[i], Uncounting); }
    GotoTwice(base.(numItems := AddWrapped(s.numItems, -1)), i, Uncounting, Idle);
    TwoMore(s2, i, n1, a, b, hash);
  }

  lemma TwoMore<K, V>(s: State<K, V>, i: nat, n: nat, a: State<K, V>, b: State<K, V>, hash: K -> Word)
    requires Alone(s, i, n, hash) == a && Step(a, i, Go(0), hash) == b
    ensures Alone(s, i, n + 2, hash) == Step(b, i, Go(0), hash)
  {
    hide Step;
    assert Alone(s, i, n + 1, hash) == b;
  }

  /** What a `Del` that began its walk at `start` has done to the nodes: a live node that holds the key is deleted. */
  ghost predicate DelDone<K, V>(nodes: seq<Node<K, V>>, nodes': seq<Node<K, V>>, start: nat, key: K, h: nat, r: int, j: nat) {
    && LiveStop(nodes, start, key, h, r, j) && |nodes'| == |nodes| && FirstStop(nodes', start, key, h, r, j)
    && if Matches(nodes, r, key, h) then DataKept(nodes, nodes', r) && nodes'[r] == nodes[r].(next := nodes'[r].next, deleted := true)
       else DataKept(nodes, nodes', NIL)
  }

  ghost function AfterDel<K, V>(s: State<K, V>, key: K, h: nat, r: int, nodes': seq<Node<K, V>>): State<K, V> {
    if Matches(s.nodes, r, key, h) && !s.nodes[r].deleted
    then s.(nodes := nodes', marks := s.marks + [r], numItems := (s.numItems - 1) % TWO64)
    else s.(nodes := nodes')
  }

  lemma DelBegins<K, V>(s: State<K, V>, i: nat, key: K, choice: int, hash: K -> Word) returns (s2: State<K, V>)
    requires Inv(s, hash) && i < |s.threads| && s.threads[i].Idle?
    ensures s2 == Step(Step(s, i, Begin(CallDel(key)), hash), i, Go(choice), hash) && Inv(s2, hash)
    ensures var start := StartOf(s, choice, hash(key));
            start < |s.nodes| && !Stops(s.nodes, 0, key, hash(key)) && (start == 0 || start in s.linked)
            && s2 == Goto(s, i, if start > 0 then DelAt(key, start) else CallNext(0, DelNext(key)))
  {
    var s1 := Step(s, i, Begin(CallDel(key)), hash);
    StepKeepsInv(s, i, Begin(CallDel(key)), hash);
    s2 := Step(s1, i, Go(choice), hash);
    StepKeepsInv(s1, i, Go(choice), hash);
    var start := StartOf(s, choice, hash(key));
    GotoTwice(s, i, DelIndex(key), if start > 0 then DelAt(key, start) else CallNext(0, DelNext(key)));
  }

  /** The walk of a `Del`, from wherever it starts. */
  lemma DelWalks<K, V>(s: State<K, V>, s2: State<K, V>, i: nat, key: K, start: nat, hash: K -> Word)
    returns (n: nat, nodes': seq<Node<K, V>>, r: int, j: nat)
    requires Inv(s, hash) && Inv(s2, hash) && i < |s.threads| && start < |s.nodes| && !Stops(s.nodes, 0, key, hash(key))
    requires s2 == Goto(s, i, if start > 0 then DelAt(key, start) else CallNext(0, DelNext(key)))
    ensures WalkedTo(s.nodes, nodes', start, key, hash(key), r, j)
    ensures Alone(s2, i, n, hash) == Goto(s.(nodes := nodes'), i, if Matches(s.nodes, r, key, hash(key)) then Marking(r) else Idle)
  {
    hide Inv, NextLive, LiveAfter, Tidied, WalkedTo, Alone, Step, Before, Stops;
    if start > 0 {
      n, nodes', r, j := DelAlone(s2, i, key, start, hash);
      GotoTwice(s.(nodes := nodes'), i, s2.threads[i], if Matches(s.nodes, r, key, hash(key)) then Marking(r) else Idle);
    } else {
      n, nodes', r, j := DelMoves(s, s2, i, key, 0, hash);
    }
  }

  lemma WalkedData<K, V>(nodes: seq<Node<K, V>>, nodes': seq<Node<K, V>>, start: nat, key: K, h: nat, r: int, j: nat)
    requires WalkedTo(nodes, nodes', start, key, h, r, j)
    ensures |nodes'| == |nodes| && DataKept(nodes, nodes', NIL) && LiveStop(nodes, start, key, h, r, j)
    ensures FirstStop(nodes', start, key, h, r, j) && (Matches(nodes, r, key, h) ==> nodes'[r].deleted == nodes[r].deleted)
  {
    hide LiveAfter, LiveStop, FirstStop;
    if Matches(nodes, r, key, h) {
      assert nodes'[r] == nodes[r].(next := nodes'[r].next);
    }
  }

  /** Nothing was found, or a node that is deleted already. */
  lemma NothingDeleted<K, V>(nodes: seq<Node<K, V>>, nodes': seq<Node<K, V>>, start: nat, key: K, h: nat, r: int, j: nat)
    requires WalkedTo(nodes, nodes', start, key, h, r, j) && (Matches(nodes, r, key, h) ==> nodes[r].deleted)
    ensures DelDone(nodes, nodes', start, key, h, r, j)
  {
    hide LiveStop, FirstStop, Tidied;
    WalkedData(nodes, nodes', start, key, h, r, j);
  }

  lemma NodeDeleted<K, V>(nodes: seq<Node<K, V>>, nodes1: seq<Node<K, V>>, linked: set<nat>, nodes': seq<Node<K, V>>, start: nat,
                          key: K, h: nat, r: nat, j: nat)
    requires WalkedTo(nodes, nodes1, start, key, h, r, j) && Matches(nodes, r, key, h) && Tidied(WithMark(nodes1, r), nodes', r)
    requires LinksOk(nodes1, linked) && start < |nodes|
    ensures DelDone(nodes, nodes', start, key, h, r, j)
  {
    hide LiveStop, LiveAfter, FirstStop, LinksOk, WalkedTo;
    WalkedData(nodes, nodes1, start, key, h, r, j);
    var marked := WithMark(nodes1, r);
    forall x | 0 <= x < |nodes|
      ensures nodes'[x] == marked[x].(next := nodes'[x].next) && nodes1[x] == nodes[x].(next := nodes1[x].next)
    {
    }
    forall x: nat | x < |nodes1| && x != r && !Before(nodes1, r, x)
      ensures NextOf(nodes', x) == NextOf(nodes1, x)
    {
      assert NextOf(nodes', x) == NextOf(marked, x);
    }
    StopsKept(nodes1, nodes', linked, start, key, h, r, j);
  }

  /** An uninterrupted `Del` ends. If a walk over the live nodes from where it starts comes to the key, that node is deleted,
      and counted off if it was live; otherwise nothing but links differs. */
  lemma DelSolo<K, V>(s: State<K, V>, i: nat, key: K, choice: int, hash: K -> Word)
    returns (n: nat, nodes': seq<Node<K, V>>, r: int, j: nat)
    requires Inv(s, hash) && i < |s.threads| && s.threads[i].Idle?
    ensures DelDone(s.nodes, nodes', StartOf(s, choice, hash(key)), key, hash(key), r, j)
    ensures RunFrom(s, SoloSteps(i, CallDel(key), choice, n), hash) == AfterDel(s, key, hash(key), r, nodes')
  {
    hide Inv, Alone, Step, WalkedTo, DelDone, Tidied, LinksOk, WithMark, Stops;
    var start := StartOf(s, choice, hash(key));
    var s2 := DelBegins(s, i, key, choice, hash);
    var n1, nodes1;
    n1, nodes1, r, j := DelWalks(s, s2, i, key, start, hash);
    var s3 := Alone(s2, i, n1, hash);
    AloneKeepsInv(s2, i, n1, hash);
    WalkedData(s.nodes, nodes1, start, key, hash(key), r, j);
    var n2 := 0;
    if Matches(s.nodes, r, key, hash(key)) && !s.nodes[r].deleted {
      LinksHere(s3, hash);
      n2, nodes' := MarkAlone(s3, i, r, hash);
      NodeDeleted(s.nodes, nodes1, s3.linked, nodes', start, key, hash(key), r, j);
      var last := s.(nodes := nodes', marks := s.marks + [r], numItems := AddWrapped(s.numItems, -1));
      GotoTwice(last, i, Marking(r), Idle);
    } else {
      nodes' := nodes1;
      NothingDeleted(s.nodes, nodes1, start, key, hash(key), r, j);
      if Matches(s.nodes, r, key, hash(key)) {
        n2 := 1;
        OneAlone(s3, i, hash);
        MarkTwice(s3, i, r, hash);
        GotoTwice(s.(nodes := nodes'), i, Marking(r), Idle);
      }
    }
    AloneMore(s2, i, n1, n2, hash);
    n := n1 + n2;
    SoloRun(s, i, CallDel(key), choice, n, hash);
    IdleAgain(s, i);
  }

  lemma MarkTwice<K, V>(s: State<K, V>, i: nat, r: nat, hash: K -> Word)
    requires i < |s.threads| && s.threads[i] == Marking(r) && r < |s.nodes| && s.nodes[r].deleted
    ensures Step(s, i, Go(0), hash) == Goto(s, i, Idle)
  {
  }

  // ---------- one call after another ----------

  lemma {:induction false} RunsOn<K, V>(s: State<K, V>, a: seq<(nat, Action<K, V>)>, b: seq<(nat, Action<K, V>)>, hash: K -> Word)
    ensures RunFrom(s, a + b, hash) == RunFrom(RunFrom(s, a, hash), b, hash)
  {
    hide Step;
    if b == [] {
      assert a + b == a;
    } else {
      assert (a + b)[..|a + b| - 1] == a + b[..|b| - 1];
      RunsOn(s, a, b[..|b| - 1], hash);
    }
  }

  /** A `Get` that reads the same index node as an uninterrupted `Set` before it answers what was set, exactly if the search
      of the `Set` did not end at a deleted node. */
  lemma SetThenGet<K, V>(s: State<K, V>, i: nat, key: K, value: V, choice: int, hash: K -> Word)
    returns (n: nat, n': nat, found: bool, nodes': seq<Node<K, V>>, r: int, j: nat)
    requires Inv(s, hash) && i < |s.threads| && s.threads[i].Idle? && choice in s.linked && StartOf(s, choice, hash(key)) == choice
    ensures SetDone(s.nodes, nodes', choice, key, value, hash(key), found, r, j)
    ensures var t := RunFrom(s, SoloSteps(i, CallSet(key, value), choice, n) + SoloSteps(i, CallGet(key), choice, n'), hash);
            t.answers == s.answers + if found && s.nodes[r].deleted then {} else {(key, value)}
  {
    hide Inv, RunFrom, SetDone, FirstStop;
    n, found, nodes', r, j := SetSolo(s, i, key, value, choice, hash);
    var a := SoloSteps(i, CallSet(key, value), choice, n);
    var t := AfterSet(s, key, value, found, nodes');
    RunKeepsInv(s, a, hash);
    var r', j';
    n', r', j' := GetSolo(t, i, key, choice, hash);
    SetFinds(s.nodes, nodes', choice, key, value, hash(key), found, r, j, r', j');
    RunsOn(s, a, SoloSteps<K, V>(i, CallGet(key), choice, n'), hash);
  }

  lemma SetFinds<K, V>(nodes: seq<Node<K, V>>, nodes': seq<Node<K, V>>, start: nat, key: K, value: V, h: nat, found: bool, r: int,
                       j: nat, r': int, j': nat)
    requires SetDone(nodes, nodes', start, key, value, h, found, r, j) && FirstStop(nodes', start, key, h, r', j')
    ensures found ==> 0 <= r < |nodes|
    ensures Answer(nodes', r', key, h) == if found && nodes[r].deleted then {} else {(key, value)}
  {
    hide LiveStop, LiveAfter, FirstStop;
    FirstStopUnique(nodes', start, key, h, if found then r else |nodes|, j, r', j');
  }

  /** A `Get` that reads the same index node as an uninterrupted `Del` before it answers nothing. */
  lemma DelThenGet<K, V>(s: State<K, V>, i: nat, key: K, choice: int, hash: K -> Word) returns (n: nat, n': nat)
    requires Inv(s, hash) && i < |s.threads| && s.threads[i].Idle? && choice in s.linked && StartOf(s, choice, hash(key)) == choice
    ensures RunFrom(s, SoloSteps(i, CallDel(key), choice, n) + SoloSteps(i, CallGet(key), choice, n'), hash).answers == s.answers
  {
    hide Inv, RunFrom, DelDone, FirstStop;
    var nodes', r, j;
    n, nodes', r, j := DelSolo(s, i, key, choice, hash);
    var a := SoloSteps<K, V>(i, CallDel(key), choice, n);
    var t := AfterDel(s, key, hash(key), r, nodes');
    RunKeepsInv(s, a, hash);
    var r', j';
    n', r', j' := GetSolo(t, i, key, choice, hash);
    DelHides(s.nodes, nodes', choice, key, hash(key), r, j, r', j');
    assert s.answers + {} == s.answers;
    RunsOn(s, a, SoloSteps<K, V>(i, CallGet(key), choice, n'), hash);
  }

  lemma DelHides<K, V>(nodes: seq<Node<K, V>>, nodes': seq<Node<K, V>>, start: nat, key: K, h: nat, r: int, j: nat, r': int, j': nat)
    requires DelDone(nodes, nodes', start, key, h, r, j) && FirstStop(nodes', start, key, h, r', j')
    ensures Answer(nodes', r', key, h) == {}
  {
    hide LiveStop, LiveAfter, FirstStop;
    FirstStopUnique(nodes', start, key, h, r, j, r', j');
    if 0 <= r < |nodes| && !Matches(nodes, r, key, h) {
      assert nodes'[r] == nodes[r].(next := nodes'[r].next);
    }
  }
}
