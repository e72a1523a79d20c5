/** Two runs in which a finished `Set` drops out of the list. */
module CmapLost {
  import opened Words
  import opened CmapList
  import opened CmapArena
  import opened CmapEffects
  import opened CmapIndex
  import opened CmapThreads
  import opened CmapSafety
  import opened CmapReach

  function LowHash(k: nat): (h: Word)
    ensures h == if k < 2 then k + 1 else 3
  {
    assert Pow2(WORD_BITS) > 3 by { assert Pow2(WORD_BITS) == 4 * Pow2(WORD_BITS - 2); }
    if k < 2 then k + 1 else 3
  }

  type Steps = seq<(nat, Action<nat, nat>)>

  // ---------- the index reads of these runs ----------

  // The hashes 1, 2 and 3 share the first index slot unless the index is nearly as large as the range of hashes. The slot
  // is empty when key 0 is set, and holds its node ever after: `addItemToIndex` replaces a slot only by a smaller hash, and
  // `removeItemFromIndex` of another node leaves it alone.

  lemma {:induction false} FirstSlot(h: nat, shifts: nat)
    requires h < 4 && shifts >= 2
    ensures Shr(h, shifts) == 0
  {
    if shifts > 2 {
      FirstSlot(h / 2, shifts - 1);
    } else {
      assert Shr(h, 2) == Shr(h / 2, 1) == Shr(h / 2 / 2, 0);
    }
  }

  /** Slot `b` after `addItemToIndex` of nodes 1 to `n` in turn. */
  ghost function SlotAfter(nodes: seq<Node<nat, nat>>, n: nat, b: nat, shifts: nat): int {
    if n == 0 then NIL
    else
      var was := SlotAfter(nodes, n - 1, b, shifts);
      NewSlot(was, HashAt(nodes, was), b, n, HashAt(nodes, n), shifts)
  }

  lemma {:induction false} SlotKeepsFirstNode(nodes: seq<Node<nat, nat>>, n: nat, shifts: nat)
    requires shifts >= 2 && n < |nodes| && forall r :: 1 <= r <= n ==> nodes[r].keyHash == r
    ensures SlotAfter(nodes, n, 0, shifts) == if n == 0 then NIL else 1
  {
    hide Shr;
    FirstSlot(1, shifts);
    if n > 0 {
      SlotKeepsFirstNode(nodes, n - 1, shifts);
    }
  }

  predicate ReadsIndex(pc: Pc<nat, nat>) {
    pc.SetIndex? || pc.GetIndex? || pc.DelIndex?
  }

  /** What the slot of the key holds once every linked node has been indexed. */
  ghost function SlotOf(s: State<nat, nat>, key: nat, shifts: nat): int {
    SlotAfter(s.nodes, |s.linked|, Shr(LowHash(key), shifts), shifts)
  }

  /** If the step reads the index, every linked node has been indexed, and the step reads what the slot of its key holds. */
  ghost predicate ReadsSlot(s: State<nat, nat>, i: nat, a: Action<nat, nat>, shifts: nat) {
    i < |s.threads| && ReadsIndex(s.threads[i]) ==>
      (forall t :: t in s.threads ==> !t.Counting? && !t.Indexing?) && a == Go(SlotOf(s, s.threads[i].key, shifts))
  }

  /** The steps lead to `s`, and every read of the index answers what its slot holds. */
  ghost predicate Reaches(steps: Steps, s: State<nat, nat>, shifts: nat) {
    Run(0, 0, 2, steps, LowHash) == s
    && forall k :: 0 <= k < |steps| ==> ReadsSlot(Run(0, 0, 2, steps[..k], LowHash), steps[k].0, steps[k].1, shifts)
  }

  lemma Play(steps: Steps, s: State<nat, nat>, i: nat, a: Action<nat, nat>, shifts: nat) returns (steps': Steps, s': State<nat, nat>)
    requires Reaches(steps, s, shifts)
    requires i < |s.threads| && ReadsIndex(s.threads[i]) ==> ReadsSlot(s, i, a, shifts)
    ensures Reaches(steps', s', shifts) && s' == Step(s, i, a, LowHash) && steps' == steps + [(i, a)]
  {
    hide Step, ReadsSlot;
    steps' := steps + [(i, a)];
    s' := Step(s, i, a, LowHash);
    assert steps'[..|steps'| - 1] == steps;
    forall k | 0 <= k < |steps'|
      ensures ReadsSlot(Run(0, 0, 2, steps'[..k], LowHash), steps'[k].0, steps'[k].1, shifts)
    {
      if k < |steps| {
        assert steps'[..k] == steps[..k];
      } else {
        ReadsSlotElsewhere(s, i, a, shifts);
      }
    }
  }

  lemma ReadsSlotElsewhere(s: State<nat, nat>, i: nat, a: Action<nat, nat>, shifts: nat)
    requires i < |s.threads| && ReadsIndex(s.threads[i]) ==> ReadsSlot(s, i, a, shifts)
    ensures ReadsSlot(s, i, a, shifts)
  {
  }

  /** A step that reads the index, with all of the first `n` nodes linked. */
  lemma PlayRead(steps: Steps, s: State<nat, nat>, i: nat, choice: int, n: nat, shifts: nat) returns (steps': Steps, s': State<nat, nat>)
    requires shifts >= 2 && Reaches(steps, s, shifts)
    requires (forall t :: t in s.threads ==> !t.Counting? && !t.Indexing?)
    requires |s.linked| == n < |s.nodes| && (forall r :: 1 <= r <= n ==> s.nodes[r].keyHash == r) && choice == if n == 0 then NIL else 1
    ensures Reaches(steps', s', shifts) && s' == Step(s, i, Go(choice), LowHash) && steps' == steps + [(i, Go(choice))]
  {
    hide Step, Reaches, Shr;
    SlotKeepsFirstNode(s.nodes, n, shifts);
    if i < |s.threads| && ReadsIndex(s.threads[i]) {
      FirstSlot(LowHash(s.threads[i].key), shifts);
    }
    steps', s' := Play(steps, s, i, Go(choice), shifts);
  }

  // ---------- up to the deletion ----------

  /** The head and the nodes of key 0 and key 1, each with its link. */
  function Nodes(head: int, next1: int, next2: int, gone: bool): seq<Node<nat, nat>> {
    [Node(0, 0, 0, head, false), Node(1, 0, 5, next1, false), Node(2, 1, 7, next2, gone)]
  }

  function Last(): Node<nat, nat> {
    Node(3, 2, 8, NIL, false)
  }

  lemma StartReached(shifts: nat)
    ensures Reaches([], Initial(0, 0, 2), shifts)
  {
  }

  /** Goroutine 0 sets key 0: the search and the new node, then the links. */
  lemma FirstSearch(shifts: nat) returns (steps: Steps, s: State<nat, nat>)
    requires shifts >= 2
    ensures Reaches(steps, s, shifts)
    ensures s == State(Nodes(NIL, NIL, NIL, false)[..2], 0, 0, false, [CallNext(0, BeforeAdd(0, 5, 1, 0, NIL)), Idle],
                       {(0, 5)}, {}, {}, [])
  {
    hide Reaches, ReadsSlot;
    steps, s := [], Initial(0, 0, 2);
    StartReached(shifts);
    assert s.threads == [Idle, Idle];
    steps, s := Play(steps, s, 0, Begin(CallSet(0, 5)), shifts);
    steps, s := PlayRead(steps, s, 0, NIL, 0, shifts);
    assert s.threads[0] == FromHead(0, 5);
    steps, s := Play(steps, s, 0, Go(0), shifts);
    assert s.threads[0] == CallNext(0, SearchNext(0, 5, 0));
    steps, s := Play(steps, s, 0, Go(0), shifts);
    assert s.nodes == Nodes(NIL, NIL, NIL, false)[..2];
    assert s.threads == [CallNext(0, BeforeAdd(0, 5, 1, 0, NIL)), Idle];
  }

  lemma FirstSet(shifts: nat) returns (steps: Steps, s: State<nat, nat>)
    requires shifts >= 2
    ensures Reaches(steps, s, shifts)
    ensures s == State(Nodes(1, NIL, NIL, false)[..2], 1, 0, false, [Idle, Idle], {(0, 5)}, {}, {1}, [])
  {
    hide Reaches, ReadsSlot;
    steps, s := FirstSearch(shifts);
    steps, s := Play(steps, s, 0, Go(0), shifts);
    assert s.threads[0] == Linking(0, 5, 1, 0, NIL);
    steps, s := Play(steps, s, 0, Go(0), shifts);
    assert s.threads[0] == Counting;
    steps, s := Play(steps, s, 0, Go(0), shifts);
    steps, s := Play(steps, s, 0, Go(0), shifts);
    assert s.nodes == Nodes(1, NIL, NIL, false)[..2];
    assert s.threads == [Idle, Idle];
  }

  /** It sets key 1. */
  lemma SecondSet(shifts: nat) returns (steps: Steps, s: State<nat, nat>)
    requires shifts >= 2
    ensures Reaches(steps, s, shifts)
    ensures s == State(Nodes(1, 2, NIL, false), 2, 0, false, [Idle, Idle], {(0, 5), (1, 7)}, {}, {1, 2}, [])
  {
    hide Reaches, ReadsSlot;
    steps, s := FirstSet(shifts);
    steps, s := Play(steps, s, 0, Begin(CallSet(1, 7)), shifts);
    steps, s := PlayRead(steps, s, 0, 1, 1, shifts);
    assert s.threads[0] == CallNext(1, SearchRight(1, 7, NIL, 1));
    steps, s := Play(steps, s, 0, Go(0), shifts);
    assert s.threads[0] == CallNext(1, SearchNext(1, 7, 1));
    steps, s := Play(steps, s, 0, Go(0), shifts);
    assert s.threads[0] == CallNext(1, BeforeAdd(1, 7, 2, 1, NIL));
    steps, s := Play(steps, s, 0, Go(0), shifts);
    assert s.threads[0] == Linking(1, 7, 2, 1, NIL);
    steps, s := Play(steps, s, 0, Go(0), shifts);
    assert s.threads[0] == Counting;
    steps, s := Play(steps, s, 0, Go(0), shifts);
    steps, s := Play(steps, s, 0, Go(0), shifts);
    assert s.nodes == Nodes(1, 2, NIL, false);
    assert s.threads == [Idle, Idle];
  }

  /** It begins to set key 2 and decides to link it behind the node of key 1. */
  lemma ThirdSearch(shifts: nat) returns (steps: Steps, s: State<nat, nat>)
    requires shifts >= 2
    ensures Reaches(steps, s, shifts)
    ensures s == State(Nodes(1, 2, NIL, false) + [Last()], 2, 0, false, [CallNext(2, BeforeAdd(2, 8, 3, 2, NIL)), Idle],
                       {(0, 5), (1, 7), (2, 8)}, {}, {1, 2}, [])
  {
    hide Reaches, ReadsSlot;
    steps, s := SecondSet(shifts);
    steps, s := Play(steps, s, 0, Begin(CallSet(2, 8)), shifts);
    steps, s := PlayRead(steps, s, 0, 1, 2, shifts);
    assert s.threads[0] == CallNext(1, SearchRight(2, 8, NIL, 1));
    steps, s := Play(steps, s, 0, Go(0), shifts);
    assert s.threads[0] == Calling([], Check(1, 2), SearchRight(2, 8, NIL, 1));
    steps, s := Play(steps, s, 0, Go(0), shifts);
    assert s.threads[0] == CallNext(1, SearchNext(2, 8, 1));
    steps, s := Play(steps, s, 0, Go(0), shifts);
    steps, s := Play(steps, s, 0, Go(0), shifts);
    assert s.threads[0] == CallNext(2, SearchRight(2, 8, 1, 2));
    steps, s := Play(steps, s, 0, Go(0), shifts);
    assert s.threads[0] == CallNext(2, SearchNext(2, 8, 2));
    steps, s := Play(steps, s, 0, Go(0), shifts);
    assert s.nodes == Nodes(1, 2, NIL, false) + [Last()];
  }

  const SETS: set<(nat, nat)> := {(0, 5), (1, 7), (2, 8)}

  /** Goroutine 1 finds key 1 and marks its node. */
  lemma Marked(shifts: nat) returns (steps: Steps, s: State<nat, nat>)
    requires shifts >= 2
    ensures Reaches(steps, s, shifts)
    ensures s == State(Nodes(1, 2, NIL, true) + [Last()], 2, 0, false,
                       [CallNext(2, BeforeAdd(2, 8, 3, 2, NIL)), UnindexLoad(2)], SETS, {}, {1, 2}, [2])
  {
    hide Reaches, ReadsSlot;
    steps, s := ThirdSearch(shifts);
    steps, s := Play(steps, s, 1, Begin(CallDel(1)), shifts);
    steps, s := PlayRead(steps, s, 1, 1, 2, shifts);
    assert s.threads[1] == DelAt(1, 1);
    steps, s := Play(steps, s, 1, Go(0), shifts);
    assert s.threads[1] == CallNext(1, DelNext(1));
    steps, s := Play(steps, s, 1, Go(0), shifts);
    assert s.threads[1] == Calling([], Check(1, 2), DelNext(1));
    steps, s := Play(steps, s, 1, Go(0), shifts);
    assert s.threads[1] == DelAt(1, 2);
    steps, s := Play(steps, s, 1, Go(0), shifts);
    assert s.threads[1] == Marking(2);
    steps, s := Play(steps, s, 1, Go(0), shifts);
    assert s.nodes == Nodes(1, 2, NIL, true) + [Last()];
    assert s.threads == [CallNext(2, BeforeAdd(2, 8, 3, 2, NIL)), UnindexLoad(2)];
  }

  /** It finishes deleting key 1; the node is marked but still linked. */
  lemma Deletion(shifts: nat) returns (steps: Steps, s: State<nat, nat>)
    requires shifts >= 2
    ensures Reaches(steps, s, shifts)
    ensures s == State(Nodes(1, 2, NIL, true) + [Last()], 1, 0, false, [CallNext(2, BeforeAdd(2, 8, 3, 2, NIL)), Idle],
                       SETS, {}, {1, 2}, [2])
  {
    hide Reaches, ReadsSlot;
    steps, s := Marked(shifts);
    steps, s := Play(steps, s, 1, Go(0), shifts);
    assert s.threads[1] == CallNext(2, UnindexNext(2, 0));
    steps, s := Play(steps, s, 1, Go(0), shifts);
    assert s.threads[1] == CheckVersion(2, 0);
    steps, s := Play(steps, s, 1, Go(0), shifts);
    assert s.threads[1] == Uncounting;
    steps, s := Play(steps, s, 1, Go(0), shifts);
    assert s.threads == [CallNext(2, BeforeAdd(2, 8, 3, 2, NIL)), Idle];
  }

  /** It deletes key 1 once more and is about to swing the link of node 1 past the marked node. */
  lemma Unlinking(shifts: nat) returns (steps: Steps, s: State<nat, nat>)
    requires shifts >= 2
    ensures Reaches(steps, s, shifts)
    ensures s == State(Nodes(1, 2, NIL, true) + [Last()], 1, 0, false,
                       [CallNext(2, BeforeAdd(2, 8, 3, 2, NIL)), Calling([], Swap(1, 2, NIL), DelNext(1))],
                       SETS, {}, {1, 2}, [2])
  {
    hide Reaches, ReadsSlot;
    steps, s := Deletion(shifts);
    steps, s := Play(steps, s, 1, Begin(CallDel(1)), shifts);
    steps, s := PlayRead(steps, s, 1, 1, 2, shifts);
    assert s.threads[1] == DelAt(1, 1);
    steps, s := Play(steps, s, 1, Go(0), shifts);
    steps, s := Play(steps, s, 1, Go(0), shifts);
    assert s.threads[1] == Calling([], Check(1, 2), DelNext(1));
    steps, s := Play(steps, s, 1, Go(0), shifts);
    assert s.threads[1] == Calling([Frame(1, 2)], Load(2), DelNext(1));
    steps, s := Play(steps, s, 1, Go(0), shifts);
    assert s.threads == [CallNext(2, BeforeAdd(2, 8, 3, 2, NIL)), Calling([], Swap(1, 2, NIL), DelNext(1))];
  }

  // ---------- first way: linked in behind a node that has left ----------

  lemma Unlinked(shifts: nat) returns (steps: Steps, s: State<nat, nat>)
    requires shifts >= 2
    ensures Reaches(steps, s, shifts)
    ensures s == State(Nodes(1, NIL, NIL, true) + [Last()], 1, 0, false, [CallNext(2, BeforeAdd(2, 8, 3, 2, NIL)), Idle],
                       SETS, {}, {1, 2}, [2])
  {
    hide Reaches, ReadsSlot;
    steps, s := Unlinking(shifts);
    steps, s := Play(steps, s, 1, Go(0), shifts);
    assert s.threads[1] == CallNext(1, DelNext(1));
    steps, s := Play(steps, s, 1, Go(0), shifts);
    assert s.threads[1] == DelAt(1, NIL);
    steps, s := Play(steps, s, 1, Go(0), shifts);
    assert s.nodes == Nodes(1, NIL, NIL, true) + [Last()];
    assert s.threads == [CallNext(2, BeforeAdd(2, 8, 3, 2, NIL)), Idle];
  }

  /** Both ways end here: all idle, two items counted, key 2 set and never deleted. */
  function Final(): State<nat, nat> {
    State(Nodes(1, NIL, 3, true) + [Last()], 2, 0, false, [Idle, Idle], SETS, {}, {1, 2, 3}, [2])
  }

  /** Goroutine 0 goes on: its links still fit, so the set succeeds behind a node no walk comes to. */
  lemma SetBehindUnlinked(shifts: nat) returns (steps: Steps)
    requires shifts >= 2
    ensures Reaches(steps, Final(), shifts)
  {
    hide Reaches, ReadsSlot;
    var s;
    steps, s := Unlinked(shifts);
    steps, s := Play(steps, s, 0, Go(0), shifts);
    assert s.threads[0] == Linking(2, 8, 3, 2, NIL);
    steps, s := Play(steps, s, 0, Go(0), shifts);
    assert s.threads[0] == Counting;
    steps, s := Play(steps, s, 0, Go(0), shifts);
    steps, s := Play(steps, s, 0, Go(0), shifts);
    assert s.nodes == Nodes(1, NIL, 3, true) + [Last()];
    assert s.threads == [Idle, Idle];
    assert s.linked == {1, 2, 3};
  }

  // ---------- second way: found, then swung past ----------

  /** Goroutine 0 links key 2 in while the swing of goroutine 1 is pending: the node is in the list. */
  lemma LinkedInTime(shifts: nat) returns (steps: Steps, s: State<nat, nat>)
    requires shifts >= 2
    ensures Reaches(steps, s, shifts)
    ensures s == State(Nodes(1, 2, 3, true) + [Last()], 1, 0, false, [Counting, Calling([], Swap(1, 2, NIL), DelNext(1))],
                       SETS, {}, {1, 2, 3}, [2])
  {
    hide Reaches, ReadsSlot;
    steps, s := Unlinking(shifts);
    steps, s := Play(steps, s, 0, Go(0), shifts);
    assert s.threads[0] == Linking(2, 8, 3, 2, NIL);
    steps, s := Play(steps, s, 0, Go(0), shifts);
    assert s.nodes == Nodes(1, 2, 3, true) + [Last()];
    assert s.threads == [Counting, Calling([], Swap(1, 2, NIL), DelNext(1))];
  }

  lemma SwungPast(shifts: nat) returns (steps: Steps, before: Steps)
    requires shifts >= 2
    ensures Reaches(steps, Final(), shifts) && before + [(1, Go(0))] <= steps
    ensures Reaches(before, State(Nodes(1, 2, 3, true) + [Last()], 1, 0, false,
                                  [Counting, Calling([], Swap(1, 2, NIL), DelNext(1))], SETS, {}, {1, 2, 3}, [2]), shifts)
  {
    hide Reaches, ReadsSlot;
    var s;
    steps, s := LinkedInTime(shifts);
    before := steps;
    steps, s := Play(steps, s, 1, Go(0), shifts);
    assert s.threads[1] == CallNext(1, DelNext(1));
    steps, s := Play(steps, s, 1, Go(0), shifts);
    assert s.threads[1] == DelAt(1, NIL);
    steps, s := Play(steps, s, 1, Go(0), shifts);
    steps, s := Play(steps, s, 0, Go(0), shifts);
    steps, s := Play(steps, s, 0, Go(0), shifts);
    assert s.nodes == Nodes(1, NIL, 3, true) + [Last()];
    assert s.threads == [Idle, Idle];
  }

  // ---------- what is lost ----------

  /** No walk from the head comes to the node of key 2. */
  lemma NotReached(n: nat)
    ensures Hop(Final().nodes, 0, n) != 3
  {
    var nodes := Final().nodes;
    if n >= 2 {
      assert Hop(nodes, 0, n) == Hop(nodes, 1, n - 1) == Hop(nodes, NIL, n - 2);
    } else if n == 1 {
      assert Hop(nodes, 0, 1) == Hop(nodes, 1, 0);
    }
  }

  /** A `Get` of key 2 that reads node 1 from the index, or nothing, finds nothing. */
  lemma GetMisses(choice: int)
    requires choice != 2 && choice != 3
    ensures var t := Step(Step(Step(Step(Final(), 0, Begin(CallGet(2)), LowHash), 0, Go(choice), LowHash), 0, Go(0), LowHash),
                          0, Go(0), LowHash);
            t.threads == [Idle, Idle] && t.answers == {}
  {
    var s0 := Step(Final(), 0, Begin(CallGet(2)), LowHash);
    assert s0.threads == [GetIndex(2), Idle];
    var s1 := Step(s0, 0, Go(choice), LowHash);
    assert s1.threads == [GetAt(2, if choice == 1 then 1 else NIL), Idle];
    var s2 := Step(s1, 0, Go(0), LowHash);
    assert s2.threads == if choice == 1 then [GetAt(2, NIL), Idle] else [Idle, Idle];
    var s3 := Step(s2, 0, Go(0), LowHash);
    assert s3.threads == [Idle, Idle];
  }

  lemma FinalSlot(shifts: nat)
    requires shifts >= 2
    ensures SlotOf(Final(), 2, shifts) == 1
  {
    hide Shr;
    FirstSlot(3, shifts);
    SlotKeepsFirstNode(Final().nodes, 3, shifts);
    assert |Final().linked| == 3;
  }

  /** A finished `Set` is lost: nothing is running, key 2 was set and never deleted, two
      items are counted, no walk from the head comes to its node, and `Get` from the node in the index slot, or from none,
      answers nothing. Every read of the index along the run answers what the slot holds. */
  lemma FinishedSetIsLost(shifts: nat) returns (steps: Steps, s: State<nat, nat>)
    requires shifts >= 2
    ensures s == Run(0, 0, 2, steps, LowHash) == Final() && s.threads == [Idle, Idle] && s.numItems == 2
    ensures s.nodes[3] == Node(3, 2, 8, NIL, false) && 3 in s.linked && 3 !in s.marks && !Reachable(s.nodes, 3)
    ensures forall k :: 0 <= k < |steps| ==> ReadsSlot(Run(0, 0, 2, steps[..k], LowHash), steps[k].0, steps[k].1, shifts)
    ensures SlotOf(s, 2, shifts) == 1
    ensures forall choice: int :: choice == 1 || choice == NIL ==>
              Step(Step(Step(Step(s, 0, Begin(CallGet(2)), LowHash), 0, Go(choice), LowHash), 0, Go(0), LowHash), 0, Go(0), LowHash).answers == {}
  {
    hide Run, Step, Hop, ReadsSlot, SlotOf;
    steps := SetBehindUnlinked(shifts);
    s := Final();
    FinalSlot(shifts);
    NotReachable();
    GetMisses(1);
    GetMisses(NIL);
  }

  lemma NotReachable()
    ensures !Reachable(Final().nodes, 3)
  {
    hide Hop;
    forall n: nat
      ensures Hop(Final().nodes, 0, n) != 3
    {
      NotReached(n);
    }
  }

  /** The same end by the other way: the node was in the list, and a stale swing took it out. */
  lemma FoundSetIsLost(shifts: nat) returns (steps: Steps, before: Steps)
    requires shifts >= 2
    ensures Run(0, 0, 2, steps, LowHash) == Final() && !Reachable(Final().nodes, 3)
    ensures forall k :: 0 <= k < |steps| ==> ReadsSlot(Run(0, 0, 2, steps[..k], LowHash), steps[k].0, steps[k].1, shifts)
    ensures before + [(1, Go(0))] <= steps
    ensures var s := Run(0, 0, 2, before, LowHash);
            Reachable(s.nodes, 3) && StaleSwap(s, 1, Go(0), 3)
  {
    hide Run, Step, ReadsSlot;
    steps, before := SwungPast(shifts);
    NotReachable();
    var nodes := Nodes(1, 2, 3, true) + [Last()];
    assert Hop(nodes, 0, 1) == Hop(nodes, 1, 0) == 1;
    assert Hop(nodes, 2, 1) == Hop(nodes, 3, 0) == 3;
    assert Hop(nodes, 0, 3) == Hop(nodes, 1, 2) == Hop(nodes, 2, 1);
  }
}
