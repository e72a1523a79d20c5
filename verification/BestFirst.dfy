/** What best-first search over a graph has established at each point, on sets of nodes. */
module BestFirst {
  import opened Graphs

  /** The nodes met, those waiting to be expanded, those expanded, the one being expanded, and
      the best ones kept. */
  datatype Sets<T> = Sets(visited: set<T>, waiting: set<T>, expanded: set<T>, open: set<T>, found: set<T>)

  /** Some kept node is no farther than `d`. */
  ghost predicate Within<T>(found: set<T>, score: T -> real, d: real) {
    exists v :: v in found && score(v) <= d
  }

  /** At least one node is kept, whatever `ef` says. */
  function Room(ef: int): nat {
    if ef < 1 then 1 else ef
  }

  /** As many are kept as were visited, as long as there is room. */
  ghost predicate FilledUp<T>(ef: int, visited: set<T>, found: set<T>) {
    |found| == if |visited| < Room(ef) then |visited| else Room(ef)
  }

  /** Nodes kept were waiting or expanded, those were visited, and only reachable ones are. */
  ghost predicate Nested<T>(reach: set<T>, s: Sets<T>) {
    s.found <= s.waiting + s.expanded + s.open && s.waiting + s.expanded + s.open <= s.visited && s.visited <= reach
    && s.waiting !! s.expanded + s.open
  }

  /** The neighbours of expanded nodes were visited. */
  ghost predicate Covered<T>(g: map<T, set<T>>, expanded: set<T>, visited: set<T>) {
    forall v :: v in expanded ==> v in g && g[v] <= visited
  }

  /** For every visited node one that is no farther is kept. */
  ghost predicate Near<T>(found: set<T>, visited: set<T>, score: T -> real) {
    forall w :: w in visited ==> Within(found, score, score(w))
  }

  /** With room for everything reachable, nothing is left out. */
  ghost predicate Lossless<T>(reach: set<T>, ef: int, s: Sets<T>) {
    |reach| <= ef ==> s.found == s.visited && s.visited == s.waiting + s.expanded + s.open
  }

  ghost predicate SearchInv<T>(g: map<T, set<T>>, entry: T, score: T -> real, ef: int, s: Sets<T>) {
    entry in g && entry in s.visited && FilledUp(ef, s.visited, s.found)
    && Nested(Reach(g, {entry}), s) && Covered(g, s.expanded, s.visited)
    && Near(s.found, s.visited, score) && Lossless(Reach(g, {entry}), ef, s)
  }

  lemma SearchBegins<T>(g: map<T, set<T>>, entry: T, score: T -> real, ef: int)
    requires entry in g
    ensures SearchInv(g, entry, score, ef, Sets({entry}, {entry}, {}, {}, {entry}))
  {
    hide Reach;
    assert entry in Reach(g, {entry});
    assert Within({entry}, score, score(entry));
  }

  /** Taking a waiting node for expansion. */
  lemma SearchTakes<T>(g: map<T, set<T>>, entry: T, score: T -> real, ef: int, s: Sets<T>, c: T)
    requires SearchInv(g, entry, score, ef, s) && c in s.waiting && s.open == {}
    ensures SearchInv(g, entry, score, ef, s.(waiting := s.waiting - {c}, open := {c}))
  {
    hide Reach, Covered, Near;
    assert s.waiting - {c} + s.expanded + {c} == s.waiting + s.expanded + s.open;
  }

  lemma SearchExpanded<T>(g: map<T, set<T>>, entry: T, score: T -> real, ef: int, s: Sets<T>, c: T)
    requires SearchInv(g, entry, score, ef, s) && s.open == {c} && c in g && g[c] <= s.visited
    ensures SearchInv(g, entry, score, ef, s.(open := {}, expanded := s.expanded + {c}))
  {
    hide Reach, Near;
    assert s.waiting + (s.expanded + {c}) + {} == s.waiting + s.expanded + s.open;
  }

  /** A neighbour of a reachable node is reachable. */
  lemma NeighborReached<T>(g: map<T, set<T>>, entry: T, c: T, n: T)
    requires GraphOk(g) && entry in g && c in Reach(g, {entry}) && n in g[c]
    ensures n in Reach(g, {entry})
  {
    hide Reach;
    ReachIsClosed(g, {entry});
  }

  lemma CoveredMore<T>(g: map<T, set<T>>, expanded: set<T>, visited: set<T>, n: T)
    requires Covered(g, expanded, visited)
    ensures Covered(g, expanded, visited + {n})
  {
  }

  lemma NearMore<T>(found: set<T>, visited: set<T>, score: T -> real, n: T)
    requires Near(found, visited, score) && Within(found, score, score(n))
    ensures Near(found, visited + {n}, score)
  {
    hide Within;
  }

  lemma NearKeeps<T>(found: set<T>, visited: set<T>, score: T -> real, n: T)
    requires Near(found, visited, score)
    ensures Near(found + {n}, visited + {n}, score)
  {
    hide Within;
    forall w | w in visited + {n}
      ensures Within(found + {n}, score, score(w))
    {
      if w in visited {
        WithinMore(found, score, n, score(w));
      } else {
        WithinSelf(found + {n}, score, n);
      }
    }
  }

  lemma WithinMore<T>(found: set<T>, score: T -> real, n: T, d: real)
    requires Within(found, score, d)
    ensures Within(found + {n}, score, d)
  {
    var v :| v in found && score(v) <= d;
    assert v in found + {n};
  }

  lemma WithinSelf<T>(found: set<T>, score: T -> real, n: T)
    requires n in found
    ensures Within(found, score, score(n))
  {
  }

  lemma WithinFarther<T>(found: set<T>, score: T -> real, d: real, e: real)
    requires Within(found, score, d) && d <= e
    ensures Within(found, score, e)
  {
  }

  lemma RoomLeft<T>(visited: set<T>, reach: set<T>, n: T)
    requires visited <= reach && n in reach && n !in visited
    ensures |visited| < |reach|
  {
    SubsetSize(visited, reach);
  }

  /** A neighbour too far to be kept is only visited. */
  lemma SearchSkips<T>(g: map<T, set<T>>, entry: T, score: T -> real, ef: int, s: Sets<T>, n: T, bound: real)
    requires SearchInv(g, entry, score, ef, s) && n !in s.visited && n in Reach(g, {entry})
    requires Within(s.found, score, bound) && score(n) >= bound && |s.found| >= ef
    ensures SearchInv(g, entry, score, ef, s.(visited := s.visited + {n}))
  {
    hide Reach, Covered, Near, Within;
    CoveredMore(g, s.expanded, s.visited, n);
    WithinFarther(s.found, score, bound, score(n));
    NearMore(s.found, s.visited, score, n);
    RoomLeft(s.visited, Reach(g, {entry}), n);
  }

  lemma NestedMore<T>(reach: set<T>, s: Sets<T>, n: T)
    requires Nested(reach, s) && n in reach && n !in s.visited
    ensures Nested(reach, s.(visited := s.visited + {n}, waiting := s.waiting + {n}, found := s.found + {n}))
  {
  }

  lemma FoundVisited<T>(reach: set<T>, s: Sets<T>)
    requires Nested(reach, s)
    ensures s.found <= s.visited
  {
    assert s.found <= s.waiting + s.expanded + s.open <= s.visited;
  }

  lemma LosslessMore<T>(reach: set<T>, ef: int, s: Sets<T>, n: T)
    requires Lossless(reach, ef, s)
    ensures Lossless(reach, ef, s.(visited := s.visited + {n}, waiting := s.waiting + {n}, found := s.found + {n}))
  {
    if |reach| <= ef {
      assert s.waiting + {n} + s.expanded + s.open == s.waiting + s.expanded + s.open + {n};
    }
  }

  /** A kept neighbour waits for expansion too. */
  lemma SearchKeeps<T>(g: map<T, set<T>>, entry: T, score: T -> real, ef: int, s: Sets<T>, n: T)
    requires SearchInv(g, entry, score, ef, s) && n !in s.visited && n in Reach(g, {entry})
    requires |s.found| + 1 <= ef
    ensures SearchInv(g, entry, score, ef, s.(visited := s.visited + {n}, waiting := s.waiting + {n}, found := s.found + {n}))
  {
    hide Reach, Covered, Near, Lossless, Nested;
    NestedMore(Reach(g, {entry}), s, n);
    FoundVisited(Reach(g, {entry}), s);
    CoveredMore(g, s.expanded, s.visited, n);
    NearKeeps(s.found, s.visited, score, n);
    LosslessMore(Reach(g, {entry}), ef, s, n);
  }

  /** Giving up the farthest of at least two loses no nearness. */
  lemma WithoutFarthest<T>(found: set<T>, score: T -> real, r: T, d: real)
    requires r in found && |found| >= 2 && Within(found, score, d)
    requires forall v :: v in found ==> score(v) <= score(r)
    ensures Within(found - {r}, score, d)
  {
    var v :| v in found && score(v) <= d;
    if v == r {
      assert |found - {r}| >= 1;
      assert found - {r} != {};
      var v' :| v' in found - {r};
      assert score(v') <= d;
    } else {
      assert v in found - {r};
    }
  }

  lemma NearWithout<T>(found: set<T>, visited: set<T>, score: T -> real, r: T)
    requires Near(found, visited, score) && r in found && |found| >= 2
    requires forall v :: v in found ==> score(v) <= score(r)
    ensures Near(found - {r}, visited, score)
  {
    hide Within;
    forall w | w in visited
      ensures Within(found - {r}, score, score(w))
    {
      WithoutFarthest(found, score, r, score(w));
    }
  }

  /** With too many kept, the farthest one is given up; there cannot be room for everything. */
  lemma SearchReplaces<T>(g: map<T, set<T>>, entry: T, score: T -> real, ef: int, s: Sets<T>, n: T, r: T)
    requires SearchInv(g, entry, score, ef, s) && n !in s.visited && n in Reach(g, {entry})
    requires |s.found| + 1 > ef && r in s.found + {n}
    requires forall v :: v in s.found + {n} ==> score(v) <= score(r)
    ensures SearchInv(g, entry, score, ef,
                      s.(visited := s.visited + {n}, waiting := s.waiting + {n}, found := s.found + {n} - {r}))
  {
    hide Reach, Covered, Near;
    var found := s.found + {n};
    NestedMore(Reach(g, {entry}), s, n);
    CoveredMore(g, s.expanded, s.visited, n);
    NearKeeps(s.found, s.visited, score, n);
    assert |found| == |s.found| + 1;
    NearWithout(found, s.visited + {n}, score, r);
    RoomLeft(s.visited, Reach(g, {entry}), n);
  }

  /** How a search may end: nothing waits, or all that waits is farther than all that is kept. */
  ghost predicate Exhausted<T>(score: T -> real, s: Sets<T>) {
    forall w, v :: w in s.waiting + s.open && v in s.found ==> score(w) > score(v)
  }

  /** What the end of a search means. */
  ghost predicate SearchResult<T>(g: map<T, set<T>>, entry: T, score: T -> real, ef: int, visited: set<T>, found: set<T>) {
    entry in g && entry in visited && found <= visited <= Reach(g, {entry}) && FilledUp(ef, visited, found)
    && (exists v :: v in found && forall w :: w in visited ==> score(v) <= score(w))
    && (forall v :: v in found ==> v in g && g[v] <= visited)
    && (|Reach(g, {entry})| <= ef ==> found == Reach(g, {entry}))
  }

  /** The nearest vertex met is returned, and none of its live neighbours is nearer. */
  lemma NearestReturned<T>(g: map<T, set<T>>, entry: T, score: T -> real, ef: int, visited: set<T>, found: set<T>)
    requires SearchResult(g, entry, score, ef, visited, found)
    ensures exists v :: v in found && v in g && (forall w :: w in visited + g[v] ==> score(v) <= score(w))
  {
    hide Reach;
    var v :| v in found && forall w :: w in visited ==> score(v) <= score(w);
    assert g[v] <= visited;
  }

  lemma SearchEnds<T>(g: map<T, set<T>>, entry: T, score: T -> real, ef: int, s: Sets<T>)
    requires SearchInv(g, entry, score, ef, s) && Exhausted(score, s)
    ensures SearchResult(g, entry, score, ef, s.visited, s.found)
  {
    hide Reach, Near, Covered, Within;
    AllExpanded(Reach(g, {entry}), score, s);
    NearestFound(s.found, score);
    NearestOfAll(s.found, s.visited, score);
    assert forall v :: v in s.found ==> v in g && g[v] <= s.visited by {
      CoveredAt(g, s.expanded, s.visited);
    }
    if |Reach(g, {entry})| <= ef {
      CoveredIsClosed(g, s);
      ReachIsLeast(g, {entry}, s.visited);
    }
  }

  lemma CoveredAt<T>(g: map<T, set<T>>, expanded: set<T>, visited: set<T>)
    requires Covered(g, expanded, visited)
    ensures forall v :: v in expanded ==> v in g && g[v] <= visited
  {
  }

  lemma CoveredIsClosed<T>(g: map<T, set<T>>, s: Sets<T>)
    requires Covered(g, s.expanded, s.visited) && s.visited <= s.expanded
    ensures Closed(g, s.visited)
  {
  }

  /** Nothing kept is still waiting, so all of it was expanded. */
  lemma AllExpanded<T>(reach: set<T>, score: T -> real, s: Sets<T>)
    requires Nested(reach, s) && Exhausted(score, s)
    ensures s.found <= s.expanded
  {
    forall v | v in s.found
      ensures v in s.expanded
    {
      if v in s.waiting + s.open {
        assert false;
      }
    }
  }

  lemma NearestOfAll<T>(found: set<T>, visited: set<T>, score: T -> real)
    requires Near(found, visited, score) && exists v :: v in found && forall u :: u in found ==> score(v) <= score(u)
    ensures exists v :: v in found && forall w :: w in visited ==> score(v) <= score(w)
  {
    var v :| v in found && forall u :: u in found ==> score(v) <= score(u);
    forall w | w in visited
      ensures score(v) <= score(w)
    {
      assert Within(found, score, score(w));
      var u :| u in found && score(u) <= score(w);
    }
  }

  lemma {:induction false} NearestFound<T>(found: set<T>, score: T -> real)
    requires found != {}
    ensures exists v :: v in found && forall u :: u in found ==> score(v) <= score(u)
  {
    var x :| x in found;
    if found == {x} {
      assert forall u :: u in found ==> score(x) <= score(u);
    } else {
      var rest := found - {x};
      NearestFound(rest, score);
      var v :| v in rest && forall u :: u in rest ==> score(v) <= score(u);
      var best := if score(v) <= score(x) then v else x;
      assert best in found && forall u :: u in found ==> score(best) <= score(u);
    }
  }
}
