/** Reachability in a finite graph given by neighbour sets. */
module Graphs {

  ghost predicate Closed<T>(g: map<T, set<T>>, s: set<T>) {
    forall v :: v in s && v in g ==> g[v] <= s
  }

  /** All targets of edges lie among the nodes. */
  ghost predicate GraphOk<T>(g: map<T, set<T>>) {
    forall v :: v in g ==> g[v] <= g.Keys
  }

  ghost function Step<T>(g: map<T, set<T>>, s: set<T>): set<T> {
    s + set w | w in g.Keys && exists v :: v in s && v in g && w in g[v]
  }

  /** Everything that paths from `s` come to. */
  ghost function Reach<T>(g: map<T, set<T>>, s: set<T>): (r: set<T>)
    requires s <= g.Keys
    ensures s <= r <= g.Keys
    decreases |g.Keys - s|
  {
    if Step(g, s) == s then s
    else
      Shrinks(g.Keys, s, Step(g, s));
      Reach(g, Step(g, s))
  }

  lemma Shrinks<T>(u: set<T>, s: set<T>, t: set<T>)
    requires s < t && t <= u
    ensures |u - t| < |u - s|
  {
    assert exists x :: x in t && x !in s;
    assert u - t < u - s;
    SubsetSize(u - t, u - s);
  }

  lemma SubsetSize<T>(a: set<T>, b: set<T>)
    requires a <= b
    ensures |a| <= |b| && (a < b ==> |a| < |b|)
  {
    assert b == a + (b - a);
    if a < b {
      var x :| x in b - a;
    }
  }

  lemma {:induction false} ReachIsClosed<T>(g: map<T, set<T>>, s: set<T>)
    requires GraphOk(g) && s <= g.Keys
    ensures Closed(g, Reach(g, s))
    decreases |g.Keys - s|
  {
    if Step(g, s) != s {
      Shrinks(g.Keys, s, Step(g, s));
      ReachIsClosed(g, Step(g, s));
    } else {
      forall v | v in s && v in g
        ensures g[v] <= s
      {
        forall w | w in g[v]
          ensures w in s
        {
          assert w in Step(g, s);
        }
      }
    }
  }

  /** Nothing closed around `s` is smaller. */
  lemma {:induction false} ReachIsLeast<T>(g: map<T, set<T>>, s: set<T>, c: set<T>)
    requires s <= g.Keys && s <= c && Closed(g, c)
    ensures Reach(g, s) <= c
    decreases |g.Keys - s|
  {
    if Step(g, s) != s {
      Shrinks(g.Keys, s, Step(g, s));
      ReachIsLeast(g, Step(g, s), c);
    }
  }
}
