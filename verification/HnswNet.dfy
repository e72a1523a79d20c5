/** Insertions without pruning keep level 0 connected. */
module HnswNet {
  import opened Graphs
  import opened QueueSets
  import opened BestFirst
  import opened HnswLinks

  /** On level 0 every vertex leads to every other. */
  ghost predicate Net<T>(e: Edges<T>) {
    NoLoops(e) && forall u :: u in e ==> LeadsEverywhere(e, u)
  }

  ghost predicate LeadsEverywhere<T>(e: Edges<T>, u: T)
    requires u in e
  {
    |e[u]| > 0 && Reach(LevelGraph(e, {}, 0), {u}) == e.Keys
  }

  ghost predicate NoLoops<T>(e: Edges<T>) {
    forall u :: u in e ==> |e[u]| > 0 && e[u][0].Keys <= e.Keys - {u}
  }

  lemma NetOfOne<T>(e: Edges<T>, v: T)
    requires e.Keys == {v} && |e[v]| > 0 && e[v][0] == map[]
    ensures Net(e)
  {
    var r := Reach(LevelGraph(e, {}, 0), {v});
    assert r <= LevelGraph(e, {}, 0).Keys <= e.Keys;
  }

  /** Somebody is chosen, and nobody chosen is `v` itself. */
  lemma SomeChosen<T>(blank: Edges<T>, after: Edges<T>, v: T, x: LevelLinks<T>, score: T -> real, b: Bounds)
    requires Joined(blank, after, v, 0, x, score, b, {}) && b.m >= 1 && v in blank && NoLoops(after) && blank.Keys == after.Keys
    requires |blank[v]| > 0
    ensures x.chosen != {} && x.chosen <= blank.Keys - {v} && after[v][0].Keys == x.chosen
  {
    hide Reach;
    assert x.entry in x.visited;
    assert |x.visited| >= 1 by { SubsetSize({x.entry}, x.visited); }
    assert |x.found| >= 1 && |x.chosen| >= 1;
    assert x.chosen <= x.found <= x.visited <= LevelGraph(blank, {}, 0).Keys;
    assert LinkedAt(blank[v][0], after[v][0], v, v, x.chosen, score, b.mMax0, {});
  }

  /** With room for all, a chosen vertex keeps what it had and gains `v`. */
  lemma GrownByOne<T>(was: map<T, real>, es: map<T, real>, v: T, w: T, d: real, bound: nat, keys: set<T>)
    requires Grown(was, es, v, d, bound, {}) && was.Keys <= keys - {w} && v in keys - {w} && w in keys && |keys| <= bound + 1
    ensures es.Keys == was.Keys + {v}
  {
    var more := was[v := d];
    assert more.Keys == was.Keys + {v};
    SubsetSize(more.Keys, keys - {w});
    assert |more| == |more.Keys|;
    assert keys == keys - {w} + {w};
  }

  /** The new graph has the old edges, and new ones both ways between `v` and each chosen vertex. */
  ghost predicate Joins<T>(g: map<T, set<T>>, g': map<T, set<T>>, v: T, chosen: set<T>) {
    && g'.Keys == g.Keys + {v} && v !in g && chosen != {} && chosen <= g.Keys && GraphOk(g) && GraphOk(g') && g'[v] == chosen
    && forall w :: w in g ==> g[w] <= g'[w] && (w in chosen ==> v in g'[w])
  }

  lemma OldReached<T>(g: map<T, set<T>>, g': map<T, set<T>>, v: T, chosen: set<T>, u: T)
    requires Joins(g, g', v, chosen) && u in g && Reach(g, {u}) == g.Keys
    ensures Reach(g', {u}) == g'.Keys
  {
    hide Reach;
    var r := Reach(g', {u});
    ReachIsClosed(g', {u});
    assert Closed(g, r);
    ReachIsLeast(g, {u}, r);
    var c :| c in chosen;
    assert c in r && v in g'[c] && g'[c] <= r;
    assert g'.Keys <= r;
  }

  lemma NewReaches<T>(g: map<T, set<T>>, g': map<T, set<T>>, v: T, chosen: set<T>)
    requires Joins(g, g', v, chosen) && forall u :: u in g ==> Reach(g, {u}) == g.Keys
    ensures Reach(g', {v}) == g'.Keys
  {
    hide Reach;
    var r := Reach(g', {v});
    ReachIsClosed(g', {v});
    var c :| c in chosen;
    assert v in r && g'[v] <= r;
    OldReached(g, g', v, chosen, c);
    ReachIsLeast(g', {c}, r);
  }

  lemma RowGrows<T>(blank: Edges<T>, after: Edges<T>, v: T, w: T, x: LevelLinks<T>, score: T -> real, b: Bounds)
    requires Joined(blank, after, v, 0, x, score, b, {}) && w in blank && w in after && w != v && |blank[w]| > 0 && |after[w]| > 0
    requires blank[w][0].Keys <= after.Keys - {w} && v in after && |after.Keys| <= b.mMax0 + 1
    ensures blank[w][0].Keys <= after[w][0].Keys && (w in x.chosen ==> v in after[w][0])
  {
    hide SearchResult, NearestSet, Grown;
    assert LinkedAt(blank[w][0], after[w][0], w, v, x.chosen, score, b.mMax0, {});
    if w in x.chosen {
      GrownByOne(blank[w][0], after[w][0], v, w, score(w), b.mMax0, after.Keys);
    }
  }

  lemma InsertJoins<T>(e: Edges<T>, row: seq<map<T, real>>, after: Edges<T>, v: T, x: LevelLinks<T>, score: T -> real, b: Bounds)
    requires NoLoops(e) && v !in e && |row| > 0 && row[0] == map[] && b.m >= 1 && after.Keys == e.Keys + {v} && NoLoops(after)
    requires Joined(e[v := row], after, v, 0, x, score, b, {}) && |after.Keys| <= b.mMax0 + 1
    ensures Joins(LevelGraph(e, {}, 0), LevelGraph(after, {}, 0), v, x.chosen)
  {
    hide Joined;
    var blank := e[v := row];
    SomeChosen(blank, after, v, x, score, b);
    forall w | w in e
      ensures |e[w]| > 0 && |after[w]| > 0 && e[w][0].Keys <= after[w][0].Keys && (w in x.chosen ==> v in after[w][0])
    {
      assert blank[w] == e[w];
      RowGrows(blank, after, v, w, x, score, b);
    }
    GraphsJoin(e, after, v, x.chosen);
  }

  lemma GraphsJoin<T>(e: Edges<T>, after: Edges<T>, v: T, chosen: set<T>)
    requires NoLoops(e) && NoLoops(after) && v !in e && after.Keys == e.Keys + {v} && after[v][0].Keys == chosen
    requires chosen != {} && chosen <= e.Keys
    requires forall w :: w in e ==> e[w][0].Keys <= after[w][0].Keys && (w in chosen ==> v in after[w][0])
    ensures Joins(LevelGraph(e, {}, 0), LevelGraph(after, {}, 0), v, chosen)
  {
    var g, g' := LevelGraph(e, {}, 0), LevelGraph(after, {}, 0);
    LevelZero(e);
    LevelZero(after);
    assert forall w :: w in e ==> g[w] == e[w][0].Keys;
    assert forall w :: w in after ==> g'[w] == after[w][0].Keys;
  }

  /** An insertion keeps level 0 connected as long as no edge set can overflow. */
  lemma NetGrows<T>(e: Edges<T>, row: seq<map<T, real>>, after: Edges<T>, v: T, top: nat, start: T, links: map<nat, LevelLinks<T>>,
                    score: T -> real, b: Bounds)
    requires Net(e) && v !in e && |row| > 0 && row[0] == map[] && b.m >= 1 && NoLoops(after)
    requires Inserted(e[v := row], after, v, top, start, links, score, b, {}) && |after.Keys| <= b.mMax0 + 1
    ensures Net(after)
  {
    hide Reach, Joined, LevelGraph;
    assert after.Keys == e[v := row].Keys == e.Keys + {v};
    assert 0 in links;
    InsertJoins(e, row, after, v, links[0], score, b);
    var g, g' := LevelGraph(e, {}, 0), LevelGraph(after, {}, 0);
    LevelZero(e);
    LevelZero(after);
    forall u | u in after
      ensures LeadsEverywhere(after, u)
    {
      if u == v {
        forall w | w in g
          ensures Reach(g, {w}) == g.Keys
        {
          assert LeadsEverywhere(e, w);
        }
        NewReaches(g, g', v, links[0].chosen);
      } else {
        assert LeadsEverywhere(e, u);
        OldReached(g, g', v, links[0].chosen, u);
      }
    }
  }

  lemma LevelZero<T>(e: Edges<T>)
    requires NoLoops(e)
    ensures LevelGraph(e, {}, 0).Keys == e.Keys
  {
  }
}
