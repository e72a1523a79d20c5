/** What walking, linking and unlinking do to a graph with levels, on the values of its edge sets. */
module HnswLinks {
  import opened TopK
  import opened QueueSets
  import opened BestFirst

  /** The edge sets of every vertex, one per level, with their weights. */
  type Edges<T> = map<T, seq<map<T, real>>>

  /** The graph of one level: its vertices and, for each, the neighbours that are not dead. */
  ghost function LevelGraph<T>(e: Edges<T>, dead: set<T>, l: nat): map<T, set<T>> {
    map u | u in e && l < |e[u]| :: e[u][l].Keys - dead
  }

  // ---------- walking down ----------

  /** From `v` the walk goes to the nearest neighbour, which is nearer. */
  ghost predicate GreedyHop<T>(g: map<T, set<T>>, score: T -> real, v: T, next: T) {
    v in g && next in g[v] && score(next) < score(v) && forall n :: n in g[v] ==> score(next) <= score(n)
  }

  ghost predicate LocalNearest<T>(g: map<T, set<T>>, score: T -> real, v: T) {
    v in g && forall n :: n in g[v] ==> score(v) <= score(n)
  }

  /** A greedy walk from its first vertex to one that has no nearer neighbour. */
  ghost predicate GreedyWalk<T>(g: map<T, set<T>>, score: T -> real, walk: seq<T>) {
    walk != [] && (forall i {:trigger walk[i]} :: 0 <= i < |walk| - 1 ==> GreedyHop(g, score, walk[i], walk[i + 1]))
    && LocalNearest(g, score, walk[|walk| - 1])
  }

  /** Where walks one after the other end. */
  ghost function EndOf<T>(start: T, walks: seq<seq<T>>): T {
    if walks == [] || walks[|walks| - 1] == [] then start else walks[|walks| - 1][|walks[|walks| - 1]| - 1]
  }

  /** One greedy walk on each level from `top` down to above `low`, each from where the one before ended. */
  ghost predicate Descended<T>(e: Edges<T>, dead: set<T>, score: T -> real, start: T, top: nat, low: nat, walks: seq<seq<T>>) {
    |walks| == (if top > low then top - low else 0)
    && forall i :: 0 <= i < |walks| ==> WalkOk(e, dead, score, start, top, walks, i)
  }

  ghost predicate WalkOk<T>(e: Edges<T>, dead: set<T>, score: T -> real, start: T, top: nat, walks: seq<seq<T>>, i: nat)
    requires i < |walks|
  {
    i <= top && GreedyWalk(LevelGraph(e, dead, top - i), score, walks[i]) && walks[i][0] == EndOf(start, walks[..i])
  }

  lemma WalkedOn<T>(e: Edges<T>, dead: set<T>, score: T -> real, start: T, top: nat, walks: seq<seq<T>>, walk: seq<T>)
    requires |walks| < top && forall i :: 0 <= i < |walks| ==> WalkOk(e, dead, score, start, top, walks, i)
    requires GreedyWalk(LevelGraph(e, dead, top - |walks|), score, walk) && walk[0] == EndOf(start, walks)
    ensures forall i :: 0 <= i <= |walks| ==> WalkOk(e, dead, score, start, top, walks + [walk], i)
    ensures EndOf(start, walks + [walk]) == walk[|walk| - 1]
  {
    hide GreedyWalk, LevelGraph, EndOf;
    GreedyStarts(LevelGraph(e, dead, top - |walks|), score, walk);
    EndOfMore(start, walks, walk);
    var more := walks + [walk];
    forall i | 0 <= i <= |walks|
      ensures WalkOk(e, dead, score, start, top, more, i)
    {
      if i < |walks| {
        assert WalkOk(e, dead, score, start, top, walks, i);
        assert more[..i] == walks[..i];
      } else {
        assert more[..i] == walks;
      }
    }
  }

  lemma GreedyStarts<T>(g: map<T, set<T>>, score: T -> real, walk: seq<T>)
    requires GreedyWalk(g, score, walk)
    ensures walk != []
  {
  }

  lemma EndOfMore<T>(start: T, walks: seq<seq<T>>, walk: seq<T>)
    requires walk != []
    ensures EndOf(start, walks + [walk]) == walk[|walk| - 1]
  {
  }

  // ---------- linking ----------

  /** The `bound` nearest live ones of an edge set, with their weights. */
  ghost predicate NearestKept<T>(more: map<T, real>, es: map<T, real>, bound: nat, dead: set<T>) {
    es.Keys <= more.Keys - dead && |es| == Min(bound, |more.Keys - dead|)
    && (forall n :: n in es ==> es[n] == more[n])
    && forall w, n :: w in more.Keys - dead - es.Keys && n in es ==> more[n] <= more[w]
  }

  /** An edge set with `v` added, cut down to the nearest if it is too large then. */
  ghost predicate Grown<T>(was: map<T, real>, es: map<T, real>, v: T, d: real, bound: nat, dead: set<T>) {
    var more := was[v := d];
    if |more| <= bound then es == more else NearestKept(more, es, bound, dead)
  }

  /** The edge set of `w` on a level on which `v` was linked with the chosen vertices. */
  ghost predicate LinkedAt<T>(was: map<T, real>, es: map<T, real>, w: T, v: T, chosen: set<T>, score: T -> real, bound: nat,
                              dead: set<T>) {
    if w == v then es.Keys == chosen && forall n :: n in es ==> es[n] == score(n)
    else if w in chosen then Grown(was, es, v, score(w), bound, dead)
    else es == was
  }

  /** All edge sets of `w`: only level `l` may change. */
  ghost predicate RowLinked<T>(was: seq<map<T, real>>, now: seq<map<T, real>>, w: T, v: T, l: nat, chosen: set<T>,
                               score: T -> real, bound: nat, dead: set<T>) {
    |now| == |was| && (forall k :: 0 <= k < |was| && k != l ==> now[k] == was[k])
    && (l < |was| ==> LinkedAt(was[l], now[l], w, v, chosen, score, bound, dead))
  }

  ghost predicate LevelLinked<T>(before: Edges<T>, after: Edges<T>, v: T, l: nat, chosen: set<T>, score: T -> real, bound: nat,
                                 dead: set<T>) {
    before.Keys == after.Keys
    && forall w :: w in before ==> RowLinked(before[w], after[w], w, v, l, chosen, score, bound, dead)
  }

  lemma NothingLinked<T>(e: Edges<T>, v: T, l: nat, score: T -> real, bound: nat, dead: set<T>)
    requires v in e && l < |e[v]| && e[v][l] == map[]
    ensures LevelLinked(e, e, v, l, {}, score, bound, dead)
  {
  }

  /** One more link: `v` and `n` get each other, nothing else changes. */
  ghost predicate LinkMade<T>(mid: Edges<T>, after: Edges<T>, v: T, n: T, l: nat, d: real, bound: nat, dead: set<T>) {
    && mid.Keys == after.Keys && v in mid && n in mid && v != n && l < |mid[v]| && l < |mid[n]|
    && after[v] == mid[v][l := mid[v][l][n := d]]
    && |after[n]| == |mid[n]| && after[n] == mid[n][l := after[n][l]] && Grown(mid[n][l], after[n][l], v, d, bound, dead)
    && forall w :: w in mid && w != v && w != n ==> after[w] == mid[w]
  }

  /** The rows of the two vertices of a link. */
  lemma OwnRowMore<T>(was: seq<map<T, real>>, mid: seq<map<T, real>>, v: T, n: T, l: nat, done: set<T>, score: T -> real,
                      bound: nat, dead: set<T>)
    requires RowLinked(was, mid, v, v, l, done, score, bound, dead) && l < |mid|
    ensures RowLinked(was, mid[l := mid[l][n := score(n)]], v, v, l, done + {n}, score, bound, dead)
  {
    assert mid[l][n := score(n)].Keys == mid[l].Keys + {n};
  }

  lemma NewRow<T>(was: seq<map<T, real>>, mid: seq<map<T, real>>, after: seq<map<T, real>>, v: T, n: T, l: nat, done: set<T>,
                  score: T -> real, bound: nat, dead: set<T>)
    requires RowLinked(was, mid, n, v, l, done, score, bound, dead) && l < |mid| && n != v && n !in done
    requires |after| == |mid| && after == mid[l := after[l]] && Grown(mid[l], after[l], v, score(n), bound, dead)
    ensures RowLinked(was, after, n, v, l, done + {n}, score, bound, dead)
  {
    hide Grown;
  }

  lemma LinkedOneMore<T>(before: Edges<T>, mid: Edges<T>, after: Edges<T>, v: T, n: T, l: nat, done: set<T>, score: T -> real,
                         bound: nat, dead: set<T>)
    requires LevelLinked(before, mid, v, l, done, score, bound, dead) && n !in done
    requires LinkMade(mid, after, v, n, l, score(n), bound, dead)
    ensures LevelLinked(before, after, v, l, done + {n}, score, bound, dead)
  {
    hide Grown, RowLinked;
    forall w | w in before
      ensures RowLinked(before[w], after[w], w, v, l, done + {n}, score, bound, dead)
    {
      assert RowLinked(before[w], mid[w], w, v, l, done, score, bound, dead);
      if w == v {
        OwnRowMore(before[v], mid[v], v, n, l, done, score, bound, dead);
      } else if w == n {
        NewRow(before[n], mid[n], after[n], v, n, l, done, score, bound, dead);
      } else {
        OtherRow(before[w], mid[w], w, v, n, l, done, score, bound, dead);
      }
    }
  }

  lemma OtherRow<T>(was: seq<map<T, real>>, mid: seq<map<T, real>>, w: T, v: T, n: T, l: nat, done: set<T>,
                    score: T -> real, bound: nat, dead: set<T>)
    requires RowLinked(was, mid, w, v, l, done, score, bound, dead) && w != v && w != n
    ensures RowLinked(was, mid, w, v, l, done + {n}, score, bound, dead)
  {
    hide Grown;
  }

  // ---------- a vertex linked on all its levels ----------

  /** What one level of an insertion found: where its search began, what it met and kept, and which of it was linked. */
  datatype LevelLinks<T> = LevelLinks(entry: T, visited: set<T>, found: set<T>, chosen: set<T>)

  /** The parameters of an insertion. */
  datatype Bounds = Bounds(m: nat, efConstruction: int, mMax: nat, mMax0: nat)

  function BoundOn(b: Bounds, l: nat): nat {
    if l == 0 then b.mMax0 else b.mMax
  }

  /** The next level is entered at the nearest vertex just linked, or where this one was if there is none. */
  ghost predicate Enters<T>(entry: T, chosen: set<T>, next: T, score: T -> real) {
    if chosen == {} then next == entry else next in chosen && forall u :: u in chosen ==> score(next) <= score(u)
  }

  /** On level `l` the `m` nearest of what the search from `x.entry` found were linked with `v`, and nothing else. */
  ghost predicate Joined<T>(before: Edges<T>, after: Edges<T>, v: T, l: nat, x: LevelLinks<T>, score: T -> real, b: Bounds,
                            dead: set<T>) {
    && SearchResult(LevelGraph(before, dead, l), x.entry, score, b.efConstruction, x.visited, x.found)
    && NearestSet(x.found, x.chosen, b.m, score)
    && forall w :: w in before && l < |before[w]| && w in after && l < |after[w]| ==>
         LinkedAt(before[w][l], after[w][l], w, v, x.chosen, score, BoundOn(b, l), dead)
  }

  /** The levels from `top` down to above `low` are linked, the others as they were. */
  ghost predicate JoinedDownTo<T>(before: Edges<T>, after: Edges<T>, v: T, top: nat, low: int, start: T,
                                  links: map<nat, LevelLinks<T>>, score: T -> real, b: Bounds, dead: set<T>) {
    && before.Keys == after.Keys
    && (forall w :: w in before ==> OtherLevelsSame(before[w], after[w], top, low))
    && (forall l: nat :: l in links <==> low < l <= top)
    && (forall l: nat :: l in links ==> Joined(before, after, v, l, links[l], score, b, dead))
    && forall l: nat :: l in links ==> EntersAt(top, l, start, links, links[l].entry, score)
  }

  /** Where the search of level `l` starts. */
  ghost predicate EntersAt<T>(top: nat, l: nat, start: T, links: map<nat, LevelLinks<T>>, entry: T, score: T -> real) {
    if l >= top then entry == start else l + 1 in links && Enters(links[l + 1].entry, links[l + 1].chosen, entry, score)
  }

  ghost predicate OtherLevelsSame<T>(was: seq<map<T, real>>, now: seq<map<T, real>>, top: nat, low: int) {
    |now| == |was| && forall k :: 0 <= k < |was| && !(low < k <= top) ==> now[k] == was[k]
  }

  /** What an insertion does to the edges: on each level from `top` down to 0 it links `v`, the search of the level starting
      at the nearest vertex linked above. */
  ghost predicate Inserted<T>(before: Edges<T>, after: Edges<T>, v: T, top: nat, start: T, links: map<nat, LevelLinks<T>>,
                              score: T -> real, b: Bounds, dead: set<T>) {
    JoinedDownTo(before, after, v, top, -1, start, links, score, b, dead)
  }

  lemma NothingJoined<T>(before: Edges<T>, v: T, top: nat, start: T, score: T -> real, b: Bounds, dead: set<T>)
    ensures JoinedDownTo(before, before, v, top, top, start, map[], score, b, dead)
  {
  }

  lemma SameLevelGraph<T>(before: Edges<T>, mid: Edges<T>, top: nat, l: nat, dead: set<T>)
    requires before.Keys == mid.Keys && forall w :: w in before ==> OtherLevelsSame(before[w], mid[w], top, l)
    ensures LevelGraph(mid, dead, l) == LevelGraph(before, dead, l)
  {
    forall w | w in before
      ensures |mid[w]| == |before[w]| && (l < |before[w]| ==> mid[w][l] == before[w][l])
    {
      assert OtherLevelsSame(before[w], mid[w], top, l);
    }
  }

  lemma JoinedOneMore<T>(before: Edges<T>, mid: Edges<T>, after: Edges<T>, v: T, top: nat, l: nat, start: T,
                         links: map<nat, LevelLinks<T>>, x: LevelLinks<T>, score: T -> real, b: Bounds, dead: set<T>)
    requires l <= top && JoinedDownTo(before, mid, v, top, l, start, links, score, b, dead)
    requires EntersAt(top, l, start, links, x.entry, score)
    requires SearchResult(LevelGraph(mid, dead, l), x.entry, score, b.efConstruction, x.visited, x.found)
    requires NearestSet(x.found, x.chosen, b.m, score)
    requires LevelLinked(mid, after, v, l, x.chosen, score, BoundOn(b, l), dead)
    ensures JoinedDownTo(before, after, v, top, l - 1, start, links[l := x], score, b, dead)
  {
    hide SearchResult, NearestSet, LinkedAt, LevelGraph, Enters;
    SameLevelGraph(before, mid, top, l, dead);
    forall w | w in before
      ensures OtherLevelsSame(before[w], after[w], top, l - 1)
      ensures l < |before[w]| ==> LinkedAt(before[w][l], after[w][l], w, v, x.chosen, score, BoundOn(b, l), dead)
      ensures forall k :: 0 <= k < |before[w]| && k != l ==> k < |mid[w]| && after[w][k] == mid[w][k]
    {
      assert OtherLevelsSame(before[w], mid[w], top, l) && RowLinked(mid[w], after[w], w, v, l, x.chosen, score, BoundOn(b, l), dead);
    }
    var now := links[l := x];
    forall k: nat | k in now
      ensures Joined(before, after, v, k, now[k], score, b, dead) && EntersAt(top, k, start, now, now[k].entry, score)
    {
      if k != l {
        assert Joined(before, mid, v, k, links[k], score, b, dead) && EntersAt(top, k, start, links, links[k].entry, score);
      }
    }
  }

  // ---------- unlinking ----------

  /** An edge set without the dead. */
  ghost function LiveOnly<T>(es: map<T, real>, dead: set<T>): map<T, real> {
    map n | n in es && n !in dead :: es[n]
  }

  /** The edge sets of the neighbours of `v` lose their dead on the levels above `low` on which they are neighbours. */
  ghost function PurgedAbove<T>(e: Edges<T>, v: T, low: int, dead: set<T>): Edges<T>
    requires v in e
  {
    map w | w in e :: PurgedRow(e[w], w, e[v], low, dead)
  }

  ghost function PurgedRow<T>(row: seq<map<T, real>>, w: T, own: seq<map<T, real>>, low: int, dead: set<T>): seq<map<T, real>> {
    seq(|row|, k requires 0 <= k < |row| => if low < k < |own| && w in own[k] then LiveOnly(row[k], dead) else row[k])
  }

  /** What a removal of `v` does to the edges, `v` being dead by then. */
  ghost function Purged<T>(e: Edges<T>, v: T, dead: set<T>): Edges<T>
    requires v in e
  {
    PurgedAbove(e, v, -1, dead)
  }

  /** On one level some vertices have lost their dead neighbours. */
  ghost function PurgedSome<T>(e: Edges<T>, l: nat, some: set<T>, dead: set<T>): Edges<T> {
    map w | w in e :: if w in some && l < |e[w]| then e[w][l := LiveOnly(e[w][l], dead)] else e[w]
  }

  lemma PurgedOneMore<T>(e: Edges<T>, l: nat, some: set<T>, n: T, dead: set<T>, after: Edges<T>)
    requires n in e && n !in some && l < |e[n]|
    requires after == PurgedSome(e, l, some, dead)[n := e[n][l := LiveOnly(e[n][l], dead)]]
    ensures after == PurgedSome(e, l, some + {n}, dead)
  {
  }

  lemma PurgedNone<T>(e: Edges<T>, l: nat, dead: set<T>)
    ensures PurgedSome(e, l, {}, dead) == e
  {
  }

  lemma PurgedNoLevel<T>(e: Edges<T>, v: T, dead: set<T>)
    requires v in e
    ensures PurgedAbove(e, v, |e[v]| - 1, dead) == e
  {
    forall w | w in e
      ensures PurgedRow(e[w], w, e[v], |e[v]| - 1, dead) == e[w]
    {
    }
  }

  lemma PurgedNextLevel<T>(e: Edges<T>, v: T, l: nat, dead: set<T>)
    requires v in e && l < |e[v]|
    ensures PurgedSome(PurgedAbove(e, v, l, dead), l, e[v][l].Keys, dead) == PurgedAbove(e, v, l - 1, dead)
  {
    var mid := PurgedAbove(e, v, l, dead);
    forall w | w in e
      ensures PurgedSome(mid, l, e[v][l].Keys, dead)[w] == PurgedRow(e[w], w, e[v], l - 1, dead)
    {
      var was, now := PurgedRow(e[w], w, e[v], l, dead), PurgedRow(e[w], w, e[v], l - 1, dead);
      forall k | 0 <= k < |now|
        ensures PurgedSome(mid, l, e[v][l].Keys, dead)[w][k] == now[k]
      {
        assert was[k] == if k > l && k < |e[v]| && w in e[v][k] then LiveOnly(e[w][k], dead) else e[w][k];
      }
    }
  }

  lemma PurgedNeighbor<T>(e: Edges<T>, after: Edges<T>, v: T, n: T, l: nat, dead: set<T>)
    requires v in e && l < |e[v]| && n in e[v][l] && n in e && v in dead && after == Purged(e, v, dead)
    ensures n in after && (l < |after[n]| ==> v !in after[n][l])
  {
    assert after[n] == PurgedRow(e[n], n, e[v], -1, dead);
  }
}
