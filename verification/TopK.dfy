/** Which items a bounded queue keeps, and why keeping them shard by shard loses nothing. */
module TopK {
  import opened HeapOrder
  import opened PriorityQueues

  function Min(a: int, b: int): int {
    if a <= b then a else b
  }

  /** `kept` are `k` items of `all` (or all of them) such that a queue of kind `max`, which gives
      up what comes first, would give up every other one before them. */
  ghost predicate Kept<T>(all: multiset<Item<T>>, kept: multiset<Item<T>>, k: nat, max: bool) {
    kept <= all && |kept| == Min(k, |all|)
    && forall x, y :: x in all - kept && y in kept ==> !Less(max, y, x)
  }

  lemma KeptNone<T>(k: nat, max: bool)
    ensures Kept<T>(multiset{}, multiset{}, k, max)
  {
  }

  /** One more item: push, and give up the first one if that is too many. */
  lemma KeepOneMore<T>(all: multiset<Item<T>>, kept: multiset<Item<T>>, k: nat, max: bool, x: Item<T>, r: Item<T>)
    requires Kept(all, kept, k, max)
    requires |kept| == k ==> IsFirst(kept + multiset{x}, max, r)
    ensures Kept(all + multiset{x}, if |kept| == k then kept + multiset{x} - multiset{r} else kept + multiset{x}, k, max)
  {
    var all', now := all + multiset{x}, if |kept| == k then kept + multiset{x} - multiset{r} else kept + multiset{x};
    if |kept| == k {
      forall z, y | z in all' - now && y in now
        ensures !Less(max, y, z)
      {
        assert y in kept + multiset{x};
        if z != r {
          assert z in all - kept;
          assert r in kept || r == x;
          if r == x {
            assert now == kept;
          } else if y == x {
            assert !Less(max, y, r) && !Less(max, r, z);
          }
        }
      }
    } else {
      assert kept == all by { FewKeepsAll(all, kept); }
    }
  }

  lemma FewKeepsAll<T>(all: multiset<T>, kept: multiset<T>)
    requires kept <= all && |kept| == |all|
    ensures kept == all
  {
    assert all == kept + (all - kept);
  }

  /** Keeping the best of a part first does not change what is kept of the whole. */
  lemma KeepPartFirst<T>(part: multiset<Item<T>>, keptPart: multiset<Item<T>>, rest: multiset<Item<T>>, kept: multiset<Item<T>>,
                         k: nat, max: bool)
    requires Kept(part, keptPart, k, max) && Kept(keptPart + rest, kept, k, max)
    ensures Kept(part + rest, kept, k, max)
  {
    var all := part + rest;
    forall x, y | x in all - kept && y in kept
      ensures !Less(max, y, x)
    {
      if x !in keptPart + rest - kept {
        assert x in part - keptPart;
        if y !in keptPart {
          assert part == keptPart + (part - keptPart);
          assert |part - keptPart| > 0;
          SomeDropped(keptPart, kept, y);
          var w :| w in keptPart - kept;
          assert w in keptPart + rest - kept;
          assert !Less(max, y, w) && !Less(max, w, x);
        }
      }
    }
  }

  lemma SomeDropped<T>(a: multiset<T>, b: multiset<T>, y: T)
    requires |b| <= |a| && y in b && y !in a
    ensures exists w :: w in a - b
  {
    var common := a * b;
    assert a == common + (a - b);
    assert b == common + (b - a);
    assert y in b - a;
    assert |a - b| > 0;
    var w :| w in a - b;
  }

  // ---------- scores ----------

  /** The scores of a list of items. */
  function Scores<T>(s: seq<Item<T>>): (r: seq<real>)
    ensures |r| == |s| && forall i :: 0 <= i < |s| ==> r[i] == s[i].priority
  {
    seq(|s|, i requires 0 <= i < |s| => s[i].priority)
  }

  ghost function ListOf<T>(m: multiset<T>): (s: seq<T>)
    ensures multiset(s) == m
    decreases |m|
  {
    if m == multiset{} then []
    else
      var x :| x in m;
      assert m == (m - multiset{x}) + multiset{x};
      ListOf(m - multiset{x}) + [x]
  }

  /** The scores of a queue's items, however they are arranged. */
  ghost function ScoresOf<T>(m: multiset<Item<T>>): multiset<real> {
    multiset(Scores(ListOf(m)))
  }

  lemma ScoresConcat<T>(s: seq<Item<T>>, t: seq<Item<T>>)
    ensures Scores(s + t) == Scores(s) + Scores(t)
  {
  }

  lemma Without<T>(s: seq<T>, x: T) returns (j: nat)
    requires x in s
    ensures j < |s| && s[j] == x && s == s[..j] + [x] + s[j + 1..]
    ensures multiset(s) == multiset(s[..j] + s[j + 1..]) + multiset{x}
  {
    j :| 0 <= j < |s| && s[j] == x;
    assert s == s[..j] + [x] + s[j + 1..];
  }

  lemma {:induction false} SameItemsSameScores<T>(a: seq<Item<T>>, b: seq<Item<T>>)
    requires multiset(a) == multiset(b)
    ensures multiset(Scores(a)) == multiset(Scores(b))
    decreases |a|
  {
    hide Scores;
    if a == [] {
      assert |multiset(b)| == 0;
    } else {
      var x, rest := a[0], a[1..];
      assert a == [x] + rest;
      assert x in multiset(a);
      var j := Without(b, x);
      var b1, b2 := b[..j], b[j + 1..];
      assert multiset(rest) + multiset{x} == multiset(b1 + b2) + multiset{x};
      SameRest(multiset(rest), multiset(b1 + b2), x);
      SameItemsSameScores(rest, b1 + b2);
      ScoresConcat([x], rest);
      ScoresConcat(b1 + [x], b2);
      ScoresConcat(b1, [x]);
      ScoresConcat(b1, b2);
    }
  }

  lemma SameRest<T>(a: multiset<T>, b: multiset<T>, x: T)
    requires a + multiset{x} == b + multiset{x}
    ensures a == b
  {
    assert a == a + multiset{x} - multiset{x};
    assert b == b + multiset{x} - multiset{x};
  }

  lemma ScoresOfList<T>(s: seq<Item<T>>)
    ensures ScoresOf(multiset(s)) == multiset(Scores(s))
  {
    SameItemsSameScores(ListOf(multiset(s)), s);
  }

  lemma ScoresOfSum<T>(a: multiset<Item<T>>, b: multiset<Item<T>>)
    ensures ScoresOf(a + b) == ScoresOf(a) + ScoresOf(b)
  {
    hide Scores, ListOf;
    var s, t := ListOf(a), ListOf(b);
    ScoresOfList(s + t);
    ScoresConcat(s, t);
    assert multiset(s + t) == a + b;
  }

  lemma ScoreIsSome<T>(m: multiset<Item<T>>, p: real)
    requires p in ScoresOf(m)
    ensures exists x :: x in m && x.priority == p
  {
    var s := ListOf(m);
    assert p in Scores(s);
    var i :| 0 <= i < |s| && Scores(s)[i] == p;
    assert s[i] in multiset(s);
  }

  lemma ScoresCount<T>(m: multiset<Item<T>>)
    ensures |ScoresOf(m)| == |m|
  {
    var s := ListOf(m);
    assert |multiset(Scores(s))| == |s| == |multiset(s)|;
  }

  /** A score held more often in `a` than in `b` is one of a dropped item of `b`. */
  lemma ExcessIsDropped<T>(all: multiset<Item<T>>, a: multiset<Item<T>>, b: multiset<Item<T>>, p: real)
    requires a <= all && b <= all && p in ScoresOf(a) - ScoresOf(b)
    ensures exists x :: x in a && x.priority == p
    ensures exists x :: x in all - b && x.priority == p
  {
    hide ScoresOf;
    assert all == a + (all - a) && all == b + (all - b);
    ScoresOfSum(a, all - a);
    ScoresOfSum(b, all - b);
    ScoreIsSome(a, p);
    assert ScoresOf(all)[p] == ScoresOf(a)[p] + ScoresOf(all - a)[p];
    assert ScoresOf(all)[p] == ScoresOf(b)[p] + ScoresOf(all - b)[p];
    ScoreIsSome(all - b, p);
  }

  /** Whatever order the items arrived in and whatever was dropped on a tie, the kept scores are
      the same. */
  lemma KeptScoresAgree<T>(all: multiset<Item<T>>, a: multiset<Item<T>>, b: multiset<Item<T>>, k: nat, max: bool)
    requires Kept(all, a, k, max) && Kept(all, b, k, max)
    ensures ScoresOf(a) == ScoresOf(b)
  {
    hide ScoresOf;
    ScoresCount(a);
    ScoresCount(b);
    var sa, sb := ScoresOf(a), ScoresOf(b);
    forall p, q | p in sa - sb && q in sb - sa
      ensures p == q
    {
      ExcessIsDropped(all, a, b, p);
      ExcessIsDropped(all, b, a, q);
    }
    NoExcess(sa, sb);
  }

  /** Two multisets of one size whose differences hold only one common value are equal. */
  lemma NoExcess(a: multiset<real>, b: multiset<real>)
    requires |a| == |b| && forall p, q :: p in a - b && q in b - a ==> p == q
    ensures a == b
  {
    var common := a * b;
    assert a == common + (a - b);
    assert b == common + (b - a);
    SomeIn(a - b);
    SomeIn(b - a);
  }

  lemma SomeIn(m: multiset<real>)
    ensures m == multiset{} || exists p :: p in m
  {
    if forall p :: p !in m {
      assert m == multiset{};
    }
  }

  // ---------- sorted results ----------

  ghost predicate SortedByScore<T>(s: seq<Item<T>>, descending: bool) {
    forall i, j :: 0 <= i < j < |s| ==> if descending then s[i].priority >= s[j].priority else s[i].priority <= s[j].priority
  }

  ghost predicate Monotone(s: seq<real>, descending: bool) {
    forall i, j :: 0 <= i < j < |s| ==> if descending then s[i] >= s[j] else s[i] <= s[j]
  }

  lemma {:induction false} SortedOnce(a: seq<real>, b: seq<real>, descending: bool)
    requires Monotone(a, descending) && Monotone(b, descending) && multiset(a) == multiset(b)
    ensures a == b
  {
    if a == [] {
      assert |multiset(b)| == 0;
    } else {
      assert b != [] by { assert |multiset(a)| == |a| > 0; }
      HeadIsExtreme(a, b, descending);
      HeadIsExtreme(b, a, descending);
      HeadAndRest(a);
      HeadAndRest(b);
      SameRest(multiset(a[1..]), multiset(b[1..]), a[0]);
      SortedOnce(a[1..], b[1..], descending);
    }
  }

  lemma HeadAndRest(a: seq<real>)
    requires a != []
    ensures multiset(a) == multiset(a[1..]) + multiset{a[0]}
  {
    assert a == [a[0]] + a[1..];
  }

  lemma HeadIsExtreme(a: seq<real>, b: seq<real>, descending: bool)
    requires a != [] && b != [] && Monotone(a, descending) && multiset(a) == multiset(b)
    ensures if descending then a[0] >= b[0] else a[0] <= b[0]
  {
    assert b[0] in multiset(a);
    var i :| 0 <= i < |a| && a[i] == b[0];
  }

  /** Two sorted lists of the best items show the same scores in the same places. */
  lemma TopScoresAgree<T>(all: multiset<Item<T>>, a: seq<Item<T>>, b: seq<Item<T>>, k: nat, max: bool, descending: bool)
    requires Kept(all, multiset(a), k, max) && Kept(all, multiset(b), k, max)
    requires SortedByScore(a, descending) && SortedByScore(b, descending)
    ensures Scores(a) == Scores(b)
  {
    hide Kept, ScoresOf;
    KeptScoresAgree(all, multiset(a), multiset(b), k, max);
    ScoresOfList(a);
    ScoresOfList(b);
    SortedOnce(Scores(a), Scores(b), descending);
  }

  /** A stretch of a ranking whose other items are no better is what a min-queue keeps. */
  lemma StretchIsKept<T>(ranked: seq<Item<T>>, stretch: seq<Item<T>>, others: seq<Item<T>>, k: nat)
    requires multiset(ranked) == multiset(stretch) + multiset(others) && |stretch| == Min(k, |ranked|)
    requires forall i, j :: 0 <= i < |others| && 0 <= j < |stretch| ==> others[i].priority <= stretch[j].priority
    ensures Kept(multiset(ranked), multiset(stretch), k, false)
  {
    assert multiset(ranked) - multiset(stretch) == multiset(others);
    forall x, y | x in multiset(ranked) - multiset(stretch) && y in multiset(stretch)
      ensures !Less(false, y, x)
    {
      assert x in others && y in stretch;
    }
  }

  /** The top `n` places of a ranking: the first of a descending one, the last of an ascending one. */
  function TopPlaces<T>(s: seq<T>, n: nat, descending: bool): seq<T>
    requires n <= |s|
  {
    if descending then s[..n] else s[|s| - n..]
  }

  lemma TopPlacesAreKept<T>(ranked: seq<Item<T>>, k: nat, descending: bool)
    requires SortedByScore(ranked, descending)
    ensures var top := TopPlaces(ranked, Min(k, |ranked|), descending);
            Kept(multiset(ranked), multiset(top), k, false) && SortedByScore(top, descending)
  {
    hide Kept;
    var n := if descending then Min(k, |ranked|) else |ranked| - Min(k, |ranked|);
    assert ranked == ranked[..n] + ranked[n..];
    if descending {
      StretchIsKept(ranked, ranked[..n], ranked[n..], k);
    } else {
      StretchIsKept(ranked, ranked[n..], ranked[..n], k);
    }
  }

  lemma TopPlacesScores<T>(ranked: seq<Item<T>>, n: nat, descending: bool)
    requires n <= |ranked|
    ensures Scores(TopPlaces(ranked, n, descending)) == TopPlaces(Scores(ranked), n, descending)
  {
  }

  /** What is kept of everything, listed in order, shows exactly the topmost scores of the full
      ranking. */
  lemma KeptIsTopOfRanking<T>(ranked: seq<Item<T>>, result: seq<Item<T>>, k: nat, descending: bool)
    requires SortedByScore(ranked, descending) && SortedByScore(result, descending)
    requires Kept(multiset(ranked), multiset(result), k, false)
    ensures Scores(result) == TopPlaces(Scores(ranked), Min(k, |ranked|), descending)
  {
    hide Kept, Scores, TopPlaces, SortedByScore;
    TopPlacesAreKept(ranked, k, descending);
    var top := TopPlaces(ranked, Min(k, |ranked|), descending);
    TopScoresAgree(multiset(ranked), result, top, k, false, descending);
    TopPlacesScores(ranked, Min(k, |ranked|), descending);
  }
}
