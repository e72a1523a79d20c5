/** Lists of entries in bytes, and the maps they list: writing, reading back, and filling a map in any order. */
module ListCodec {
  import opened Common
  import opened VertexFormat
  import opened VertexCodec

  // ---------- lists in bytes ----------

  function Cat<T>(f: T -> Bytes, xs: seq<T>): Bytes {
    if xs == [] then [] else f(xs[0]) + Cat(f, xs[1..])
  }

  function ReadList<T>(r: (Bytes, nat) -> Read<T>, b: Bytes, at: nat, count: nat, acc: seq<T>): Read<seq<T>>
    decreases count
  {
    if count == 0 then Got(acc, at)
    else
      match r(b, at)
      case Fail => Fail
      case Got(x, at1) => ReadList(r, b, at1, count - 1, acc + [x])
  }

  lemma {:induction false} GetList<T>(f: T -> Bytes, r: (Bytes, nat) -> Read<T>, b: Bytes, at: nat, xs: seq<T>, acc: seq<T>)
    requires At(b, at, Cat(f, xs))
    requires forall x, p: nat :: x in xs && At(b, p, f(x)) ==> r(b, p) == Got(x, p + |f(x)|)
    ensures ReadList(r, b, at, |xs|, acc) == Got(acc + xs, at + |Cat(f, xs)|)
    decreases |xs|
  {
    hide At;
    if xs == [] {
      assert acc + xs == acc;
    } else {
      AtSplit(b, at, f(xs[0]), Cat(f, xs[1..]));
      GetList(f, r, b, at + |f(xs[0])|, xs[1..], acc + [xs[0]]);
      assert acc + [xs[0]] + xs[1..] == acc + xs;
    }
  }

  lemma {:induction false} CatSnoc<T>(f: T -> Bytes, xs: seq<T>, x: T)
    ensures Cat(f, xs + [x]) == Cat(f, xs) + f(x)
  {
    if xs == [] {
      assert xs + [x] == [x];
      assert [x][1..] == [];
    } else {
      CatSnoc(f, xs[1..], x);
      assert (xs + [x])[1..] == xs[1..] + [x];
    }
  }

  lemma NothingWritten<T>(f: T -> Bytes)
    ensures Cat(f, []) == []
  {
  }

  /** A list is read the same way when more bytes follow, if its items are. */
  lemma {:induction false} ListStable<T>(r: (Bytes, nat) -> Read<T>, a: Bytes, c: Bytes, at: nat, count: nat, acc: seq<T>)
    requires at <= |a| && forall p: nat :: Stable(r(a, p), r(a + c, p), |a|)
    ensures Stable(ReadList(r, a, at, count, acc), ReadList(r, a + c, at, count, acc), |a|)
    decreases count
  {
    if count > 0 {
      assert Stable(r(a, at), r(a + c, at), |a|);
      if r(a, at).Got? {
        ListStable(r, a, c, r(a, at).at, count - 1, acc + [r(a, at).value]);
      }
    }
  }

  /** A read whose value is turned into another. */
  function MapRead<T, U>(r: Read<T>, f: T -> U): Read<U> {
    match r
    case Fail => Fail
    case Got(x, at) => Got(f(x), at)
  }

  // ---------- maps filled from lists ----------

  /** The map that `m[key] = value` in a loop fills. */
  function MapOf<T, K, W>(key: T -> K, value: T -> W, xs: seq<T>): map<K, W> {
    if xs == [] then map[]
    else
      var last := xs[|xs| - 1];
      MapOf(key, value, xs[..|xs| - 1])[key(last) := value(last)]
  }

  /** The list holds the entries of `m` whose keys are in `done`, each once, in some order. */
  ghost predicate Listed<T(!new), K(!new), W>(key: T -> K, value: T -> W, xs: seq<T>, m: map<K, W>, done: set<K>) {
    && done <= m.Keys && |xs| == |done|
    && (forall x :: x in xs ==> key(x) in done && m[key(x)] == value(x))
    && (forall k :: k in done ==> HasKey(key, xs, k))
  }

  ghost predicate HasKey<T(!new), K(!new)>(key: T -> K, xs: seq<T>, k: K) {
    exists x :: x in xs && key(x) == k
  }

  lemma ListedNone<T(!new), K(!new), W>(key: T -> K, value: T -> W, m: map<K, W>)
    ensures Listed(key, value, [], m, {})
  {
  }

  lemma ListedMore<T(!new), K(!new), W>(key: T -> K, value: T -> W, xs: seq<T>, m: map<K, W>, done: set<K>, x: T)
    requires Listed(key, value, xs, m, done) && key(x) in m && key(x) !in done && m[key(x)] == value(x)
    ensures Listed(key, value, xs + [x], m, done + {key(x)})
  {
    forall k | k in done + {key(x)}
      ensures HasKey(key, xs + [x], k)
    {
      if k in done {
        var y :| y in xs && key(y) == k;
        assert y in xs + [x];
      } else {
        assert x in xs + [x];
      }
    }
  }

  lemma {:induction false} MapOfPart<T(!new), K(!new), W>(key: T -> K, value: T -> W, xs: seq<T>, m: map<K, W>)
    requires forall x :: x in xs ==> key(x) in m && m[key(x)] == value(x)
    ensures forall k :: k in MapOf(key, value, xs) <==> HasKey(key, xs, k)
    ensures forall k :: k in MapOf(key, value, xs) ==> k in m && MapOf(key, value, xs)[k] == m[k]
  {
    if xs != [] {
      var front, last := xs[..|xs| - 1], xs[|xs| - 1];
      assert xs == front + [last];
      MapOfPart(key, value, front, m);
      assert forall k :: HasKey(key, xs, k) <==> k == key(last) || HasKey(key, front, k);
    }
  }

  /** Whatever the order of a full list, the map comes back. */
  lemma MapOfAll<T(!new), K(!new), W>(key: T -> K, value: T -> W, xs: seq<T>, m: map<K, W>)
    requires Listed(key, value, xs, m, m.Keys)
    ensures MapOf(key, value, xs) == m
  {
    MapOfPart(key, value, xs, m);
  }

  lemma ListedSize<T(!new), K(!new), W>(key: T -> K, value: T -> W, xs: seq<T>, m: map<K, W>)
    requires Listed(key, value, xs, m, m.Keys)
    ensures |xs| == |m|
  {
  }

  lemma FilledMore<T, K, W>(key: T -> K, value: T -> W, xs: seq<T>, x: T)
    ensures MapOf(key, value, xs + [x]) == MapOf(key, value, xs)[key(x) := value(x)]
  {
    assert (xs + [x])[..|xs|] == xs;
  }
}
