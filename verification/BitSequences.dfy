/** Sequences of bits, how many of them are set, and how words hold them. */
module BitSequences {
  import opened Common
  import opened Words
  import opened BitSelect

  // ---------- rank and select on a sequence of bits ----------

  ghost function CountTrue(s: seq<bool>): (n: nat)
    ensures n <= |s|
  {
    if s == [] then 0 else CountTrue(s[..|s| - 1]) + if s[|s| - 1] then 1 else 0
  }

  /** The set bits up to and including position `i`. */
  ghost function RankOf(s: seq<bool>, i: nat): nat {
    if i >= |s| then CountTrue(s) else CountTrue(s[..i + 1])
  }

  /** The position with exactly `j` set bits below it that is itself set; the length if there is none. */
  ghost function SelectOf(s: seq<bool>, j: nat): (p: nat)
    ensures p <= |s|
    ensures j < CountTrue(s) ==> p < |s| && s[p] && CountTrue(s[..p]) == j
    ensures CountTrue(s) <= j ==> p == |s|
  {
    if s == [] then 0
    else
      var front := s[..|s| - 1];
      if j < CountTrue(front) then
        var p := SelectOf(front, j);
        assert front[..p] == s[..p];
        p
      else if j < CountTrue(s) then |s| - 1
      else |s|
  }

  lemma {:induction false} CountGrows(s: seq<bool>, p: nat, q: nat)
    requires p <= q <= |s|
    ensures CountTrue(s[..p]) <= CountTrue(s[..q])
  {
    if p < q {
      CountGrows(s, p, q - 1);
      assert s[..q][..q - 1] == s[..q - 1];
    }
  }

  lemma CountOne(s: seq<bool>, p: nat)
    requires p < |s|
    ensures CountTrue(s[..p + 1]) == CountTrue(s[..p]) + if s[p] then 1 else 0
  {
    assert s[..p + 1][..p] == s[..p];
  }

  /** A set bit is the only one with its number of set bits below. */
  lemma SelectIsUnique(s: seq<bool>, p: nat, q: nat)
    requires p < |s| && q < |s| && s[p] && s[q] && CountTrue(s[..p]) == CountTrue(s[..q])
    ensures p == q
  {
    CountOne(s, p);
    CountOne(s, q);
    if p < q {
      CountGrows(s, p + 1, q);
    } else if q < p {
      CountGrows(s, q + 1, p);
    }
  }

  lemma CountBelowAll(s: seq<bool>, p: nat)
    requires p < |s| && s[p]
    ensures CountTrue(s[..p]) < CountTrue(s)
  {
    CountOne(s, p);
    CountGrows(s, p + 1, |s|);
    assert s[..|s|] == s;
  }

  /** The rank of the `j`-th set bit is `j + 1`. */
  lemma RankOfSelect(s: seq<bool>, j: nat)
    requires j < CountTrue(s)
    ensures RankOf(s, SelectOf(s, j)) == j + 1
  {
    CountOne(s, SelectOf(s, j));
  }

  /** Selecting with the rank of a set bit, less one, finds that bit. */
  lemma SelectOfRank(s: seq<bool>, i: nat)
    requires i < |s| && s[i]
    ensures RankOf(s, i) >= 1 && SelectOf(s, RankOf(s, i) - 1) == i
  {
    CountOne(s, i);
    CountBelowAll(s, i);
    SelectIsUnique(s, i, SelectOf(s, RankOf(s, i) - 1));
  }

  // ---------- the bits of a slice of words ----------

  /** Bit `k` of the words; there are none past the end. */
  ghost predicate BitAt(words: seq<nat>, k: nat) {
    k / 64 < |words| && Bit(words[k / 64], k % 64)
  }

  ghost predicate AreWords(words: seq<nat>) {
    forall i :: 0 <= i < |words| ==> words[i] < TWO64
  }

  ghost function TrueUnder(words: seq<nat>, k: nat): nat {
    if k == 0 then 0 else TrueUnder(words, k - 1) + if BitAt(words, k - 1) then 1 else 0
  }

  lemma {:induction false} CountsAgree(words: seq<nat>, s: seq<bool>, k: nat)
    requires k <= |s| && forall i: nat :: i < |s| ==> (s[i] <==> BitAt(words, i))
    ensures CountTrue(s[..k]) == TrueUnder(words, k)
  {
    if k > 0 {
      CountsAgree(words, s, k - 1);
      CountOne(s, k - 1);
    }
  }

  lemma {:induction false} NothingAbove(words: seq<nat>, p: nat, q: nat)
    requires p <= q && forall k: nat :: p <= k ==> !BitAt(words, k)
    ensures TrueUnder(words, q) == TrueUnder(words, p)
  {
    if p < q {
      NothingAbove(words, p, q - 1);
    }
  }

  lemma Place(q: nat, p: nat)
    requires p < 64
    ensures (64 * q + p) / 64 == q && (64 * q + p) % 64 == p
  {
  }

  lemma {:induction false} UnderWord(words: seq<nat>, q: nat, p: nat)
    requires q < |words| && p <= 64
    ensures TrueUnder(words, 64 * q + p) == TrueUnder(words, 64 * q) + OnesUnder(words[q], p)
  {
    if p > 0 {
      UnderWord(words, q, p - 1);
      Place(q, p - 1);
    }
  }

  lemma UnderNextWord(words: seq<nat>, q: nat)
    requires q < |words| && words[q] < TWO64
    ensures TrueUnder(words, 64 * (q + 1)) == TrueUnder(words, 64 * q) + Ones(words[q])
  {
    hide Pow2, Ones;
    UnderWord(words, q, 64);
    TopPower();
    OnesByPosition(words[q], 64);
  }

  /** The low `p` bits of a word, moved to its top. */
  lemma {:induction false} UnderShifted(x: nat, n: nat, p: nat)
    requires x < TWO64 && n + p <= 64
    ensures OnesUnder(Shl(x, n), n + p) == OnesUnder(x, p)
    decreases n + p
  {
    if p > 0 {
      UnderShifted(x, n, p - 1);
      BitShl(x, n, n + p - 1);
    } else if n > 0 {
      ZerosBelow(x, n, n);
    }
  }

  lemma {:induction false} ZerosBelow(x: nat, n: nat, p: nat)
    requires x < TWO64 && p <= n <= 64
    ensures OnesUnder(Shl(x, n), p) == 0
  {
    if p > 0 {
      ZerosBelow(x, n, p - 1);
      BitShl(x, n, p - 1);
    }
  }

  lemma OnesOfLow(x: nat, p: nat)
    requires x < TWO64 && p < 64
    ensures Shl(x, 64 - p) < TWO64 && Ones(Shl(x, 64 - p)) == OnesUnder(x, p)
  {
    hide Shl, Ones, Pow2;
    TopPower();
    BitShl(x, 64 - p, 0);
    UnderShifted(x, 64 - p, p);
    OnesByPosition(Shl(x, 64 - p), 64);
  }
}
