/**
 * Moving the bits of a slice of words up or down by one from some position on: each word hands its outermost bit to its
 * neighbour.
 */
module BitShift {
  import opened Common
  import opened Words
  import opened BitSelect
  import opened BitSequences

  const TOP_BIT: nat := 0x8000000000000000

  // ---------- one word ----------

  lemma Powers()
    ensures Pow2(1) == 2 && Pow2(63) == TOP_BIT && Pow2(64) == 2 * Pow2(63) == TWO64
  {
    TopPower();
    assert Pow2(1) == 2 * Pow2(0);
  }

  lemma OneBit(c: nat)
    requires c < 2
    ensures c == if Bit(c, 0) then 1 else 0
  {
  }

  lemma Carried(below: nat)
    ensures below < TWO64 ==> Shr(And(below, TOP_BIT), 63) == if Bit(below, 63) then 1 else 0
  {
    hide *;
    if below < TWO64 {
      Powers();
      AndBelow(below, TOP_BIT);
      ShrDrops(And(below, TOP_BIT), 1, 63);
      BitShr(And(below, TOP_BIT), 63, 0);
      BitAnd(below, TOP_BIT, 63);
      BitPow(63, 63);
      OneBit(Shr(And(below, TOP_BIT), 63));
    }
  }

  lemma OneOrZero(c: nat, i: nat)
    requires c < 2
    ensures Bit(c, i) <==> c == 1 && i == 0
  {
    if i > 0 {
      BitOfZero(i - 1);
    }
  }

  /** A word moved up by one, the top bit of the word below moved in. */
  ghost function MovedUp(w: nat, below: nat): nat {
    Or(Shl(w, 1), Shr(And(below, TOP_BIT), 63))
  }

  lemma MovedUpBits(w: nat, below: nat, i: nat)
    requires w < TWO64 && below < TWO64 && i < 64
    ensures MovedUp(w, below) < TWO64
    ensures Bit(MovedUp(w, below), i) <==> if i == 0 then Bit(below, 63) else Bit(w, i - 1)
  {
    hide Shl, Shr, And, Or, Bit, Pow2;
    Carried(below);
    BitShl(w, 1, i);
    OneOrZero(Shr(And(below, TOP_BIT), 63), i);
    Powers();
    OrBelow(Shl(w, 1), Shr(And(below, TOP_BIT), 63), 64);
    BitOr(Shl(w, 1), Shr(And(below, TOP_BIT), 63), i);
  }

  /** A word with a zero inserted at position `p`, its top bit dropped. */
  ghost function Opened(w: nat, p: nat): nat
    requires p < 64
  {
    MaskBelowTop(p);
    Or(And(w, LowMask(p)), Shl(And(w, Not(LowMask(p))), 1))
  }

  lemma {:induction false} MaskGrows(p: nat, n: nat)
    requires p <= n
    ensures Pow2(p) <= Pow2(n)
  {
    if p < n {
      MaskGrows(p, n - 1);
    }
  }

  lemma MaskBelowTop(p: nat)
    requires p <= 64
    ensures LowMask(p) < TWO64
  {
    TopPower();
    MaskGrows(p, 64);
  }

  lemma OpenedBits(w: nat, p: nat, i: nat)
    requires w < TWO64 && p < 64 && i < 64
    ensures Opened(w, p) < TWO64
    ensures Bit(Opened(w, p), i) <==> if i < p then Bit(w, i) else if i == p then false else Bit(w, i - 1)
  {
    hide Shl, And, Or, Bit, Pow2, LowMask, Not;
    MaskBelowTop(p);
    var low, high := And(w, LowMask(p)), And(w, Not(LowMask(p)));
    AndBelow(w, LowMask(p));
    AndBelow(w, Not(LowMask(p)));
    TopPower();
    BitShl(high, 1, i);
    OrBelow(low, Shl(high, 1), 64);
    BitOr(low, Shl(high, 1), i);
    BitAnd(w, LowMask(p), i);
    BitMask(p, i);
    if i > 0 {
      BitAnd(w, Not(LowMask(p)), i - 1);
      BitNot(LowMask(p), i - 1);
      BitMask(p, i - 1);
    }
  }

  /** A word with position `p` removed, a zero coming in at the top. */
  ghost function Closed(w: nat, p: nat): nat
    requires p < 64
  {
    MaskBelowTop(p);
    var mask := Not(LowMask(p));
    Or(And(w, Not(mask)), And(Shr(And(w, mask), 1), mask))
  }

  lemma NotNot(x: nat)
    requires x < TWO64
    ensures Not(x) < TWO64 && Not(Not(x)) == x
  {
  }

  lemma ClosedBits(w: nat, p: nat, i: nat)
    requires w < TWO64 && p < 64 && i < 64
    ensures Closed(w, p) < TWO64
    ensures Bit(Closed(w, p), i) <==> if i < p then Bit(w, i) else if i < 63 then Bit(w, i + 1) else false
  {
    hide Shr, And, Or, Bit, Pow2, LowMask, Not;
    MaskBelowTop(p);
    NotNot(LowMask(p));
    TopPower();
    var mask := Not(LowMask(p));
    var low, high := And(w, LowMask(p)), And(Shr(And(w, mask), 1), mask);
    AndBelow(w, LowMask(p));
    AndBelow(w, mask);
    ShrBelow(And(w, mask), 1);
    AndBelow(Shr(And(w, mask), 1), mask);
    OrBelow(low, high, 64);
    BitOr(low, high, i);
    BitAnd(w, LowMask(p), i);
    BitMask(p, i);
    BitAnd(Shr(And(w, mask), 1), mask, i);
    BitNot(LowMask(p), i);
    BitShr(And(w, mask), 1, i);
    BitAnd(w, mask, i + 1);
    if i < 63 {
      BitNot(LowMask(p), i + 1);
      BitMask(p, i + 1);
    } else {
      BitHigh(w, 64, 64);
    }
  }

  /** The lowest bit of the word above moved in at the top. */
  ghost function Filled(x: nat, above: nat): nat {
    Or(x, Shl(And(above, 1), 63))
  }

  lemma FilledBits(x: nat, above: nat, i: nat)
    requires x < TWO64 && i < 64
    ensures Filled(x, above) < TWO64
    ensures Bit(Filled(x, above), i) <==> Bit(x, i) || (i == 63 && Bit(above, 0))
  {
    hide Shl, Or, Bit, Pow2;
    TopPower();
    LowestBit(above);
    BitShl(And(above, 1), 63, i);
    OrBelow(x, Shl(And(above, 1), 63), 64);
    BitOr(x, Shl(And(above, 1), 63), i);
    OneOrZero(And(above, 1), if i == 63 then 0 else 1);
  }

  lemma LowestBit(x: nat)
    ensures And(x, 1) < 2 && (And(x, 1) == 1 <==> Bit(x, 0))
  {
    AndSteps(x, 1);
    assert And(x / 2, 0) == 0;
  }

  lemma HalfBits(w: nat, i: nat)
    requires w < TWO64 && i < 64
    ensures Shr(w, 1) < TWO64
    ensures Bit(Shr(w, 1), i) <==> i < 63 && Bit(w, i + 1)
  {
    hide Bit, Pow2;
    TopPower();
    ShrBelow(w, 1);
    BitShr(w, 1, i);
    if i == 63 {
      BitHigh(w, 64, 64);
    }
  }

  // ---------- a slice of words ----------

  /** What the words are after inserting a zero at bit `p` of word `e`. */
  ghost predicate Inserted(was: seq<nat>, words: seq<nat>, e: nat, p: nat) {
    && e < |was| == |words| && p < 64
    && (forall t :: 0 <= t < e ==> words[t] == was[t])
    && words[e] == Opened(was[e], p)
    && (forall t :: e < t < |was| ==> words[t] == MovedUp(was[t], was[t - 1]))
  }

  lemma InsertedBits(was: seq<nat>, words: seq<nat>, e: nat, p: nat, k: nat)
    requires Inserted(was, words, e, p) && AreWords(was) && k < 64 * |was|
    ensures BitAt(words, k)
            <==> if k < 64 * e + p then BitAt(was, k) else if k == 64 * e + p then false else BitAt(was, k - 1)
  {
    hide Opened, MovedUp, Bit;
    var t, i := k / 64, k % 64;
    if t == e {
      OpenedBits(was[e], p, i);
      if i > 0 {
        Place(t, i - 1);
      }
    } else if t > e {
      MovedUpBits(was[t], was[t - 1], i);
      if i > 0 {
        Place(t, i - 1);
      } else {
        Place(t - 1, 63);
      }
    }
  }

  lemma InsertedAreWords(was: seq<nat>, words: seq<nat>, e: nat, p: nat)
    requires Inserted(was, words, e, p) && AreWords(was)
    ensures AreWords(words)
  {
    hide Opened, MovedUp, Bit;
    forall t | 0 <= t < |words|
      ensures words[t] < TWO64
    {
      if t == e {
        OpenedBits(was[e], p, 0);
      } else if t > e {
        MovedUpBits(was[t], was[t - 1], 0);
      }
    }
  }

  /** The part of word `t` that stays in it when bit `p` of word `e` is removed. */
  ghost function Kept(was: seq<nat>, e: nat, p: nat, t: nat): nat
    requires e <= t < |was| && p < 64
  {
    if t == e then Closed(was[e], p) else Shr(was[t], 1)
  }

  /** What the words are after removing bit `p` of word `e`. */
  ghost predicate Removed(was: seq<nat>, words: seq<nat>, e: nat, p: nat) {
    && e < |was| == |words| && p < 64
    && (forall t :: 0 <= t < e ==> words[t] == was[t])
    && (forall t :: e <= t < |was| - 1 ==> words[t] == Filled(Kept(was, e, p, t), was[t + 1]))
    && words[|was| - 1] == Kept(was, e, p, |was| - 1)
  }

  lemma KeptBits(was: seq<nat>, e: nat, p: nat, t: nat, i: nat)
    requires e <= t < |was| && p < 64 && AreWords(was) && i < 64
    ensures Kept(was, e, p, t) < TWO64
    ensures Bit(Kept(was, e, p, t), i) <==> if t == e && i < p then Bit(was[t], i) else i < 63 && Bit(was[t], i + 1)
  {
    hide Closed, Bit, Shr;
    if t == e {
      ClosedBits(was[e], p, i);
    } else {
      HalfBits(was[t], i);
    }
  }

  lemma RemovedWord(was: seq<nat>, words: seq<nat>, e: nat, p: nat, t: nat, i: nat)
    requires Removed(was, words, e, p) && AreWords(was) && e <= t < |was| && i < 64
    ensures words[t] < TWO64
    ensures Bit(words[t], i)
            <==> if t == e && i < p then Bit(was[t], i)
                 else if i < 63 then Bit(was[t], i + 1)
                 else t < |was| - 1 && Bit(was[t + 1], 0)
  {
    hide Kept, Filled, Bit;
    KeptBits(was, e, p, t, i);
    if t < |was| - 1 {
      FilledBits(Kept(was, e, p, t), was[t + 1], i);
    }
  }

  lemma RemovedBits(was: seq<nat>, words: seq<nat>, e: nat, p: nat, k: nat)
    requires Removed(was, words, e, p) && AreWords(was)
    ensures BitAt(words, k) <==> if k < 64 * e + p then BitAt(was, k) else BitAt(was, k + 1)
  {
    hide Kept, Filled, Bit;
    var t, i := k / 64, k % 64;
    if i < 63 {
      Place(t, i + 1);
    } else {
      Place(t + 1, 0);
    }
    if e <= t < |was| {
      RemovedWord(was, words, e, p, t, i);
    }
  }

  lemma RemovedAreWords(was: seq<nat>, words: seq<nat>, e: nat, p: nat)
    requires Removed(was, words, e, p) && AreWords(was)
    ensures AreWords(words)
  {
    hide Kept, Filled, Bit;
    forall t | 0 <= t < |words|
      ensures words[t] < TWO64
    {
      if t >= e {
        RemovedWord(was, words, e, p, t, 0);
      }
    }
  }
}
