/** Finding the j-th set bit of a word by halving it. */
module BitSelect {
  import opened Common
  import opened Words
  import opened BitPopcount

  /** The set bits of `x` at positions below `p`. */
  ghost function OnesUnder(x: nat, p: nat): (n: nat)
    ensures n <= p
  {
    if p == 0 then 0 else OnesUnder(x, p - 1) + if Bit(x, p - 1) then 1 else 0
  }

  lemma {:induction false} UnderGrows(x: nat, p: nat, q: nat)
    requires p <= q
    ensures OnesUnder(x, p) <= OnesUnder(x, q) <= OnesUnder(x, p) + q - p
  {
    if p < q {
      UnderGrows(x, p, q - 1);
    }
  }

  lemma {:induction false} UnderHalf(x: nat, p: nat)
    ensures OnesUnder(x, p + 1) == x % 2 + OnesUnder(x / 2, p)
  {
    if p > 0 {
      UnderHalf(x, p - 1);
      assert Bit(x, p) == Bit(x / 2, p - 1);
    } else {
      assert OnesUnder(x, 0) == 0;
    }
  }

  /** Counting by position and counting by halving agree. */
  lemma {:induction false} OnesByPosition(x: nat, n: nat)
    requires x < Pow2(n)
    ensures Ones(x) == OnesUnder(x, n)
  {
    if n > 0 {
      UnderHalf(x, n - 1);
      OnesByPosition(x / 2, n - 1);
    }
  }

  /** `part` is the bits of `w` from `seen` on, `width` of them. */
  ghost predicate Part(w: nat, part: nat, seen: nat, width: nat) {
    part < Pow2(width) && forall i: nat :: i < width ==> (Bit(part, i) <==> Bit(w, seen + i))
  }

  lemma {:induction false} PartUnder(w: nat, part: nat, seen: nat, width: nat, p: nat)
    requires Part(w, part, seen, width) && p <= width
    ensures OnesUnder(w, seen + p) == OnesUnder(w, seen) + OnesUnder(part, p)
    decreases p
  {
    if p > 0 {
      PartUnder(w, part, seen, width, p - 1);
      assert Bit(part, p - 1) <==> Bit(w, seen + (p - 1));
    }
  }

  lemma PartOnes(w: nat, part: nat, seen: nat, width: nat)
    requires Part(w, part, seen, width)
    ensures OnesUnder(w, seen + width) == OnesUnder(w, seen) + Ones(part)
  {
    PartUnder(w, part, seen, width, width);
    OnesByPosition(part, width);
  }

  lemma {:induction false} MaskBelow(x: nat, n: nat)
    ensures And(x, LowMask(n)) < Pow2(n)
  {
    if n == 0 {
      assert And(x, 0) == 0;
    } else {
      AndSteps(x, LowMask(n));
      assert LowMask(n) / 2 == LowMask(n - 1);
      MaskBelow(x / 2, n - 1);
    }
  }

  lemma LowPart(w: nat, part: nat, seen: nat, width: nat)
    requires Part(w, part, seen, 2 * width)
    ensures Part(w, And(part, LowMask(width)), seen, width)
  {
    MaskBelow(part, width);
    forall i: nat | i < width
      ensures Bit(And(part, LowMask(width)), i) <==> Bit(w, seen + i)
    {
      BitAnd(part, LowMask(width), i);
      BitMask(width, i);
    }
  }

  lemma {:induction false} ShrDrops(x: nat, n: nat, k: nat)
    requires x < Pow2(n + k)
    ensures Shr(x, k) < Pow2(n)
    decreases k
  {
    if k > 0 {
      assert Pow2(n + k) == 2 * Pow2(n + (k - 1));
      ShrDrops(x / 2, n, k - 1);
    }
  }

  lemma HighPart(w: nat, part: nat, seen: nat, width: nat)
    requires Part(w, part, seen, 2 * width)
    ensures Part(w, Shr(part, width), seen + width, width)
  {
    ShrDrops(part, width, width);
    forall i: nat | i < width
      ensures Bit(Shr(part, width), i) <==> Bit(w, (seen + width) + i)
    {
      BitShr(part, width, i);
      assert Bit(part, i + width) <==> Bit(w, seen + (i + width));
    }
  }

  // ---------- the search ----------

  /** `part` still holds the `j`-th set bit of `w` as its `rem`-th, if any part of `w` does. */
  ghost predicate Searching(w: nat, j: nat, part: nat, seen: nat, width: nat, rem: nat) {
    && Part(w, part, seen, width)
    && seen + width <= 64
    && j == OnesUnder(w, seen) + rem
    && (j < OnesUnder(w, seen + width) || seen + width == 64)
  }

  lemma StartSearch(w: nat, j: nat)
    requires w < TWO64
    ensures Searching(w, j, w, 0, 64, j)
  {
    TopPower();
  }

  lemma SearchLow(w: nat, j: nat, part: nat, seen: nat, width: nat, rem: nat)
    requires Searching(w, j, part, seen, 2 * width, rem) && rem < Ones(And(part, LowMask(width)))
    ensures Searching(w, j, And(part, LowMask(width)), seen, width, rem)
  {
    LowPart(w, part, seen, width);
    PartOnes(w, And(part, LowMask(width)), seen, width);
  }

  lemma SearchHigh(w: nat, j: nat, part: nat, seen: nat, width: nat, rem: nat)
    requires Searching(w, j, part, seen, 2 * width, rem) && Ones(And(part, LowMask(width))) <= rem
    ensures Searching(w, j, Shr(part, width), seen + width, width, rem - Ones(And(part, LowMask(width))))
  {
    LowPart(w, part, seen, width);
    PartOnes(w, And(part, LowMask(width)), seen, width);
    HighPart(w, part, seen, width);
  }

  lemma HalfMasks()
    ensures LowMask(32) == 0xFFFFFFFF && LowMask(16) == 0xFFFF && LowMask(8) == 0xFF
  {
    assert Pow2(8) == 256;
    assert Pow2(16) == 16 * Pow2(12) == 256 * Pow2(8);
    assert Pow2(24) == 16 * Pow2(20) == 256 * Pow2(16);
    assert Pow2(32) == 16 * Pow2(28) == 256 * Pow2(24);
  }

  lemma LowBit(x: nat, k: nat)
    ensures And(Shr(x, k), 1) == if Bit(x, k) then 1 else 0
  {
    BitShr(x, k, 0);
    AndSteps(Shr(x, k), 1);
    assert And(Shr(x, k) / 2, 0) == 0;
  }

  /** The final byte has been read up to `counter`. */
  ghost predicate Reading(w: nat, j: nat, byte: nat, seen: nat, counter: nat, rem: nat) {
    && counter <= 8 && seen + 8 <= 64
    && Part(w, byte, seen, 8)
    && j == OnesUnder(w, seen + counter) + rem
    && (j < OnesUnder(w, seen + 8) || seen + 8 == 64)
  }

  lemma StartReading(w: nat, j: nat, byte: nat, seen: nat, rem: nat)
    requires Searching(w, j, byte, seen, 8, rem)
    ensures Reading(w, j, byte, seen, 0, rem)
  {
    assert seen + 0 == seen;
  }

  lemma ReadBit(w: nat, j: nat, byte: nat, seen: nat, counter: nat, rem: nat)
    requires Reading(w, j, byte, seen, counter, rem) && counter < 8 && j < TWO64
    ensures var next := Minus(rem, And(Shr(byte, counter), 1));
            if Plus(next, 1) == 0
            then (Bit(w, seen + counter) && OnesUnder(w, seen + counter) == j) || j == TWO64 - 1
            else Reading(w, j, byte, seen, counter + 1, next)
  {
    hide Bit, Shr, And;
    LowBit(byte, counter);
    assert Bit(byte, counter) <==> Bit(w, seen + counter);
    assert OnesUnder(w, seen + (counter + 1))
        == OnesUnder(w, seen + counter) + if Bit(w, seen + counter) then 1 else 0;
  }

  /** No bit was found: there are too few. */
  lemma ReadAll(w: nat, j: nat, byte: nat, seen: nat, rem: nat)
    requires Reading(w, j, byte, seen, 8, rem) && w < TWO64
    ensures seen + 8 == 64 && Ones(w) <= j
  {
    hide Pow2, Ones;
    TopPower();
    OnesByPosition(w, 64);
  }

  /** Stopping at the wrapped counter means the bit was found, unless the index was the largest word. */
  lemma Found(w: nat, j: nat, p: nat)
    requires w < TWO64 && p < 64 && ((Bit(w, p) && OnesUnder(w, p) == j) || j == TWO64 - 1)
    ensures j < Ones(w) ==> Bit(w, p) && OnesUnder(w, p) == j
    ensures j >= Ones(w) ==> j == TWO64 - 1
  {
    hide Pow2, Ones, Bit;
    TopPower();
    OnesByPosition(w, 64);
    UnderGrows(w, p + 1, 64);
  }

  /**
   * The position of the set bit of `w` with exactly `index` set bits below it, or 64. The loop over the last
   * byte stops when the unsigned counter wraps below zero. With index 2^64 - 1 the counter is there from the start, and the
   * result is left open; `Select` only asks for indices below 64.
   */
  method Select64(w: nat, index: nat) returns (p: nat)
    requires w < TWO64 && index < TWO64
    ensures index < Ones(w) ==> p < 64 && Bit(w, p) && OnesUnder(w, p) == index
    ensures Ones(w) <= index < TWO64 - 1 ==> p == 64
  {
    hide *;
    HalfMasks();
    var seen, j := 0, index;
    StartSearch(w, index);
    var part := And(w, 0xFFFFFFFF);
    AndBelow(w, 0xFFFFFFFF);
    var n := Popcount(part);
    if n <= j {
      SearchHigh(w, index, w, seen, 32, j);
      part := Shr(w, 32);
      seen := seen + 32;
      j := j - n;
      ShrBelow(w, 32);
    } else {
      SearchLow(w, index, w, seen, 32, j);
    }
    var ww := part;

    part := And(ww, 0xFFFF);
    AndBelow(ww, 0xFFFF);
    n := Popcount(part);
    if n <= j {
      SearchHigh(w, index, ww, seen, 16, j);
      part := Shr(ww, 16);
      seen := seen + 16;
      j := j - n;
      ShrBelow(ww, 16);
    } else {
      SearchLow(w, index, ww, seen, 16, j);
    }
    ww := part;

    part := And(ww, 0xFF);
    AndBelow(ww, 0xFF);
    n := Popcount(part);
    if n <= j {
      SearchHigh(w, index, ww, seen, 8, j);
      part := Shr(ww, 8);
      seen := seen + 8;
      j := j - n;
    } else {
      SearchLow(w, index, ww, seen, 8, j);
    }
    ww := part;

    StartReading(w, index, ww, seen, j);
    var counter := 0;
    while counter < 8
      invariant 0 <= counter <= 8
      invariant Reading(w, index, ww, seen, counter, j)
    {
      ReadBit(w, index, ww, seen, counter, j);
      InByte(w, index, ww, seen, counter, j);
      j := Minus(j, And(Shr(ww, counter), 1));
      if Plus(j, 1) == 0 {
        Found(w, index, seen + counter);
        return seen + counter;
      }
      counter := counter + 1;
    }
    ReadAll(w, index, ww, seen, j);
    p := seen + counter;
  }

  lemma InByte(w: nat, j: nat, byte: nat, seen: nat, counter: nat, rem: nat)
    requires Reading(w, j, byte, seen, counter, rem) && counter < 8
    ensures seen + counter < 64
  {
  }
}
