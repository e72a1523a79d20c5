/**
 * Index sizes: rounding up to a power of two by smearing the highest bit downwards, and counting doublings up to a size.
 */
module CmapSizes {
  import opened Common
  import opened Words
  import opened CmapIndex

  const MAX_SIZE: nat := Pow2(WORD_BITS - 1)

  lemma {:induction false} ShrOr(a: nat, b: nat, t: nat)
    ensures Shr(Or(a, b), t) == Or(Shr(a, t), Shr(b, t))
  {
    if t > 0 {
      OrSteps(a, b);
      ShrOr(a / 2, b / 2, t - 1);
    }
  }

  lemma {:induction false} ShrShr(a: nat, s: nat, t: nat)
    ensures Shr(Shr(a, s), t) == Shr(a, s + t)
  {
    if s > 0 {
      ShrShr(a / 2, s - 1, t);
    }
  }

  lemma {:induction false} ShrOfOnes(n: nat, t: nat)
    requires t <= n
    ensures Shr(Pow2(n) - 1, t) == Pow2(n - t) - 1
  {
    if t > 0 {
      assert (Pow2(n) - 1) / 2 == Pow2(n - 1) - 1;
      ShrOfOnes(n - 1, t - 1);
    }
  }

  lemma {:induction false} ShrAllOut(a: nat, n: nat)
    requires a < Pow2(n)
    ensures Shr(a, n) == 0
  {
    if n > 0 {
      ShrAllOut(a / 2, n - 1);
    }
  }

  /** Ones or-ed below a block of ones extend it to the bottom. */
  lemma {:induction false} OrFillsLow(x: nat, j: nat, s: nat)
    requires Shr(x, j) == Pow2(s) - 1
    ensures Or(x, Pow2(j) - 1) == Pow2(j + s) - 1
  {
    hide Or;
    if j > 0 {
      OrFillsLow(x / 2, j - 1, s);
      OrSteps(x, Pow2(j) - 1);
      assert (Pow2(j) - 1) / 2 == Pow2(j - 1) - 1;
      assert Pow2(j + s) == 2 * Pow2(j - 1 + s);
    } else {
      OrZero(x);
    }
  }

  /** Of a number of `n` bits, the top `s` bits are ones (all of them when `s >= n`). */
  ghost predicate TopOnes(m: nat, n: nat, s: nat) {
    if s < n then Shr(m, n - s) == Pow2(s) - 1 else m == Pow2(n) - 1
  }

  lemma {:induction false} ShrOfZero(n: nat)
    ensures Shr(0, n) == 0
  {
    if n > 0 {
      ShrOfZero(n - 1);
    }
  }

  lemma OrZero(m: nat)
    ensures Or(m, 0) == m
  {
  }

  lemma ShiftedOut(m: nat, n: nat, s: nat)
    requires m < Pow2(n) && n <= s
    ensures Shr(m, s) == 0
  {
    hide Pow2;
    ShrShr(m, n, s - n);
    ShrAllOut(m, n);
    ShrOfZero(s - n);
  }

  lemma ShrNone(m: nat)
    ensures Shr(m, 0) == m
  {
  }

  lemma SmearedTop(m: nat, n: nat, s: nat, k: nat)
    requires s <= k <= n && k <= 2 * s && Shr(m, n - s) == Pow2(s) - 1
    ensures Shr(Or(m, Shr(m, s)), n - k) == Pow2(k) - 1
  {
    hide Or, Shr, Pow2;
    var x := Shr(m, n - k);
    ShrOr(m, Shr(m, s), n - k);
    ShrShr(m, s, n - k);
    ShrShr(m, n - k, s);
    ShrShr(m, n - k, k - s);
    ShrShr(x, k - s, 2 * s - k);
    ShrOfOnes(s, 2 * s - k);
    OrFillsLow(x, k - s, s);
  }

  /** One smearing step, `m |= m >> s`, doubles the block of ones at the top. */
  lemma SmearStep(m: nat, n: nat, s: nat)
    requires TopOnes(m, n, s) && m < Pow2(n)
    ensures TopOnes(Or(m, Shr(m, s)), n, 2 * s) && Or(m, Shr(m, s)) < Pow2(n)
  {
    hide *;
    ShrBelow(m, s);
    OrBelow(m, Shr(m, s), n);
    if s >= n {
      ShiftedOut(m, n, s);
      OrZero(m);
      AllOnes(m, n, s);
    } else {
      MoreOnes(m, n, s);
    }
  }

  lemma AllOnes(m: nat, n: nat, s: nat)
    requires TopOnes(m, n, s) && n <= s
    ensures TopOnes(m, n, 2 * s)
  {
  }

  lemma MoreOnes(m: nat, n: nat, s: nat)
    requires TopOnes(m, n, s) && s < n
    ensures TopOnes(Or(m, Shr(m, s)), n, 2 * s)
  {
    hide Or, Shr, Pow2;
    if 2 * s < n {
      SmearedTop(m, n, s, 2 * s);
    } else {
      SmearedTop(m, n, s, n);
      ShrNone(Or(m, Shr(m, s)));
    }
  }

  /** The number of bits of `m`. */
  function Bits(m: nat): (n: nat)
    ensures m < Pow2(n) && (n > 0 ==> Pow2(n - 1) <= m)
  {
    if m == 0 then 0 else 1 + Bits(m / 2)
  }

  lemma {:induction false} BitsFit(m: nat, n: nat)
    requires m < Pow2(n)
    ensures Bits(m) <= n
  {
    if m > 0 {
      BitsFit(m / 2, n - 1);
    }
  }

  lemma {:induction false} TopBit(m: nat)
    ensures TopOnes(m, Bits(m), 1)
  {
    if m > 1 {
      TopBit(m / 2);
    }
  }

  /** `roundUpPower2`: the least power of two that is no smaller, or 0 if there is none in a word; 0 wraps round to 0. */
  method RoundUpPower2(i: nat) returns (r: nat, ghost k: nat)
    requires i < TWO64
    ensures 0 < i <= MAX_SIZE ==> i <= r == Pow2(k) <= MAX_SIZE && (k > 0 ==> Pow2(k - 1) < i)
    ensures !(0 < i <= MAX_SIZE) ==> r == 0
  {
    hide Or, Shr, Pow2, Bits;
    r := if i == 0 then TWO64 - 1 else i - 1;
    k := Bits(r);
    WidthFits(i, r);
    TopBit(r);
    SmearStep(r, k, 1);
    r := Or(r, Shr(r, 1));
    SmearStep(r, k, 2);
    r := Or(r, Shr(r, 2));
    SmearStep(r, k, 4);
    r := Or(r, Shr(r, 4));
    SmearStep(r, k, 8);
    r := Or(r, Shr(r, 8));
    SmearStep(r, k, 16);
    r := Or(r, Shr(r, 16));
    SmearStep(r, k, 32);
    r := Or(r, Shr(r, 32));
    AllSmeared(i, k, r);
    r := (r + 1) % TWO64;
  }

  /** The width of what is smeared says whether a word can hold the result. */
  ghost predicate WidthOf(i: nat, k: nat) {
    if 0 < i <= MAX_SIZE then k < WORD_BITS && i <= Pow2(k) && (k > 0 ==> Pow2(k - 1) < i) else k == WORD_BITS
  }

  lemma WidthFits(i: nat, r: nat)
    requires i < TWO64 && r == if i == 0 then TWO64 - 1 else i - 1
    ensures WidthOf(i, Bits(r)) && r < Pow2(Bits(r))
  {
    hide Pow2;
    WordPowers();
    if r < MAX_SIZE {
      BitsFit(r, WORD_BITS - 1);
    } else {
      BitsFit(r, WORD_BITS);
      ManyBits(r);
    }
  }

  lemma AllSmeared(i: nat, k: nat, r: nat)
    requires WidthOf(i, k) && TopOnes(r, k, 64)
    ensures var up := (r + 1) % TWO64;
            if 0 < i <= MAX_SIZE then i <= up == Pow2(k) <= MAX_SIZE && (k > 0 ==> Pow2(k - 1) < i) else up == 0
  {
    hide Pow2, Shr;
    WordPowers();
    if k < WORD_BITS - 1 {
      Pow2Grows(k, WORD_BITS - 1);
    }
    IncrementWraps(r);
  }

  lemma IncrementWraps(r: nat)
    requires r < TWO64
    ensures (r + 1) % TWO64 == if r == TWO64 - 1 then 0 else r + 1
  {
  }

  lemma WordPowers()
    ensures Pow2(WORD_BITS - 1) == MAX_SIZE && Pow2(WORD_BITS) == TWO64 == 2 * MAX_SIZE
  {
    hide Pow2;
    TopPower();
  }

  lemma ManyBits(r: nat)
    requires MAX_SIZE <= r < TWO64
    ensures Bits(r) >= WORD_BITS
  {
    hide Pow2;
    WordPowers();
    if Bits(r) < WORD_BITS - 1 {
      Pow2Grows(Bits(r), WORD_BITS - 1);
    }
  }

  lemma Pow2Steps(n: nat)
    ensures Pow2(0) == 1 && Pow2(n + 1) == 2 * Pow2(n)
    ensures Pow2(WORD_BITS) == 2 * MAX_SIZE
  {
  }

  /** `log2`: the least exponent whose power of two is no smaller; doubling never overflows. */
  method Log2(i: nat) returns (n: nat)
    requires i <= MAX_SIZE
    ensures i <= Pow2(n) && (n > 0 ==> Pow2(n - 1) < i)
  {
    hide Pow2;
    Pow2Steps(0);
    var p := 1;
    n := 0;
    while p < i
      invariant p == Pow2(n) < Pow2(WORD_BITS) && (n > 0 ==> Pow2(n - 1) < i)
      decreases i - p
    {
      Pow2Steps(n);
      p, n := p * 2, n + 1;
    }
  }

  /** What `p` is in the loop of `log2` after `k` turns on machine words. */
  function Doubled(k: nat): nat {
    if k == 0 then 1 else Doubled(k - 1) * 2 % TWO64
  }

  lemma DoubleWraps(p: nat)
    requires p <= TWO64 / 2
    ensures p * 2 % TWO64 == if p == TWO64 / 2 then 0 else p * 2
  {
  }

  lemma {:induction false} DoubledIs(k: nat)
    ensures Doubled(k) == if k < WORD_BITS then Pow2(k) else 0
    ensures Doubled(k) <= TWO64 / 2
  {
    hide Pow2;
    TopPower();
    Pow2Steps(0);
    if k > 0 {
      DoubledIs(k - 1);
      DoubleWraps(Doubled(k - 1));
      Pow2Steps(k - 1);
      if k < WORD_BITS - 1 {
        Pow2Grows(k, WORD_BITS - 1);
      }
    }
  }

  /** The loop of `log2` ends exactly for the sizes that a power of two in a word reaches. */
  lemma Log2EndsIff(i: nat)
    ensures (exists k: nat :: Doubled(k) >= i) <==> i <= MAX_SIZE
  {
    hide Pow2, Doubled;
    WordPowers();
    DoubledIs(WORD_BITS - 1);
    forall k: nat
      ensures Doubled(k) <= MAX_SIZE
    {
      DoubledIs(k);
    }
  }
}
