/**
 * Machine words as natural numbers: powers of two, shifts and bitwise operations, and the arithmetic that lets sums of
 * powers of two stand for sets of bits.
 */
module Words {
  import opened Common

  const WORD_BITS: nat := 64

  function Pow2(n: nat): (p: nat)
    ensures p >= 1
  {
    if n == 0 then 1 else 2 * Pow2(n - 1)
  }

  /** `x >> n`. */
  function Shr(x: nat, n: nat): nat {
    if n == 0 then x else Shr(x / 2, n - 1)
  }

  /** Bitwise or. */
  function Or(a: nat, b: nat): nat
    decreases a + b
  {
    if a == 0 then b else if b == 0 then a
    else 2 * Or(a / 2, b / 2) + if a % 2 == 0 && b % 2 == 0 then 0 else 1
  }

  lemma OrSteps(a: nat, b: nat)
    ensures Or(a, b) / 2 == Or(a / 2, b / 2)
    ensures Or(a, b) % 2 == if a % 2 == 0 && b % 2 == 0 then 0 else 1
  {
  }

  /** Bitwise and. */
  function And(a: nat, b: nat): nat
    decreases a
  {
    if a == 0 || b == 0 then 0
    else 2 * And(a / 2, b / 2) + if a % 2 == 1 && b % 2 == 1 then 1 else 0
  }

  lemma AndSteps(a: nat, b: nat)
    ensures And(a, b) / 2 == And(a / 2, b / 2)
    ensures And(a, b) % 2 == if a % 2 == 1 && b % 2 == 1 then 1 else 0
  {
  }

  lemma TopPower()
    ensures Pow2(64) == TWO64 && Pow2(63) == TWO64 / 2
  {
    assert Pow2(8) == 256;
    assert Pow2(16) == 256 * Pow2(8) by { assert Pow2(16) == 16 * Pow2(12) == 256 * Pow2(8); }
    assert Pow2(32) == 256 * Pow2(24) == 65536 * Pow2(16) by {
      assert Pow2(24) == 16 * Pow2(20) == 256 * Pow2(16);
      assert Pow2(32) == 16 * Pow2(28) == 256 * Pow2(24);
    }
    assert Pow2(48) == 65536 * Pow2(32) by {
      assert Pow2(40) == 16 * Pow2(36) == 256 * Pow2(32);
      assert Pow2(48) == 16 * Pow2(44) == 256 * Pow2(40);
    }
    assert Pow2(64) == 65536 * Pow2(48) by {
      assert Pow2(56) == 16 * Pow2(52) == 256 * Pow2(48);
      assert Pow2(64) == 16 * Pow2(60) == 256 * Pow2(56);
    }
  }

  /** Bitwise complement of a 64-bit word. */
  function Not(x: nat): nat
    requires x < TWO64
  {
    TWO64 - 1 - x
  }

  // Arithmetic of 64-bit words wraps around.

  function Plus(x: nat, y: nat): nat {
    (x + y) % TWO64
  }

  function Minus(x: nat, y: nat): nat {
    (x - y) % TWO64
  }

  function Times(x: nat, y: nat): nat {
    x * y % TWO64
  }

  /** `x << n` in 64 bits. */
  function Shl(x: nat, n: nat): nat
    decreases n
  {
    if n == 0 then x else Shl((2 * x) % TWO64, n - 1)
  }

  /** `(1 << n) - 1`. */
  function LowMask(n: nat): nat {
    Pow2(n) - 1
  }

  // ---------- bits ----------

  predicate Bit(x: nat, i: nat) {
    if i == 0 then x % 2 == 1 else Bit(x / 2, i - 1)
  }

  lemma {:induction false} BitAnd(a: nat, b: nat, i: nat)
    ensures Bit(And(a, b), i) <==> Bit(a, i) && Bit(b, i)
  {
    AndSteps(a, b);
    if i > 0 {
      BitAnd(a / 2, b / 2, i - 1);
    }
  }

  lemma {:induction false} BitOr(a: nat, b: nat, i: nat)
    ensures Bit(Or(a, b), i) <==> Bit(a, i) || Bit(b, i)
  {
    OrSteps(a, b);
    if i > 0 {
      BitOr(a / 2, b / 2, i - 1);
    }
  }

  lemma {:induction false} BitShr(x: nat, n: nat, i: nat)
    ensures Bit(Shr(x, n), i) <==> Bit(x, i + n)
  {
    if n > 0 {
      BitShr(x / 2, n - 1, i);
    }
  }

  lemma {:induction false} BitHigh(x: nat, n: nat, i: nat)
    requires x < Pow2(n) && n <= i
    ensures !Bit(x, i)
  {
    if n == 0 {
      BitOfZero(i);
    } else {
      BitHigh(x / 2, n - 1, i - 1);
    }
  }

  lemma {:induction false} BitOfZero(i: nat)
    ensures !Bit(0, i)
  {
    if i > 0 {
      BitOfZero(i - 1);
    }
  }

  lemma {:induction false} BitComplement(x: nat, n: nat, i: nat)
    requires x < Pow2(n) && i < n
    ensures Bit(Pow2(n) - 1 - x, i) <==> !Bit(x, i)
  {
    if i > 0 {
      assert (Pow2(n) - 1 - x) / 2 == Pow2(n - 1) - 1 - x / 2;
      BitComplement(x / 2, n - 1, i - 1);
    }
  }

  lemma BitNot(x: nat, i: nat)
    requires x < TWO64 && i < 64
    ensures Bit(Not(x), i) <==> !Bit(x, i)
  {
    TopPower();
    BitComplement(x, 64, i);
  }

  lemma {:induction false} BitMask(n: nat, i: nat)
    ensures Bit(LowMask(n), i) <==> i < n
  {
    if n == 0 {
      BitOfZero(i);
    } else if i > 0 {
      assert LowMask(n) / 2 == LowMask(n - 1);
      BitMask(n - 1, i - 1);
    }
  }

  lemma {:induction false} BitPow(n: nat, i: nat)
    ensures Bit(Pow2(n), i) <==> i == n
  {
    if n == 0 {
      if i > 0 {
        BitOfZero(i - 1);
      }
    } else if i > 0 {
      BitPow(n - 1, i - 1);
    }
  }

  /** Dropping the top bit leaves the others. */
  lemma {:induction false} BitDropTop(x: nat, n: nat, i: nat)
    requires Pow2(n) <= x && i < n
    ensures Bit(x - Pow2(n), i) <==> Bit(x, i)
  {
    if i > 0 {
      assert (x - Pow2(n)) / 2 == x / 2 - Pow2(n - 1);
      BitDropTop(x / 2, n - 1, i - 1);
    }
  }

  lemma BitDouble(x: nat, i: nat)
    requires x < TWO64 && i < 64
    ensures Bit((2 * x) % TWO64, i) <==> i > 0 && Bit(x, i - 1)
  {
    TopPower();
    if i > 0 {
      if x < TWO64 / 2 {
        assert (2 * x) % TWO64 / 2 == x;
      } else {
        assert (2 * x) % TWO64 / 2 == x - Pow2(63);
        BitDropTop(x, 63, i - 1);
      }
    }
  }

  lemma {:induction false} BitShl(x: nat, n: nat, i: nat)
    requires x < TWO64 && i < 64
    ensures Shl(x, n) < TWO64
    ensures Bit(Shl(x, n), i) <==> i >= n && Bit(x, i - n)
    decreases n
  {
    if n > 0 {
      var y := (2 * x) % TWO64;
      BitShl(y, n - 1, i);
      if i >= n {
        BitDouble(x, i - (n - 1));
      } else if i == n - 1 {
        BitDouble(x, 0);
      }
    }
  }

  /** A word is its bits. */
  lemma {:induction false} SameBits(x: nat, y: nat, n: nat)
    requires x < Pow2(n) && y < Pow2(n) && forall i: nat :: i < n ==> (Bit(x, i) <==> Bit(y, i))
    ensures x == y
  {
    if n > 0 {
      assert Bit(x, 0) <==> Bit(y, 0);
      forall i: nat | i < n - 1
        ensures Bit(x / 2, i) <==> Bit(y / 2, i)
      {
        assert Bit(x, i + 1) <==> Bit(y, i + 1);
      }
      SameBits(x / 2, y / 2, n - 1);
    }
  }

  lemma {:induction false} AndBelow(a: nat, b: nat)
    ensures And(a, b) <= a
  {
    AndSteps(a, b);
    if a > 0 {
      AndBelow(a / 2, b / 2);
    }
  }

  lemma {:induction false} OrBelow(a: nat, b: nat, n: nat)
    requires a < Pow2(n) && b < Pow2(n)
    ensures Or(a, b) < Pow2(n)
    decreases n
  {
    if n > 0 {
      OrSteps(a, b);
      OrBelow(a / 2, b / 2, n - 1);
    }
  }

  lemma {:induction false} ShrBelow(x: nat, n: nat)
    ensures Shr(x, n) <= x
  {
    if n > 0 {
      ShrBelow(x / 2, n - 1);
    }
  }

  /** How many bits are set. */
  function Ones(x: nat): (n: nat) {
    if x == 0 then 0 else Ones(x / 2) + x % 2
  }
}
