/**
 * Counting the bits of a word in parallel fields of 2, 4 and 8 bits.
 *
 * After each step of the program the word holds, field by field, the number of ones of the original field. A mask of
 * equal fields selects the lowest field and recurses on the fields above it, so each step is an induction over the
 * fields; the last multiplication adds the bytes up in the top byte.
 */
module BitPopcount {
  import opened Common
  import opened Words

  // ---------- masks of equal fields ----------

  /** The number whose `n` digits in base `base` are all `d`. */
  function Repeat(base: nat, d: nat, n: nat): nat {
    if n == 0 then 0 else base * Repeat(base, d, n - 1) + d
  }

  const MASK1: nat := 0x5555555555555555
  const MASK2: nat := 0x3333333333333333
  const MASK4: nat := 0x0f0f0f0f0f0f0f0f
  const SPREAD: nat := 0x0101010101010101

  lemma Masks()
    ensures Repeat(4, 1, 32) == MASK1 && Repeat(16, 3, 16) == MASK2 && Repeat(256, 15, 8) == MASK4
  {
    assert Repeat(4, 1, 8) == 0x5555;
    assert Repeat(4, 1, 16) == 0x55555555;
    assert Repeat(4, 1, 24) == 0x555555555555;
    assert Repeat(16, 3, 8) == 0x33333333;
  }

  lemma AndEven(y: nat, m: nat)
    ensures And(y, 2 * m) == 2 * And(y / 2, m)
  {
    hide And;
    AndSteps(y, 2 * m);
    assert (2 * m) / 2 == m && (2 * m) % 2 == 0;
  }

  lemma AndOdd(y: nat, m: nat)
    ensures And(y, 2 * m + 1) == 2 * And(y / 2, m) + y % 2
  {
    hide And;
    AndSteps(y, 2 * m + 1);
    assert (2 * m + 1) / 2 == m && (2 * m + 1) % 2 == 1;
  }

  lemma AndZero(y: nat)
    ensures And(y, 0) == 0
  {
  }

  lemma Halves(y: nat)
    ensures y / 2 / 2 == y / 4 && y / 4 / 2 == y / 8
  {
  }

  lemma Sixteenth(y: nat)
    ensures y / 4 / 4 == y / 16 && y / 16 / 16 == y / 256
  {
  }

  lemma Digit16(q: nat, l: nat)
    requires l < 16
    ensures (16 * q + l) / 16 == q && (16 * q + l) % 16 == l
  {
  }

  lemma Digit4(q: nat, l: nat)
    requires l < 4
    ensures (4 * q + l) / 4 == q && (4 * q + l) % 4 == l
  {
  }

  lemma Digit2(y: nat)
    ensures y == 2 * (y / 2) + y % 2
  {
  }

  lemma LowPair(y: nat)
    ensures y % 4 == 2 * (y / 2 % 2) + y % 2
  {
    Digit2(y);
    Digit2(y / 2);
    Digit4(y / 2 / 2, 2 * (y / 2 % 2) + y % 2);
  }

  lemma Nibble(y: nat)
    ensures y % 16 == 4 * (y / 4 % 4) + y % 4
  {
    Digit4(y / 4, y % 4);
    Digit4(y / 4 / 4, y / 4 % 4);
    Digit16(y / 4 / 4, 4 * (y / 4 % 4) + y % 4);
  }

  lemma AndField4(y: nat, m: nat)
    ensures And(y, 4 * m + 1) == 4 * And(y / 4, m) + y % 2
  {
    hide *;
    AndOdd(y, 2 * m);
    AndEven(y / 2, m);
    Halves(y);
  }

  /** Two mask bits in a row. */
  lemma AndPair(y: nat, m: nat)
    ensures And(y, 4 * m + 3) == 4 * And(y / 4, m) + y % 4
  {
    hide *;
    AndOdd(y, 2 * m + 1);
    AndOdd(y / 2, m);
    Halves(y);
    LowPair(y);
  }

  lemma AndNothing(y: nat, m: nat)
    ensures And(y, 4 * m) == 4 * And(y / 4, m)
  {
    hide *;
    AndEven(y, 2 * m);
    AndEven(y / 2, m);
    Halves(y);
  }

  lemma AndField16(y: nat, m: nat)
    ensures And(y, 16 * m + 3) == 16 * And(y / 16, m) + y % 4
  {
    hide *;
    AndPair(y, 4 * m);
    AndNothing(y / 4, m);
    Sixteenth(y);
  }

  lemma AndField256(y: nat, m: nat)
    ensures And(y, 256 * m + 15) == 256 * And(y / 256, m) + y % 16
  {
    hide *;
    AndPair(y, 64 * m + 3);
    AndField16(y / 4, 4 * m);
    AndNothing(y / 4 / 16, m);
    Nibble(y);
    Levels(y);
  }

  lemma Levels(y: nat)
    ensures y / 4 / 16 / 4 == y / 256
  {
  }

  // ---------- the ones of every field, kept in the field ----------

  function Pop2(r: nat): (n: nat)
    ensures n <= 2
  {
    r % 2 + r / 2 % 2
  }

  function Pop4(r: nat): (n: nat)
    ensures n <= 4
  {
    Pop2(r % 4) + Pop2(r / 4 % 4)
  }

  function Pop8(r: nat): (n: nat)
    ensures n <= 8
  {
    Pop4(r % 16) + Pop4(r / 16 % 16)
  }

  function Fields2(x: nat, n: nat): nat {
    if n == 0 then 0 else 4 * Fields2(x / 4, n - 1) + Pop2(x % 4)
  }

  function Fields4(x: nat, n: nat): nat {
    if n == 0 then 0 else 16 * Fields4(x / 16, n - 1) + Pop4(x % 16)
  }

  function Fields8(x: nat, n: nat): nat {
    if n == 0 then 0 else 256 * Fields8(x / 256, n - 1) + Pop8(x % 256)
  }

  lemma ShrIsDivide(y: nat)
    ensures Shr(y, 1) == y / 2 && Shr(y, 2) == y / 4 && Shr(y, 4) == y / 16
  {
    assert Shr(y, 1) == Shr(y / 2, 0);
    assert Shr(y, 2) == Shr(y / 2, 1) == Shr(y / 2 / 2, 0);
    assert Shr(y, 4) == Shr(y / 2, 3) == Shr(y / 2 / 2, 2) == Shr(y / 2 / 2 / 2, 1) == Shr(y / 2 / 2 / 2 / 2, 0);
    assert y / 2 / 2 == y / 4 && y / 4 / 2 == y / 8 && y / 8 / 2 == y / 16;
  }

  /** Taking the high bit of a pair from the pair leaves its number of ones. */
  lemma {:induction false} Step1(x: nat, n: nat)
    requires x < Pow2(2 * n)
    ensures And(x / 2, Repeat(4, 1, n)) <= x
    ensures x - And(x / 2, Repeat(4, 1, n)) == Fields2(x, n)
  {
    hide And, Pop2;
    if n > 0 {
      assert Pow2(2 * n) == 2 * Pow2(2 * n - 1) == 4 * Pow2(2 * (n - 1));
      Step1(x / 4, n - 1);
      AndField4(x / 2, Repeat(4, 1, n - 1));
      Pair(x);
      assert x / 2 / 4 == x / 4 / 2;
    } else {
      AndZero(x / 2);
    }
  }

  lemma Pair(x: nat)
    ensures x - x / 2 % 2 == 4 * (x / 4) + Pop2(x % 4)
  {
  }

  lemma First2(x: nat, n: nat)
    requires n > 0
    ensures Fields2(x, n) == 4 * Fields2(x / 4, n - 1) + Pop2(x % 4)
  {
  }

  lemma First4(x: nat, n: nat)
    requires n > 0
    ensures Fields4(x, n) == 16 * Fields4(x / 16, n - 1) + Pop4(x % 16)
  {
  }

  lemma First8(x: nat, n: nat)
    requires n > 0
    ensures Fields8(x, n) == 256 * Fields8(x / 256, n - 1) + Pop8(x % 256)
  {
  }

  /** Two fields at a time. */
  lemma Unfold2(x: nat, n: nat)
    requires n >= 2
    ensures Fields2(x, n) == 4 * (4 * Fields2(x / 4 / 4, n - 2) + Pop2(x / 4 % 4)) + Pop2(x % 4)
  {
    hide *;
    First2(x, n);
    First2(x / 4, n - 1);
  }

  lemma Unfold4(x: nat, n: nat)
    requires n >= 2
    ensures Fields4(x, n) == 16 * (16 * Fields4(x / 16 / 16, n - 2) + Pop4(x / 16 % 16)) + Pop4(x % 16)
  {
    hide *;
    First4(x, n);
    First4(x / 16, n - 1);
  }

  lemma Pop4Splits(x: nat)
    ensures Pop4(x % 16) == Pop2(x % 4) + Pop2(x / 4 % 4)
  {
    hide Pop2;
    assert x % 16 % 4 == x % 4 && x % 16 / 4 == x / 4 % 4;
  }

  lemma Pop8Splits(x: nat)
    ensures Pop8(x % 256) == Pop4(x % 16) + Pop4(x / 16 % 16)
  {
    hide Pop4;
    ByteParts(x);
  }

  lemma ByteParts(x: nat)
    ensures x % 256 % 16 == x % 16 && x % 256 / 16 % 16 == x / 16 % 16
  {
    var q, r := x / 256, x % 256;
    Digit16(r / 16, r % 16);
    Digit16(16 * q + r / 16, r % 16);
    Digit16(q, r / 16);
    Digit16(0, r / 16);
  }

  /** Both halves of a sum of masked fields, from the digits. */
  lemma AddPairs(y: nat, z: nat, a: nat, b: nat, m: nat)
    requires y == 4 * (4 * z + a) + b && a <= 2 && b <= 2
    ensures And(y / 4, 16 * m + 3) + And(y, 16 * m + 3) == 16 * (And(z / 4, m) + And(z, m)) + a + b
  {
    hide *;
    AndField16(y / 4, m);
    AndField16(y, m);
    assert y / 16 == z && y % 4 == b && y / 4 == 4 * z + a && y / 4 % 4 == a;
    assert (4 * z + a) / 16 == z / 4;
  }

  /** Adding neighbouring two-bit counts. */
  lemma {:induction false} Step2(x: nat, n: nat)
    ensures And(Fields2(x, 2 * n) / 4, Repeat(16, 3, n)) + And(Fields2(x, 2 * n), Repeat(16, 3, n)) == Fields4(x, n)
  {
    hide And, Fields2, Pop2, Pop4;
    if n > 0 {
      Step2(x / 16, n - 1);
      Unfold2(x, 2 * n);
      Sixteenth(x);
      Pop4Splits(x);
      AddPairs(Fields2(x, 2 * n), Fields2(x / 16, 2 * (n - 1)), Pop2(x / 4 % 4), Pop2(x % 4), Repeat(16, 3, n - 1));
    } else {
      AndZero(Fields2(x, 0));
      AndZero(Fields2(x, 0) / 4);
    }
  }

  /** A four-bit field holds at most four, and the whole is far from overflowing. */
  lemma {:induction false} FieldsAreSmall(x: nat, n: nat)
    ensures Fields4(x, n) % 16 <= 4
    ensures 15 * Fields4(x, n) <= 4 * (Pow2(4 * n) - 1)
  {
    hide Pop4;
    if n > 0 {
      FieldsAreSmall(x / 16, n - 1);
      SmallStep(Fields4(x / 16, n - 1), Pow2(4 * (n - 1)), Pop4(x % 16));
      assert Pow2(4 * n) == 16 * Pow2(4 * (n - 1)) by {
        assert Pow2(4 * n) == 2 * Pow2(4 * n - 1) && Pow2(4 * n - 1) == 2 * Pow2(4 * n - 2);
        assert Pow2(4 * n - 2) == 2 * Pow2(4 * n - 3) && Pow2(4 * n - 3) == 2 * Pow2(4 * n - 4);
      }
    }
  }

  lemma SmallStep(f: nat, p: nat, d: nat)
    requires 15 * f <= 4 * (p - 1) && d <= 4
    ensures 15 * (16 * f + d) <= 4 * (16 * p - 1) && (16 * f + d) % 16 <= 4
  {
    Digit16(f, d);
  }

  lemma AddNibbles(s: nat, z: nat, a: nat, b: nat, m: nat)
    requires s == 16 * (16 * z + a) + b && z % 16 <= 4 && a <= 4 && b <= 4
    ensures And(s + s / 16, 256 * m + 15) == 256 * And(z + z / 16, m) + a + b
  {
    hide *;
    assert s / 16 == 16 * z + a;
    var low := 16 * (z % 16 + a) + (a + b);
    assert s + s / 16 == 256 * (z + z / 16) + low && low < 256 && low % 16 == a + b;
    AndField256(s + s / 16, m);
    DigitsOf(z + z / 16, low);
  }

  lemma DigitsOf(q: nat, low: nat)
    requires low < 256
    ensures (256 * q + low) / 256 == q && (256 * q + low) % 16 == low % 16
  {
  }

  /** Adding neighbouring four-bit counts: no field overflows. */
  lemma {:induction false} Step3(x: nat, n: nat)
    ensures And(Fields4(x, 2 * n) + Fields4(x, 2 * n) / 16, Repeat(256, 15, n)) == Fields8(x, n)
  {
    hide And, Fields4, Pop4, Pop8;
    if n > 0 {
      Step3(x / 256, n - 1);
      Unfold4(x, 2 * n);
      Sixteenth(x);
      Pop8Splits(x);
      FieldsAreSmall(x / 256, 2 * (n - 1));
      AddNibbles(Fields4(x, 2 * n), Fields4(x / 256, 2 * (n - 1)), Pop4(x / 16 % 16), Pop4(x % 16), Repeat(256, 15, n - 1));
    } else {
      AndZero(Fields4(x, 0) + Fields4(x, 0) / 16);
    }
  }

  // ---------- the sum of the bytes ----------

  lemma OnesOfPair(x: nat)
    ensures Ones(x) == Ones(x / 4) + Pop2(x % 4)
  {
    assert Ones(x) == Ones(x / 2) + x % 2;
    assert Ones(x / 2) == Ones(x / 2 / 2) + x / 2 % 2;
    assert x / 2 / 2 == x / 4;
  }

  lemma OnesOfNibble(x: nat)
    ensures Ones(x) == Ones(x / 16) + Pop4(x % 16)
  {
    hide *;
    OnesOfPair(x);
    OnesOfPair(x / 4);
    Pop4Splits(x);
    assert x / 4 / 4 == x / 16;
  }

  lemma OnesOfByte(x: nat)
    ensures Ones(x) == Ones(x / 256) + Pop8(x % 256)
  {
    hide *;
    OnesOfNibble(x);
    OnesOfNibble(x / 16);
    Pop8Splits(x);
    assert x / 16 / 16 == x / 256;
  }

  const TOP_BYTE: nat := 0x100_0000_0000_0000

  /** Multiplying by 0x0101...01 adds up the bytes in the top byte. */
  lemma TopByte(f: nat, a: nat, b: nat, c: nat, d: nat, e: nat, g: nat, h: nat, i: nat)
    requires a <= 8 && b <= 8 && c <= 8 && d <= 8 && e <= 8 && g <= 8 && h <= 8 && i <= 8
    requires f == a + 256 * (b + 256 * (c + 256 * (d + 256 * (e + 256 * (g + 256 * (h + 256 * i))))))
    ensures f * SPREAD % TWO64 / TOP_BYTE == a + b + c + d + e + g + h + i
  {
    var low := a + 256 * (a + b + 256 * (a + b + c + 256 * (a + b + c + d + 256 * (a + b + c + d + e
               + 256 * (a + b + c + d + e + g + 256 * (a + b + c + d + e + g + h))))));
    var top := a + b + c + d + e + g + h + i;
    var high := b + c + d + e + g + h + i + 256 * (c + d + e + g + h + i + 256 * (d + e + g + h + i
                + 256 * (e + g + h + i + 256 * (g + h + i + 256 * (h + i + 256 * i)))));
    assert f * SPREAD == TWO64 * high + (TOP_BYTE * top + low);
    assert low < TOP_BYTE && top < 256;
    Parts(f * SPREAD, high, top, low);
  }

  lemma Parts(v: nat, high: nat, top: nat, low: nat)
    requires v == TWO64 * high + (TOP_BYTE * top + low) && top < 256 && low < TOP_BYTE
    ensures v % TWO64 / TOP_BYTE == top
  {
    Rest(v, high, TOP_BYTE * top + low);
    Top(TOP_BYTE * top + low, top, low);
  }

  lemma Rest(v: nat, high: nat, r: nat)
    requires v == TWO64 * high + r && r < TWO64
    ensures v % TWO64 == r
  {
  }

  lemma Top(v: nat, top: nat, low: nat)
    requires v == TOP_BYTE * top + low && low < TOP_BYTE
    ensures v / TOP_BYTE == top
  {
  }

  /** Two bytes at a time. */
  lemma TwoBytes(x: nat, n: nat)
    requires n >= 2
    ensures Fields8(x, n) == Pop8(x % 256) + 256 * (Pop8(x / 256 % 256) + 256 * Fields8(x / 256 / 256, n - 2))
    ensures Ones(x) == Pop8(x % 256) + Pop8(x / 256 % 256) + Ones(x / 256 / 256)
  {
    hide *;
    First8(x, n);
    First8(x / 256, n - 1);
    OnesOfByte(x);
    OnesOfByte(x / 256);
  }

  lemma NoMore(x: nat)
    requires x < TWO64
    ensures x / 256 / 256 / 256 / 256 / 256 / 256 / 256 / 256 == 0 && Ones(0) == 0 && Fields8(0, 0) == 0
  {
    assert x / 256 / 256 / 256 / 256 < 0x1_0000_0000;
  }

  lemma BytesOf(x: nat)
    requires x < TWO64
    ensures Fields8(x, 8) * SPREAD % TWO64 / TOP_BYTE == Ones(x)
  {
    hide *;
    var b2 := x / 256 / 256;
    var b4 := b2 / 256 / 256;
    var b6 := b4 / 256 / 256;
    TwoBytes(x, 8);
    TwoBytes(b2, 6);
    TwoBytes(b4, 4);
    TwoBytes(b6, 2);
    NoMore(x);
    Combine(x, b2, b4, b6, Fields8(x, 8), Fields8(b2, 6), Fields8(b4, 4), Fields8(b6, 2));
  }

  /** Four pairs of bytes make the word. */
  lemma Combine(x: nat, b2: nat, b4: nat, b6: nat, f0: nat, f2: nat, f4: nat, f6: nat)
    requires f0 == Pop8(x % 256) + 256 * (Pop8(x / 256 % 256) + 256 * f2)
    requires f2 == Pop8(b2 % 256) + 256 * (Pop8(b2 / 256 % 256) + 256 * f4)
    requires f4 == Pop8(b4 % 256) + 256 * (Pop8(b4 / 256 % 256) + 256 * f6)
    requires f6 == Pop8(b6 % 256) + 256 * Pop8(b6 / 256 % 256)
    ensures f0 * SPREAD % TWO64 / TOP_BYTE
            == Pop8(x % 256) + Pop8(x / 256 % 256) + Pop8(b2 % 256) + Pop8(b2 / 256 % 256)
               + Pop8(b4 % 256) + Pop8(b4 / 256 % 256) + Pop8(b6 % 256) + Pop8(b6 / 256 % 256)
  {
    hide *;
    TopByte(f0, Pop8(x % 256), Pop8(x / 256 % 256), Pop8(b2 % 256), Pop8(b2 / 256 % 256),
            Pop8(b4 % 256), Pop8(b4 / 256 % 256), Pop8(b6 % 256), Pop8(b6 / 256 % 256));
  }

  lemma ShrTopByte(v: nat)
    ensures Shr(v, 56) == v / TOP_BYTE
  {
    hide Shr;
    ShrIsDivision(v, 56);
    BytePower();
  }

  lemma BytePower()
    ensures Pow2(56) == TOP_BYTE
  {
    assert Pow2(14) == 0x4000;
    assert Pow2(28) == 0x4000 * Pow2(14) by { assert Pow2(28) == 128 * Pow2(21) && Pow2(21) == 128 * Pow2(14); }
    assert Pow2(42) == 0x4000 * Pow2(28) by { assert Pow2(42) == 128 * Pow2(35) && Pow2(35) == 128 * Pow2(28); }
    assert Pow2(56) == 0x4000 * Pow2(42) by { assert Pow2(56) == 128 * Pow2(49) && Pow2(49) == 128 * Pow2(42); }
  }

  lemma {:induction false} ShrIsDivision(v: nat, n: nat)
    ensures Shr(v, n) == v / Pow2(n)
  {
    if n > 0 {
      ShrIsDivision(v / 2, n - 1);
      HalfThen(v, Pow2(n - 1));
    }
  }

  lemma HalfThen(v: nat, p: nat)
    requires p > 0
    ensures v / 2 / p == v / (2 * p)
  {
    var q, r := v / 2 / p, v / 2 % p;
    assert v / 2 == q * p + r;
    assert v == (2 * p) * q + (2 * r + v % 2);
    assert 0 <= 2 * r + v % 2 < 2 * p;
    UniqueQuotient(v, 2 * p, q, 2 * r + v % 2);
  }

  lemma UniqueQuotient(v: nat, p: nat, q: nat, r: nat)
    requires v == p * q + r && r < p
    ensures v / p == q
  {
    var d := v / p - q;
    assert p * d == r - v % p;
    Multiples(p, d);
  }

  lemma Multiples(p: int, d: int)
    requires p > 0
    ensures d >= 1 ==> p * d >= p
    ensures d <= -1 ==> p * d + p <= 0
  {
    assert d >= 1 ==> p * (d - 1) >= 0;
    assert d <= -1 ==> p * (d + 1) <= 0;
  }

  // ---------- the counter ----------

  lemma Stage1(word: nat)
    requires word < TWO64
    ensures Minus(word, And(Shr(word, 1), MASK1)) == Fields2(word, 32)
  {
    hide *;
    TopPower();
    Masks();
    ShrIsDivide(word);
    Step1(word, 32);
    MinusSmall(word, And(word / 2, MASK1));
  }

  lemma MinusSmall(x: nat, y: nat)
    requires y <= x < TWO64
    ensures Minus(x, y) == x - y
  {
  }

  lemma PlusSmall(x: nat, y: nat)
    requires x + y < TWO64
    ensures Plus(x, y) == x + y
  {
  }

  lemma Stage2(word: nat)
    ensures var y := Fields2(word, 32);
            Plus(And(Shr(y, 2), MASK2), And(y, MASK2)) == Fields4(word, 16)
  {
    hide *;
    Masks();
    var y := Fields2(word, 32);
    ShrIsDivide(y);
    Step2(word, 16);
    FieldsBelow(word);
    PlusSmall(And(y / 4, MASK2), And(y, MASK2));
  }

  lemma FieldsBelow(word: nat)
    ensures Fields4(word, 16) + Fields4(word, 16) / 16 < TWO64
  {
    hide *;
    TopPower();
    FieldsAreSmall(word, 16);
  }

  lemma Stage3(word: nat)
    ensures And(Plus(Fields4(word, 16), Shr(Fields4(word, 16), 4)), MASK4) == Fields8(word, 8)
  {
    hide *;
    Masks();
    var z := Fields4(word, 16);
    ShrIsDivide(z);
    Step3(word, 8);
    FieldsBelow(word);
    PlusSmall(z, z / 16);
  }

  lemma Stage4(word: nat)
    requires word < TWO64
    ensures Shr(Times(Fields8(word, 8), SPREAD), 56) == Ones(word)
  {
    hide Shr, Fields8, Ones;
    ShrTopByte(Times(Fields8(word, 8), SPREAD));
    BytesOf(word);
  }

  /** The number of set bits, by a fixed number of word operations. */
  method Popcount(word: nat) returns (n: nat)
    requires word < TWO64
    ensures n == Ones(word)
  {
    hide *;
    Stage1(word);
    Stage2(word);
    Stage3(word);
    Stage4(word);
    var x := Minus(word, And(Shr(word, 1), MASK1));
    x := Plus(And(Shr(x, 2), MASK2), And(x, MASK2));
    x := Plus(x, Shr(x, 4));
    x := And(x, MASK4);
    x := Times(x, SPREAD);
    n := Shr(x, 56);
  }
}
