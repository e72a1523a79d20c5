/** A bit set kept in 64-bit words, refining a sequence of booleans. */
module Bitsets {
  import opened Common
  import opened Words
  import opened BitPopcount
  import opened BitSelect
  import opened BitSequences
  import opened BitShift

  /** `Cap()`: the largest unsigned 64-bit number. */
  const CAP: nat := TWO64 - 1

  /** How many words `i` bits need; near the top of the range the count is one too small. */
  function WordsNeeded(i: nat): nat {
    if i > CAP - 64 + 1 then CAP / 64 else (i + 63) / 64
  }

  /** The words cover the bits except for the last 63 lengths of the range. */
  lemma WordsNeededCovers(i: nat)
    requires i < TWO64
    ensures 64 * WordsNeeded(i) >= i <==> i <= TWO64 - 64
    ensures i <= TWO64 - 64 ==> 64 * WordsNeeded(i) < i + 64
  {
  }

  function Zeros(n: nat): (s: seq<nat>)
    ensures |s| == n && forall i :: 0 <= i < n ==> s[i] == 0
  {
    seq(n, _ => 0)
  }

  ghost predicate AllZero(words: seq<nat>) {
    forall i :: 0 <= i < |words| ==> words[i] == 0
  }

  /** Bits `k` and up are all clear. */
  ghost predicate ClearFrom(words: seq<nat>, length: nat) {
    forall k: nat :: k >= length ==> !BitAt(words, k)
  }

  lemma ZeroWords(words: seq<nat>, more: seq<nat>, length: nat)
    requires AreWords(words) && ClearFrom(words, length) && AllZero(more)
    ensures AreWords(words + more) && ClearFrom(words + more, length)
    ensures forall k: nat :: BitAt(words + more, k) <==> BitAt(words, k)
  {
    hide Bit;
    forall k: nat
      ensures BitAt(words + more, k) <==> BitAt(words, k)
    {
      BitOfZero(k % 64);
    }
  }

  lemma PrefixWords(words: seq<nat>, n: nat, length: nat)
    requires AreWords(words) && ClearFrom(words, length) && length <= 64 * n && n <= |words|
    ensures AreWords(words[..n]) && ClearFrom(words[..n], length)
    ensures forall k: nat :: BitAt(words[..n], k) <==> BitAt(words, k)
  {
    hide Bit;
    forall k: nat
      ensures BitAt(words[..n], k) <==> BitAt(words, k)
    {
      if k / 64 >= n {
        assert k >= length;
      }
    }
  }

  lemma SuffixIsZero(words: seq<nat>, n: nat, length: nat)
    requires AreWords(words) && ClearFrom(words, length) && length <= 64 * n && n <= |words|
    ensures AllZero(words[n..])
  {
    hide Bit;
    forall t | n <= t < |words|
      ensures words[t] == 0
    {
      TopPower();
      forall i: nat | i < 64
        ensures Bit(words[t], i) <==> Bit(0, i)
      {
        Place(t, i);
        assert !BitAt(words, 64 * t + i);
        BitOfZero(i);
      }
      SameBits(words[t], 0, 64);
    }
  }

  /** Word `t` with bit `p` forced to `value`. */
  lemma ForcedBit(words: seq<nat>, t: nat, p: nat, w: nat, value: bool, k: nat)
    requires t < |words| && p < 64
    requires forall i: nat :: i < 64 ==> (Bit(w, i) <==> if i == p then value else Bit(words[t], i))
    ensures BitAt(words[t := w], k) <==> if k == 64 * t + p then value else BitAt(words, k)
  {
    hide Bit;
    Place(t, p);
    assert k == 64 * (k / 64) + k % 64;
  }

  lemma SetWord(w: nat, p: nat)
    requires w < TWO64 && p < 64
    ensures Or(w, Shl(1, p)) < TWO64
    ensures forall i: nat :: i < 64 ==> (Bit(Or(w, Shl(1, p)), i) <==> if i == p then true else Bit(w, i))
  {
    hide *;
    TopPower();
    BitShl(1, p, 0);
    OrBelow(w, Shl(1, p), 64);
    forall i: nat | i < 64
      ensures Bit(Or(w, Shl(1, p)), i) <==> if i == p then true else Bit(w, i)
    {
      BitOr(w, Shl(1, p), i);
      BitShl(1, p, i);
      if i >= p {
        OneOrZero(1, i - p);
      }
    }
  }

  lemma ClearWord(w: nat, p: nat)
    requires w < TWO64 && p < 64
    ensures Shl(1, p) < TWO64 && And(w, Not(Shl(1, p))) < TWO64
    ensures forall i: nat :: i < 64 ==> (Bit(And(w, Not(Shl(1, p))), i) <==> if i == p then false else Bit(w, i))
  {
    hide *;
    TopPower();
    BitShl(1, p, 0);
    AndBelow(w, Not(Shl(1, p)));
    forall i: nat | i < 64
      ensures Bit(And(w, Not(Shl(1, p))), i) <==> if i == p then false else Bit(w, i)
    {
      BitAnd(w, Not(Shl(1, p)), i);
      BitNot(Shl(1, p), i);
      BitShl(1, p, i);
      if i >= p {
        OneOrZero(1, i - p);
      }
    }
  }

  lemma TestWord(w: nat, p: nat)
    requires w < TWO64 && p < 64
    ensures And(w, Shl(1, p)) != 0 <==> Bit(w, p)
  {
    hide *;
    TopPower();
    BitShl(1, p, p);
    OneOrZero(1, 0);
    BitAnd(w, Shl(1, p), p);
    BitOfZero(p);
    if !Bit(w, p) {
      AndBelow(w, Shl(1, p));
      forall i: nat | i < 64
        ensures Bit(And(w, Shl(1, p)), i) <==> Bit(0, i)
      {
        BitAnd(w, Shl(1, p), i);
        BitShl(1, p, i);
        BitOfZero(i);
        if i >= p {
          OneOrZero(1, i - p);
        }
      }
      SameBits(And(w, Shl(1, p)), 0, 64);
    }
  }

  /** The total of the popcounts of the words. */
  method PopcountSlice(words: seq<nat>) returns (n: nat)
    requires AreWords(words)
    ensures n == TrueUnder(words, 64 * |words|)
  {
    hide *;
    n := 0;
    var i := 0;
    EmptyCount(words);
    while i < |words|
      invariant 0 <= i <= |words|
      invariant n == TrueUnder(words, 64 * i)
    {
      IsWord(words, i);
      UnderNextWord(words, i);
      var c := Popcount(words[i]);
      n := n + c;
      i := i + 1;
    }
  }

  lemma EmptyCount(words: seq<nat>)
    ensures TrueUnder(words, 64 * 0) == 0
  {
  }

  lemma IsWord(words: seq<nat>, i: nat)
    requires AreWords(words) && i < |words|
    ensures words[i] < TWO64
  {
  }

  class BitSet {
    var length: nat
    var words: seq<nat>
    /** The words between the length and the capacity of the slice. */
    var spare: seq<nat>
    /** Whether the slice exists yet. */
    var made: bool

    ghost predicate Valid()
      reads this
    {
      && AreWords(words)
      && length <= 64 * |words|
      && ClearFrom(words, length)
      && AllZero(spare)
      && (!made ==> words == [] && spare == [])
    }

    ghost function Bits(): (bits: seq<bool>)
      reads this
      ensures |bits| == length
      ensures forall k: nat :: k < length ==> bits[k] == BitAt(words, k)
    {
      var held := words;
      seq(length, k requires 0 <= k => BitAt(held, k))
    }

    constructor (n: nat)
      requires n <= TWO64 - 64
      ensures Valid() && Bits() == seq(n, _ => false)
    {
      length := n;
      words := Zeros(WordsNeeded(n));
      spare := [];
      made := true;
      new;
      ZeroBits(WordsNeeded(n));
      WordsNeededCovers(n);
    }

    /** Makes room for bit `i` and sets the length to `i + 1`. */
    method ExtendSet(i: nat)
      requires Valid() && length <= i < TWO64 - 64
      modifies this
      ensures Valid() && length == i + 1
      ensures forall k: nat :: BitAt(words, k) <==> old(BitAt(words, k))
    {
      hide Bit, BitAt;
      WordsNeededCovers(i + 1);
      var nsize := WordsNeeded(i + 1);
      ghost var was := words;
      if !made {
        words := Zeros(nsize);
        made := true;
        ZeroWords(was, words, length);
        assert was + words == words;
      } else if |words| + |spare| >= nsize {
        var room := words + spare;
        ZeroWords(was, spare, length);
        PrefixWords(room, nsize, length);
        SuffixIsZero(room, nsize, length);
        words := room[..nsize];
        spare := room[nsize..];
      } else {
        words := words + Zeros(nsize - |words|);
        spare := Zeros(nsize);
        ZeroWords(was, Zeros(nsize - |was|), length);
      }
      length := i + 1;
    }

    method Test(i: nat) returns (r: bool)
      requires Valid()
      ensures r <==> i < length && Bits()[i]
    {
      hide Bit, And, Shl;
      if i >= length {
        return false;
      }
      TestWord(words[i / 64], i % 64);
      r := And(words[i / 64], Shl(1, i % 64)) != 0;
    }

    method Set(i: nat)
      requires Valid() && i < TWO64 - 64
      modifies this
      ensures Valid()
      ensures Bits() == if i < old(length) then old(Bits())[i := true]
                        else old(Bits()) + seq(i - old(length), _ => false) + [true]
    {
      hide Bit, And, Shl, Or;
      ghost var before := words;
      if i >= length {
        ExtendSet(i);
      }
      ghost var was := words;
      SetWord(words[i / 64], i % 64);
      var w := Or(words[i / 64], Shl(1, i % 64));
      words := words[i / 64 := w];
      forall k: nat
        ensures BitAt(words, k) <==> if k == i then true else BitAt(before, k)
      {
        ForcedBit(was, i / 64, i % 64, w, true, k);
      }
    }

    method Clear(i: nat)
      requires Valid()
      modifies this
      ensures Valid()
      ensures Bits() == if i < old(length) then old(Bits())[i := false] else old(Bits())
    {
      hide Bit, And, Shl, Not;
      if i >= length {
        return;
      }
      ghost var was := words;
      ClearWord(words[i / 64], i % 64);
      var w := And(words[i / 64], Not(Shl(1, i % 64)));
      words := words[i / 64 := w];
      forall k: nat
        ensures BitAt(words, k) <==> if k == i then false else BitAt(was, k)
      {
        ForcedBit(was, i / 64, i % 64, w, false, k);
      }
    }

    /**
     * Inserts a clear bit at `idx`. An index past the last word falls back to the same offset in the last word,
     * and a position past the length appends the clear bit.
     */
    method InsertAt(idx: nat)
      requires Valid()
      modifies this
      ensures Valid() && length == old(length) + 1
      ensures Bits() == var p := Position(idx);
                        if p <= old(length) then old(Bits())[..p] + [false] + old(Bits())[p..]
                        else old(Bits()) + [false]
    {
      hide Bit, BitAt, Opened, MovedUp, Shl, Shr, And, Or, Not, LowMask, AreWords, ClearFrom, AllZero, OpenedAt, Inserted,
           Inserting, Bits;
      var insertAtElement := idx / 64;
      ghost var before := Bits();
      if length % 64 == 0 {
        Grow();
      }
      ghost var was := words;
      assert AreWords(was) && ClearFrom(was, length) && length < 64 * |was|;
      var i := |words| - 1;
      StartInserting(was);
      while i > insertAtElement
        invariant 0 <= i < |was| == |words|
        invariant i == |was| - 1 || i >= insertAtElement
        invariant Inserting(was, words, i)
        modifies `words
      {
        InsertStep(was, words, i);
        words := words[i := Shl(words[i], 1)];
        words := words[i := Or(words[i], Shr(And(words[i - 1], TOP_BIT), 63))];
        i := i - 1;
      }
      var p := idx % 64;
      MaskBelowTop(p);
      InsertLast(was, words, i, p);
      var dataMask := LowMask(p);
      var data := And(words[i], Not(dataMask));
      words := words[i := And(words[i], dataMask)];
      words := words[i := Or(words[i], Shl(data, 1))];
      WasInserted(was, words, i, p, length, 64 * i + p);
      length := length + 1;
      OpenedSequence(was, words, before, Bits(), 64 * i + p);
    }

    /** Where `InsertAt` puts the clear bit, in terms of the words it leaves. */
    ghost function Position(idx: nat): nat
      requires words != []
      reads this
    {
      if idx / 64 < |words| then idx else 64 * (|words| - 1) + idx % 64
    }

    /** `append` of one zero word; the runtime chooses the spare capacity when it reallocates. */
    method Grow()
      requires Valid()
      modifies `words, `spare, `made
      ensures Valid() && words == old(words) + [0]
      ensures forall k: nat :: BitAt(words, k) <==> old(BitAt(words, k))
    {
      hide Bit, BitAt;
      ZeroWords(words, [0], length);
      if spare != [] {
        words, spare := words + [0], spare[1..];
      } else {
        var extra: nat := *;
        words, spare := words + [0], Zeros(extra);
      }
      made := true;
    }

    /** Removes bit `i`. The slice keeps its length. A position at or past the length, but within the slice, cuts off the
        last bit, which stays in its word: the set is left in order exactly if that bit was clear. */
    method DeleteAt(i: nat)
      requires Valid() && i / 64 < |words|
      modifies this
      ensures length == if old(length) == 0 then TWO64 - 1 else old(length) - 1
      ensures i < old(length) ==> Valid() && Bits() == old(Bits())[..i] + old(Bits())[i + 1..]
      ensures i >= old(length) > 0 ==>
                Bits() == old(Bits())[..length] && (Valid() <==> !old(Bits())[old(length) - 1])
    {
      hide Bit, BitAt, Closed, Filled, Shl, Shr, And, Or, Not, LowMask, AreWords, ClearFrom, AllZero, ClosedAt, Removed;
      ghost var before := Bits();
      var deleteAtElement, p := i / 64, i % 64;
      ghost var was := words;
      MaskBelowTop(p);
      NotNot(LowMask(p));
      ClosedIs(words[deleteAtElement], p);
      var dataMask := Not(LowMask(p));
      var data := And(words[deleteAtElement], dataMask);
      words := words[deleteAtElement := And(words[deleteAtElement], Not(dataMask))];
      words := words[deleteAtElement := Or(words[deleteAtElement], And(Shr(data, 1), dataMask))];
      var t := deleteAtElement + 1;
      while t < |words|
        invariant deleteAtElement < t <= |words| == |was|
        invariant Removing(was, words, deleteAtElement, p, t)
        modifies `words
      {
        RemoveStep(was, words, deleteAtElement, p, t);
        words := words[t - 1 := Or(words[t - 1], Shl(And(words[t], 1), 63))];
        words := words[t := Shr(words[t], 1)];
        t := t + 1;
      }
      WasRemoved(was, words, deleteAtElement, p);
      RemovedAreWords(was, words, deleteAtElement, p);
      RemoveCloses(was, words, deleteAtElement, p, i);
      ghost var oldLength := length;
      length := if length == 0 then TWO64 - 1 else length - 1;
      if i < oldLength {
        RemoveKeepsClear(was, words, oldLength, i);
        ClosedSequence(was, words, before, Bits(), i);
      } else if oldLength > 0 {
        CutOff(was, words, oldLength, i);
        CutSequence(was, words, before, Bits());
      }
    }

    method Count() returns (n: nat)
      requires Valid()
      ensures n == CountTrue(Bits())
    {
      hide BitAt, CountTrue, TrueUnder, Bit;
      n := PopcountSlice(words);
      BitsCount(length);
      NothingAbove(words, length, 64 * |words|);
      assert Bits()[..length] == Bits();
    }

    /** The set bits up to and including `index`. */
    method Rank(index: nat) returns (answer: nat)
      requires Valid()
      ensures answer == RankOf(Bits(), index)
    {
      hide BitAt, Bit, Shl, Ones, OnesUnder, TrueUnder, CountTrue;
      if index >= length {
        answer := Count();
        return;
      }
      var q, leftover := (index + 1) / 64, (index + 1) % 64;
      answer := PopcountSlice(words[..q]);
      SamePrefix(words, q);
      BitsCount(index + 1);
      if leftover != 0 {
        OnesOfLow(words[q], leftover);
        UnderWord(words, q, leftover);
        var c := Popcount(Shl(words[q], 64 - leftover));
        answer := answer + c;
      }
    }

    /** The position of the set bit with `index` set bits below it, or the length. */
    method Select(index: nat) returns (p: nat)
      requires Valid() && index < TWO64
      ensures p == SelectOf(Bits(), index)
    {
      hide Bit, Ones, OnesUnder, TrueUnder, CountTrue, SelectOf, ClearFrom;
      var leftover := index;
      EmptyCount(words);
      var idx := 0;
      while idx < |words|
        invariant 0 <= idx <= |words|
        invariant index == TrueUnder(words, 64 * idx) + leftover
      {
        IsWord(words, idx);
        var word := words[idx];
        var w := Popcount(word);
        if w > leftover {
          var b := Select64(word, leftover);
          SelectFound(index, idx, leftover, b);
          return idx * 64 + b;
        }
        UnderNextWord(words, idx);
        leftover := leftover - w;
        idx := idx + 1;
      }
      SelectMissing(index);
      p := length;
    }

    lemma BitsCount(k: nat)
      requires Valid() && k <= length
      ensures CountTrue(Bits()[..k]) == TrueUnder(words, k)
    {
      hide BitAt, CountTrue, TrueUnder;
      CountsAgree(words, Bits(), k);
    }

    lemma SelectFound(index: nat, idx: nat, leftover: nat, b: nat)
      requires Valid() && idx < |words| && index == TrueUnder(words, 64 * idx) + leftover
      requires b < 64 && Bit(words[idx], b) && OnesUnder(words[idx], b) == leftover
      ensures idx * 64 + b == SelectOf(Bits(), index)
    {
      hide Bit, TrueUnder, CountTrue, OnesUnder, SelectOf;
      var p := 64 * idx + b;
      Place(idx, b);
      assert BitAt(words, p);
      UnderWord(words, idx, b);
      BitsCount(p);
      CountBelowAll(Bits(), p);
      SelectIsUnique(Bits(), p, SelectOf(Bits(), index));
    }

    lemma SelectMissing(index: nat)
      requires Valid() && index >= TrueUnder(words, 64 * |words|)
      ensures SelectOf(Bits(), index) == length
    {
      hide BitAt, TrueUnder, CountTrue, SelectOf;
      NothingAbove(words, length, 64 * |words|);
      BitsCount(length);
      assert Bits()[..length] == Bits();
    }
  }

  lemma {:induction false} SamePrefix(words: seq<nat>, q: nat)
    requires q <= |words|
    ensures TrueUnder(words[..q], 64 * q) == TrueUnder(words, 64 * q)
  {
    SameCount(words[..q], words, 64 * q);
  }

  lemma {:induction false} SameCount(a: seq<nat>, b: seq<nat>, k: nat)
    requires forall i: nat :: i < k ==> (BitAt(a, i) <==> BitAt(b, i))
    ensures TrueUnder(a, k) == TrueUnder(b, k)
  {
    if k > 0 {
      SameCount(a, b, k - 1);
    }
  }

  lemma OpenedIs(w: nat, p: nat)
    requires p < 64
    ensures LowMask(p) < TWO64 && Opened(w, p) == Or(And(w, LowMask(p)), Shl(And(w, Not(LowMask(p))), 1))
  {
    MaskBelowTop(p);
  }

  lemma ClosedIs(w: nat, p: nat)
    requires p < 64 && LowMask(p) < TWO64
    ensures Closed(w, p) == var mask := Not(LowMask(p)); Or(And(w, Not(mask)), And(Shr(And(w, mask), 1), mask))
  {
  }

  /** The bits after a clear bit came in at `at`. */
  ghost predicate OpenedAt(was: seq<nat>, words: seq<nat>, at: nat, k: nat) {
    BitAt(words, k) <==> if k < at then BitAt(was, k) else if k == at then false else BitAt(was, k - 1)
  }

  /** The bits after bit `at` went out. */
  ghost predicate ClosedAt(was: seq<nat>, words: seq<nat>, at: nat, k: nat) {
    BitAt(words, k) <==> if k < at then BitAt(was, k) else BitAt(was, k + 1)
  }

  /** Inserting moves the clear bits above the length up by one; no set bit is lost at the top. */
  lemma InsertedAt(was: seq<nat>, words: seq<nat>, e: nat, p: nat, length: nat, k: nat)
    requires Inserted(was, words, e, p) && AreWords(was) && ClearFrom(was, length) && length < 64 * |was|
    ensures OpenedAt(was, words, 64 * e + p, k)
  {
    hide Bit, BitAt, Inserted;
    InsertedShape(was, words, e, p);
    if k < 64 * |was| {
      InsertedBits(was, words, e, p, k);
    } else {
      PastTheEnd(words, k);
      assert !BitAt(was, k - 1);
    }
  }

  lemma InsertKeepsClear(was: seq<nat>, words: seq<nat>, e: nat, p: nat, length: nat, at: nat)
    requires at == 64 * e + p
    requires Inserted(was, words, e, p) && AreWords(was) && ClearFrom(was, length) && length < 64 * |was|
    ensures ClearFrom(words, length + 1)
    ensures forall k: nat :: OpenedAt(was, words, at, k)
  {
    hide Bit, BitAt, Inserted;
    forall k: nat
      ensures OpenedAt(was, words, at, k)
    {
      InsertedAt(was, words, e, p, length, k);
    }
    forall k: nat | k >= length + 1
      ensures !BitAt(words, k)
    {
      assert OpenedAt(was, words, at, k);
    }
  }

  lemma WasInserted(was: seq<nat>, words: seq<nat>, e: nat, p: nat, length: nat, at: nat)
    requires at == 64 * e + p
    requires Inserted(was, words, e, p) && AreWords(was) && ClearFrom(was, length) && length < 64 * |was|
    ensures |words| == |was| && AreWords(words) && ClearFrom(words, length + 1)
    ensures forall k: nat :: OpenedAt(was, words, at, k)
  {
    hide AreWords, ClearFrom, OpenedAt;
    InsertedAreWords(was, words, e, p);
    InsertKeepsClear(was, words, e, p, length, at);
  }

  /** Inserting, on sequences of bits. */
  lemma OpenedSequence(was: seq<nat>, words: seq<nat>, before: seq<bool>, after: seq<bool>, at: nat)
    requires forall k: nat :: OpenedAt(was, words, at, k)
    requires ClearFrom(was, |before|) && |after| == |before| + 1
    requires forall k: nat :: k < |before| ==> before[k] == BitAt(was, k)
    requires forall k: nat :: k < |after| ==> after[k] == BitAt(words, k)
    ensures after == if at <= |before| then before[..at] + [false] + before[at..] else before + [false]
  {
    hide BitAt;
    var want := if at <= |before| then before[..at] + [false] + before[at..] else before + [false];
    forall k: nat | k < |after|
      ensures after[k] == want[k]
    {
      assert OpenedAt(was, words, at, k);
    }
  }

  /** Removing, on sequences of bits. */
  lemma ClosedSequence(was: seq<nat>, words: seq<nat>, before: seq<bool>, after: seq<bool>, at: nat)
    requires forall k: nat :: ClosedAt(was, words, at, k)
    requires at < |before| && |after| == |before| - 1
    requires forall k: nat :: k < |before| ==> before[k] == BitAt(was, k)
    requires forall k: nat :: k < |after| ==> after[k] == BitAt(words, k)
    ensures after == before[..at] + before[at + 1..]
  {
    hide BitAt;
    var want := before[..at] + before[at + 1..];
    forall k: nat | k < |after|
      ensures after[k] == want[k]
    {
      assert ClosedAt(was, words, at, k);
    }
  }

  lemma PastTheEnd(words: seq<nat>, k: nat)
    requires k >= 64 * |words|
    ensures !BitAt(words, k)
  {
  }

  /** The words above `i` have been moved up. */
  ghost predicate Inserting(was: seq<nat>, words: seq<nat>, i: nat) {
    && i < |was| == |words|
    && (forall t :: 0 <= t <= i ==> words[t] == was[t])
    && (forall t :: i < t < |was| ==> words[t] == MovedUp(was[t], was[t - 1]))
  }

  lemma StartInserting(was: seq<nat>)
    requires was != []
    ensures Inserting(was, was, |was| - 1)
  {
  }

  lemma InsertStep(was: seq<nat>, words: seq<nat>, i: nat)
    requires Inserting(was, words, i) && i > 0
    ensures var moved := words[i := Shl(words[i], 1)];
            Inserting(was, moved[i := Or(moved[i], Shr(And(moved[i - 1], TOP_BIT), 63))], i - 1)
  {
    hide Or, And, Shl, Shr;
  }

  lemma InsertLast(was: seq<nat>, words: seq<nat>, i: nat, p: nat)
    requires Inserting(was, words, i) && p < 64 && LowMask(p) < TWO64
    ensures var kept := words[i := And(words[i], LowMask(p))];
            Inserted(was, kept[i := Or(kept[i], Shl(And(words[i], Not(LowMask(p))), 1))], i, p)
  {
    hide Or, And, Shl, Shr, LowMask;
    OpenedIs(was[i], p);
  }

  lemma InsertedShape(was: seq<nat>, words: seq<nat>, e: nat, p: nat)
    requires Inserted(was, words, e, p)
    ensures e < |was| == |words| && p < 64
  {
  }

  lemma RemoveCloses(was: seq<nat>, words: seq<nat>, e: nat, p: nat, at: nat)
    requires at == 64 * e + p && Removed(was, words, e, p) && AreWords(was)
    ensures forall k: nat :: ClosedAt(was, words, at, k)
  {
    hide Bit, BitAt, Removed;
    forall k: nat
      ensures ClosedAt(was, words, at, k)
    {
      RemovedBits(was, words, e, p, k);
    }
  }

  lemma RemoveKeepsClear(was: seq<nat>, words: seq<nat>, length: nat, at: nat)
    requires ClearFrom(was, length) && at < length && forall k: nat :: ClosedAt(was, words, at, k)
    ensures ClearFrom(words, length - 1)
  {
    hide BitAt;
    forall k: nat | k >= length - 1
      ensures !BitAt(words, k)
    {
      assert ClosedAt(was, words, at, k);
    }
  }

  /** Closing a gap past the length changes no bit. */
  lemma CutOff(was: seq<nat>, words: seq<nat>, length: nat, at: nat)
    requires ClearFrom(was, length) && 0 < length <= at && forall k: nat :: ClosedAt(was, words, at, k)
    ensures forall k: nat :: BitAt(words, k) == BitAt(was, k)
    ensures ClearFrom(words, length - 1) <==> !BitAt(was, length - 1)
  {
    hide BitAt;
    forall k: nat
      ensures BitAt(words, k) == BitAt(was, k)
    {
      assert ClosedAt(was, words, at, k);
    }
  }

  lemma CutSequence(was: seq<nat>, words: seq<nat>, before: seq<bool>, after: seq<bool>)
    requires forall k: nat :: BitAt(words, k) == BitAt(was, k)
    requires |after| == |before| - 1
    requires forall k: nat :: k < |before| ==> before[k] == BitAt(was, k)
    requires forall k: nat :: k < |after| ==> after[k] == BitAt(words, k)
    ensures after == before[..|after|]
  {
    hide BitAt;
  }

  /** The words below `t` have been moved down, all but the top bit of the last of them. */
  ghost predicate Removing(was: seq<nat>, words: seq<nat>, e: nat, p: nat, t: nat) {
    && e < t <= |was| == |words| && p < 64
    && (forall u :: 0 <= u < e ==> words[u] == was[u])
    && (forall u :: e <= u < t - 1 ==> words[u] == Filled(Kept(was, e, p, u), was[u + 1]))
    && words[t - 1] == Kept(was, e, p, t - 1)
    && (forall u :: t <= u < |was| ==> words[u] == was[u])
  }

  lemma WasRemoved(was: seq<nat>, words: seq<nat>, e: nat, p: nat)
    requires Removing(was, words, e, p, |words|)
    ensures Removed(was, words, e, p)
  {
    hide Kept, Filled;
  }

  lemma RemoveStep(was: seq<nat>, words: seq<nat>, e: nat, p: nat, t: nat)
    requires Removing(was, words, e, p, t) && t < |words|
    ensures var filled := words[t - 1 := Or(words[t - 1], Shl(And(words[t], 1), 63))];
            Removing(was, filled[t := Shr(filled[t], 1)], e, p, t + 1)
  {
    hide Or, And, Shl, Shr, Closed;
  }

  /** Deleting the position just inserted restores the length and every bit. */
  method InsertThenDelete(b: BitSet, i: nat)
    requires b.Valid() && i <= b.length
    modifies b
    ensures b.Valid() && b.length == old(b.length) && b.Bits() == old(b.Bits())
  {
    ghost var before := b.Bits();
    b.InsertAt(i);
    assert i / 64 < |b.words|;
    assert b.Bits() == before[..i] + [false] + before[i..];
    b.DeleteAt(i);
    RemoveUndoesInsert(before, i);
  }

  lemma RemoveUndoesInsert(bits: seq<bool>, i: nat)
    requires i <= |bits|
    ensures var longer := bits[..i] + [false] + bits[i..];
            longer[..i] + longer[i + 1..] == bits
  {
    var longer := bits[..i] + [false] + bits[i..];
    assert longer[..i] == bits[..i] && longer[i + 1..] == bits[i..];
  }

  lemma ZeroBits(n: nat)
    ensures AreWords(Zeros(n)) && forall k: nat :: !BitAt(Zeros(n), k)
  {
    forall k: nat
      ensures !BitAt(Zeros(n), k)
    {
      BitOfZero(k % 64);
    }
  }
}
