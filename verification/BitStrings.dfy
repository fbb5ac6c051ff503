/**
 Bit strings with the first bit on the left: a 32-bit register as a ring, and the field
 of w bits from offset o on.  A ring index is a bv5 and wraps round by itself.
 */
module BitStrings {
  import BitFacts

  /** A left-aligned field of w ones: -1 << (32 - w). */
  function Ones(w: bv6): bv32
    requires 1 <= w <= 32
  {
    (0xFFFF_FFFF as bv32) << (32 - w)
  }

  /** v << (32 - w): the low w bits of v at the left end. */
  function Aligned(v: bv32, w: bv6): bv32
    requires 1 <= w <= 32
  {
    v << (32 - w)
  }

  /** v >> (32 - w) of an unsigned value. */
  function Lowered(v: bv32, w: bv6): bv32
    requires 1 <= w <= 32
  {
    v >> (32 - w)
  }

  function LowBits(v: bv32, w: bv6): bv32
    requires 1 <= w <= 32
  {
    v & ((0xFFFF_FFFF as bv32) >> (32 - w))
  }

  /** std::rotl and std::rotr. */
  function RotL(v: bv32, n: bv5): bv32 {
    (v << n) | (v >> (0 - n))
  }

  function RotR(v: bv32, n: bv5): bv32 {
    (v >> n) | (v << (0 - n))
  }

  /** Bit i of a register, counted from the left. */
  predicate RingBit(v: bv32, i: bv5) {
    (v >> (31 - i)) & 1 == 1
  }

  /** Indices of the ring, named so that a proof can leave their arithmetic aside. */
  function Plus(i: bv5, n: bv5): bv5 { i + n }

  function Minus(i: bv5, n: bv5): bv5 { i - n }

  lemma PlusMinus(i: bv5, n: bv5)
    ensures Plus(Minus(i, n), n) == i
    ensures Minus(Plus(i, n), n) == i
  {}

  /** Is bit i among the first w? */
  predicate Among(i: bv5, w: bv6) { i as bv6 < w }

  /** 32 - w: how far a field is moved between the left end and the right end. */
  function Gap(w: bv6): bv5
    requires 1 <= w <= 32
  {
    (32 - w) as bv5
  }

  /** Does bit i of the ring lie in the field of w bits from offset o on? */
  predicate InField(i: bv5, o: bv5, w: bv6) {
    Among(Minus(i, o), w)
  }

  /** Word arithmetic and bit-wise operators, named for the same reason. */
  function Add(x: bv32, y: bv32): bv32 { x + y }

  function Sub(x: bv32, y: bv32): bv32 { x - y }

  function Word(k: bv6): bv32 { k as bv32 }

  function Xor(x: bv32, y: bv32): bv32 { x ^ y }

  function Or(x: bv32, y: bv32): bv32 { x | y }

  function And(x: bv32, y: bv32): bv32 { x & y }

  function Invert(x: bv32): bv32 { !x }

  function Clear(x: bv32, mask: bv32): bv32 { And(x, Invert(mask)) }

  // ---- Single operations, bit by bit ----

  lemma RotatedLeftBit(v: bv32, n: bv5, i: bv5)
    ensures RingBit((v << n) | (v >> (0 - n)), i) == RingBit(v, i + n)
  {
    BitFacts.RotateLeft(v, n, i);
  }

  lemma RotatedRightBit(v: bv32, n: bv5, i: bv5)
    ensures RingBit((v >> n) | (v << (0 - n)), i) == RingBit(v, i - n)
  {
    BitFacts.RotateRight(v, n, i);
  }

  lemma RotLBit(v: bv32, n: bv5, i: bv5)
    ensures RingBit(RotL(v, n), i) == RingBit(v, Plus(i, n))
  {
    hide RingBit;
    RotatedLeftBit(v, n, i);
  }

  lemma RotRBit(v: bv32, n: bv5, i: bv5)
    ensures RingBit(RotR(v, n), i) == RingBit(v, Minus(i, n))
  {
    hide RingBit;
    RotatedRightBit(v, n, i);
  }

  lemma LeftOnesBit(w: bv6, i: bv5)
    requires 1 <= w <= 32
    ensures RingBit((0xFFFF_FFFF as bv32) << (32 - w), i) <==> i as bv6 < w
  {
    BitFacts.LeftOnes(w, i);
  }

  lemma OnesBit(w: bv6, i: bv5)
    requires 1 <= w <= 32
    ensures RingBit(Ones(w), i) <==> Among(i, w)
  {
    hide RingBit;
    LeftOnesBit(w, i);
  }

  lemma ShlBit(v: bv32, w: bv6, i: bv5)
    requires 1 <= w <= 32
    ensures RingBit(v << (32 - w), i) <==> i as bv6 < w && RingBit(v, i + ((32 - w) as bv5))
  {
    BitFacts.ShiftLeft(v, w, i);
  }

  lemma AlignedBit(v: bv32, w: bv6, i: bv5)
    requires 1 <= w <= 32
    ensures RingBit(Aligned(v, w), i) <==> Among(i, w) && RingBit(v, Plus(i, Gap(w)))
  {
    hide RingBit;
    ShlBit(v, w, i);
  }

  lemma LowerLeftBit(x: bv32, w: bv6, i: bv5)
    requires 1 <= w <= 32
    ensures RingBit(x >> (32 - w), i) <==> i >= (32 - w) as bv5 && RingBit(x, i - ((32 - w) as bv5))
  {
    BitFacts.LowerLeft(x, w, i);
  }

  lemma LoweredBit(x: bv32, w: bv6, i: bv5)
    requires 1 <= w <= 32
    ensures RingBit(Lowered(x, w), i) <==> i >= Gap(w) && RingBit(x, Minus(i, Gap(w)))
  {
    hide RingBit;
    LowerLeftBit(x, w, i);
  }

  lemma XorBit(x: bv32, y: bv32, i: bv5)
    ensures RingBit(Xor(x, y), i) == (RingBit(x, i) != RingBit(y, i))
  {}

  lemma AndBit(x: bv32, y: bv32, i: bv5)
    ensures RingBit(And(x, y), i) == (RingBit(x, i) && RingBit(y, i))
  {}

  lemma OrBit(x: bv32, y: bv32, i: bv5)
    ensures RingBit(Or(x, y), i) == (RingBit(x, i) || RingBit(y, i))
  {}

  lemma NotBit(x: bv32, i: bv5)
    ensures RingBit(Invert(x), i) == !RingBit(x, i)
  {}

  lemma ClearBit(x: bv32, mask: bv32, i: bv5)
    ensures RingBit(Clear(x, mask), i) == (RingBit(x, i) && !RingBit(mask, i))
  {
    hide RingBit, And, Invert;
    AndBit(x, Invert(mask), i);
    NotBit(mask, i);
  }

  /** The mask of a field: w ones turned into place. */
  lemma FieldMaskBit(o: bv5, w: bv6, i: bv5)
    requires 1 <= w <= 32
    ensures RingBit(RotR(Ones(w), o), i) <==> InField(i, o, w)
  {
    hide RotR, Ones, RingBit, Minus, Among;
    RotRBit(Ones(w), o, i);
    OnesBit(w, Minus(i, o));
  }

  lemma AddThenSub(x: bv32, y: bv32)
    ensures Sub(x + y, x) == y
  {}

  lemma AddIs(x: bv32, y: bv32)
    ensures Add(x, y) == x + y
  {}

  lemma AddCancels(x: bv32, y: bv32, z: bv32)
    ensures Add(x, y) == Add(x, z) <==> y == z
  {
    hide Add, Sub;
    AddIs(x, y);
    AddIs(x, z);
    AddThenSub(x, y);
    AddThenSub(x, z);
  }

  // ---- Turning right and left again ----

  lemma TurnBack(x: bv32, n: bv5)
    ensures RotL(RotR(x, n), n) == x
  {
    if n != 0 {
      assert (0 - n) as bv6 == 32 - (n as bv6);
      BitFacts.TurnBack(x, n as bv6);
    }
  }

  // ---- Counting leading zeros ----

  predicate BitAt(x: bv32, i: bv6) {
    i < 32 && RingBit(x, i as bv5)
  }

  /** std::countl_zero, from bit i on. */
  function CountLZero(x: bv32, i: bv6): (k: bv6)
    requires i <= 32
    decreases 32 - i
  {
    if i == 32 then 32 else if BitAt(x, i) then i else CountLZero(x, i + 1)
  }

  predicate ZeroFrom(x: bv32, i: bv6)
    requires i <= 32
  {
    x << i == 0
  }

  lemma ZeroStep(x: bv32, i: bv6)
    requires i < 32
    ensures ZeroFrom(x, i) <==> !BitAt(x, i) && ZeroFrom(x, i + 1)
  {
    BitFacts.ShiftsOut(x, i);
  }

  lemma ZeroEnd(x: bv32)
    ensures ZeroFrom(x, 32)
    ensures ZeroFrom(x, 0) <==> x == 0
  {}

  /** The count is the index of the first one, or 32 when there is none. */
  lemma {:induction false} CountLZeroFirst(x: bv32, i: bv6)
    requires i <= 32
    ensures var k := CountLZero(x, i);
            && i <= k <= 32
            && (k == 32 <==> ZeroFrom(x, i))
            && (k < 32 ==> BitAt(x, k))
            && (forall j: bv6 :: i <= j < k ==> !BitAt(x, j))
    decreases 32 - i
  {
    hide BitAt, ZeroFrom;
    if i == 32 {
      ZeroEnd(x);
    } else {
      ZeroStep(x, i);
      CountLZeroFirst(x, i + 1);
    }
  }

  lemma NoOnes(i: bv5)
    ensures !RingBit(0, i)
  {}

  /** A word is zero just when none of its bits is one. */
  lemma ZeroBits(x: bv32)
    ensures x == 0 <==> forall i: bv5 :: !RingBit(x, i)
  {
    var k := CountLZero(x, 0);
    CountLZeroFirst(x, 0);
    ZeroEnd(x);
    if x == 0 {
      forall i: bv5 ensures !RingBit(x, i) { NoOnes(i); }
    } else {
      assert RingBit(x, k as bv5);
    }
  }

  lemma XorZero(x: bv32, y: bv32)
    ensures Xor(x, y) == 0 <==> x == y
  {}

  /** The bits determine the word. */
  lemma SameBits(x: bv32, y: bv32)
    requires forall i: bv5 :: RingBit(x, i) == RingBit(y, i)
    ensures x == y
  {
    hide RingBit, Xor;
    ZeroBits(Xor(x, y));
    XorZero(x, y);
    forall i: bv5 ensures !RingBit(Xor(x, y), i) { XorBit(x, y, i); }
  }
}
