/**
 Shifts and rotations of 8, 16 and 32 bits.  The reference is one step of the instruction,
 repeated count times; the source computes all of them at once with shifts of a C int.
 */
module Shifts {
  import opened Powers

  /** Carry (or X) and value. */
  datatype Cell = Cell(carry: bool, v: nat)

  datatype Kind = Lsl | Lsr | Asr | Rol | Ror | Roxl | Roxr

  /** 2^(n-1): the sign bit. */
  function Top(n: nat): nat
    requires n > 0
  {
    Pow2(n - 1)
  }

  /** One bit to the left, with b coming in. */
  function Left(n: nat, v: nat, b: bool): Cell
    requires n > 0
  {
    if v >= Top(n) then Cell(true, 2 * (v - Top(n)) + Num(b)) else Cell(false, 2 * v + Num(b))
  }

  /** One bit to the right, with b coming in. */
  function Right(n: nat, v: nat, b: bool): Cell
    requires n > 0
  {
    Cell(v % 2 == 1, v / 2 + (if b then Top(n) else 0))
  }

  /** One step of each instruction. */
  function Step(kind: Kind, n: nat, r: Cell): Cell
    requires n > 0
  {
    match kind
    case Lsl => Left(n, r.v, false)
    case Lsr => Right(n, r.v, false)
    case Asr => Right(n, r.v, r.v >= Top(n))
    case Rol => Left(n, r.v, r.v >= Top(n))
    case Ror => Right(n, r.v, r.v % 2 == 1)
    case Roxl => Left(n, r.v, r.carry)
    case Roxr => Right(n, r.v, r.carry)
  }

  function Times(kind: Kind, n: nat, r: Cell, c: nat): Cell
    requires n > 0
    decreases c
  {
    if c == 0 then r else Times(kind, n, Step(kind, n, r), c - 1)
  }

  lemma {:induction false} TimesSum(kind: Kind, n: nat, r: Cell, c: nat, k: nat)
    requires n > 0
    ensures Times(kind, n, Times(kind, n, r, c), k) == Times(kind, n, r, c + k)
    decreases c
  {
    if c > 0 {
      TimesSum(kind, n, Step(kind, n, r), c - 1, k);
    }
  }

  predicate InRange(n: nat, v: nat) { v < Pow2(n) }

  lemma StepInRange(kind: Kind, n: nat, r: Cell)
    requires n > 0 && InRange(n, r.v)
    ensures InRange(n, Step(kind, n, r).v)
  {
    assert Pow2(n) == 2 * Top(n);
  }

  // ---- The C operators ----

  /** static_cast<uintN_t>(x). */
  function Trunc(n: nat, x: int): nat { x % Pow2(n) }

  function Shl(x: int, c: nat): int { x * Pow2(c) }

  function Shr(x: int, c: nat): int { x / Pow2(c) }

  /** The same for natural numbers. */
  function Up(v: nat, c: nat): nat { Prod(v, Pow2(c)) }

  function Down(v: nat, c: nat): nat { Quot(v, Pow2(c)) }

  predicate Bit(x: int, k: nat) { x / Pow2(k) % 2 == 1 }

  /** The value as an intN_t. */
  function Signed(n: nat, v: nat): int
    requires n > 0
  {
    if v >= Top(n) then v - Pow2(n) else v
  }

  // ---- Shifting left ----

  /** A number below p * d in two digits. */
  lemma SplitDigits(v: nat, p: nat, d: nat)
    requires d > 0 && v < p * d
    ensures v == v / d * d + v % d && 0 <= v / d < p && 0 <= v % d < d
  {
    DivMod(v, d);
    if v / d >= p {
      MulSub(v / d, p, d);
      MulNat(v / d - p, d);
    }
  }

  /** A number of n bits split after the first c of them. */
  lemma SplitBits(n: nat, v: nat, c: nat)
    requires InRange(n, v) && c <= n
    ensures var hi, lo := v / Pow2(n - c), v % Pow2(n - c);
            v == hi * Pow2(n - c) + lo && 0 <= hi < Pow2(c) && 0 <= lo < Pow2(n - c)
  {
    Pow2Sum(c, n - c);
    SplitDigits(v, Pow2(c), Pow2(n - c));
  }

  lemma FirstDigit(d: nat, p: nat, hi: nat, lo: nat, hi': nat)
    requires d > 0 && p > 0 && hi < 2 * p && lo < d
    requires hi' == if hi >= p then hi - p else hi
    ensures var v := hi * d + lo;
            && (v >= p * d <==> hi >= p)
            && (if hi >= p then v - p * d else v) == hi' * d + lo
            && 2 * (hi' * d + lo) == hi' * (2 * d) + 2 * lo
  {
    MulSub(hi, p, d);
    TwoDigits(d, p, lo, hi');
    if hi >= p {
      MulNat(hi', d);
    }
    MulMul(hi', d, 2);
  }

  lemma FirstUp(n: nat, c: nat, hi: nat, lo: nat, hi': nat)
    requires 0 < c <= n && hi < Pow2(c) && lo < Pow2(n - c)
    requires hi' == if hi >= Pow2(c - 1) then hi - Pow2(c - 1) else hi
    ensures Up(hi, n - c) + lo >= Top(n) <==> hi >= Pow2(c - 1)
    ensures (if hi >= Pow2(c - 1) then Up(hi, n - c) + lo - Top(n) else Up(hi, n - c) + lo) == Up(hi', n - c) + lo
    ensures 2 * (Up(hi', n - c) + lo) == Up(hi', n - (c - 1)) + 2 * lo
  {
    Pow2Sum(c - 1, n - c);
    DoublePow2(n - c + 1);
    DoublePow2(c);
    hide Pow2;
    FirstDigit(Pow2(n - c), Pow2(c - 1), hi, lo, hi');
  }

  lemma DoublePow2(c: nat)
    requires c > 0
    ensures Pow2(c) == 2 * Pow2(c - 1)
  {}

  /** The first bit of the first c goes out, and b joins the rest. */
  lemma FirstBit(n: nat, c: nat, hi: nat, lo: nat, b: bool)
    requires 0 < c <= n && hi < Pow2(c) && lo < Pow2(n - c)
    ensures var t := hi >= Pow2(c - 1);
            var hi', lo' := if t then hi - Pow2(c - 1) else hi, 2 * lo + Num(b);
            && Left(n, Up(hi, n - c) + lo, b) == Cell(t, Up(hi', n - (c - 1)) + lo')
            && hi' < Pow2(c - 1) && lo' < Pow2(n - (c - 1))
            && (if c == 1 then t <==> hi == 1 else hi % 2 == hi' % 2)
  {
    var p := Pow2(c - 1);
    var hi' := if hi >= p then hi - p else hi;
    FirstUp(n, c, hi, lo, hi');
    DoublePow2(n - c + 1);
    DoublePow2(c);
    if c > 1 {
      DoublePow2(c - 1);
    } else {
      assert Pow2(0) == 1;
    }
    hide Pow2, Up;
  }

  lemma UpTwice(lo: nat, c: nat)
    requires c > 0
    ensures Up(2 * lo, c - 1) == Up(lo, c)
  {
    DoublePow2(c);
    MulMul(lo, 2, Pow2(c - 1));
    hide Pow2;
  }

  lemma UpNone(v: nat)
    ensures Up(v, 0) == v
  {}

  /** After c steps the low n - c bits have moved to the left and the rest have gone. */
  lemma {:induction false} LslSplit(n: nat, x: bool, hi: nat, lo: nat, c: nat)
    requires 0 < c <= n && hi < Pow2(c) && lo < Pow2(n - c)
    ensures Times(Lsl, n, Cell(x, Up(hi, n - c) + lo), c) == Cell(hi % 2 == 1, Up(lo, c))
    decreases c
  {
    FirstBit(n, c, hi, lo, false);
    var p := Pow2(c - 1);
    var hi' := if hi >= p then hi - p else hi;
    UpTwice(lo, c);
    if c > 1 {
      LslSplit(n, hi >= p, hi', 2 * lo, c - 1);
    } else {
      FirstOfOne(hi');
      UpNone(2 * lo);
    }
    hide Pow2, Up, Left;
  }

  lemma FirstOfOne(hi: nat)
    requires hi < Pow2(0)
    ensures hi == 0
    ensures forall n: nat :: Up(hi, n) == 0
  {}

  lemma {:induction false} LslZero(n: nat, x: bool, c: nat)
    requires n > 0 && c > 0
    ensures Times(Lsl, n, Cell(x, 0), c) == Cell(false, 0)
    decreases c
  {
    assert Step(Lsl, n, Cell(x, 0)) == Cell(false, 0);
    if c > 1 {
      LslZero(n, false, c - 1);
    }
  }

  /** v << c in terms of the two parts of v. */
  lemma ShiftedParts(n: nat, v: nat, c: nat)
    requires 0 < c <= n && InRange(n, v)
    ensures Trunc(n, Shl(v, c)) == v % Pow2(n - c) * Pow2(c)
    ensures Shl(v, c - 1) / Pow2(n - 1) == v / Pow2(n - c)
  {
    Pow2Sum(n - c, c);
    Pow2Sum(n - c, c - 1);
    ScaledMod(v, Pow2(n - c), Pow2(c));
    ScaledMod(v, Pow2(n - c), Pow2(c - 1));
  }

  /** Beyond the width nothing is left. */
  lemma ShiftedOut(n: nat, v: int, c: nat)
    requires 0 < n < c
    ensures Trunc(n, Shl(v, c)) == 0 && !Bit(Shl(v, c - 1), n - 1)
  {
    var e := Pow2(c - n - 1);
    Pow2Sum(c - n, n);
    MulMul(v, Pow2(c - n), Pow2(n));
    ModAdds(0, v * Pow2(c - n), Pow2(n));
    Pow2Sum(c - n, n - 1);
    MulMul(v, Pow2(c - n), Pow2(n - 1));
    ModAdds(0, v * Pow2(c - n), Pow2(n - 1));
    assert Pow2(c - n) == 2 * e;
    MulMul(v, e, 2);
  }

  /** LSL, and the value and carry of ASL: the two shifts of the source. */
  lemma LslClosed(n: nat, x: bool, v: nat, c: nat)
    requires n > 0 && c > 0 && InRange(n, v)
    ensures Times(Lsl, n, Cell(x, v), c) == Cell(Bit(Shl(v, c - 1), n - 1), Trunc(n, Shl(v, c)))
  {
    var k := if c <= n then c else n;
    SplitBits(n, v, k);
    LslSplit(n, x, v / Pow2(n - k), v % Pow2(n - k), k);
    assert Up(v / Pow2(n - k), n - k) + v % Pow2(n - k) == v;
    ShiftedParts(n, v, k);
    if c > n {
      assert Pow2(n - n) == 1;
      ShiftedOut(n, v, c);
      TimesSum(Lsl, n, Cell(x, v), n, c - n);
      LslZero(n, Times(Lsl, n, Cell(x, v), n).carry, c - n);
    }
  }

  // ---- Shifting right ----

  lemma ShrStep(x: int, c: nat)
    requires c > 0
    ensures Shr(x / 2, c - 1) == Shr(x, c)
    ensures c > 1 ==> Bit(x / 2, c - 2) == Bit(x, c - 1)
  {
    DivDiv(x, 2, Pow2(c - 1));
    if c > 1 {
      DivDiv(x, 2, Pow2(c - 2));
    }
  }

  lemma {:induction false} LsrClosed(n: nat, x: bool, v: nat, c: nat)
    requires n > 0 && c > 0
    ensures Shr(v, c) >= 0
    ensures Times(Lsr, n, Cell(x, v), c) == Cell(Bit(v, c - 1), Shr(v, c))
    decreases c
  {
    ShrStep(v, c);
    assert Pow2(0) == 1;
    if c > 1 {
      LsrClosed(n, v % 2 == 1, v / 2, c - 1);
    } else {
      assert Times(Lsr, n, Cell(x, v), 1) == Times(Lsr, n, Step(Lsr, n, Cell(x, v)), 0);
    }
  }

  lemma SignedBack(n: nat, v: nat)
    requires n > 0 && InRange(n, v)
    ensures Trunc(n, Signed(n, v)) == v
    ensures 0 <= Signed(n, v) + Top(n) && Signed(n, v) < Top(n)
  {
    if v >= Top(n) {
      ModAdds(v, -1, Pow2(n));
    }
    Divides(v, Pow2(n), 0, v);
  }

  /** Halving with the sign bit kept is halving the signed number, rounding down. */
  lemma AsrStep(n: nat, v: nat)
    requires n > 0 && InRange(n, v)
    ensures var r := Right(n, v, v >= Top(n));
            InRange(n, r.v) && Signed(n, r.v) == Signed(n, v) / 2 && r.carry == (Signed(n, v) % 2 == 1)
  {
    if n > 1 {
      assert Top(n) == 2 * Pow2(n - 2);
    }
  }

  lemma {:induction false} AsrClosed(n: nat, x: bool, v: nat, c: nat)
    requires n > 0 && c > 0 && InRange(n, v)
    ensures Times(Asr, n, Cell(x, v), c) == Cell(Bit(Signed(n, v), c - 1), Trunc(n, Shr(Signed(n, v), c)))
    decreases c
  {
    var s := Signed(n, v);
    ShrStep(s, c);
    AsrStep(n, v);
    var r := Right(n, v, v >= Top(n));
    assert Pow2(0) == 1;
    if c > 1 {
      AsrClosed(n, r.carry, r.v, c - 1);
    } else {
      SignedBack(n, r.v);
      assert Times(Asr, n, Cell(x, v), 1) == Times(Asr, n, Step(Asr, n, Cell(x, v)), 0);
    }
  }

  /** A number of n bits shifted right by at least its width: only the sign is left. */
  lemma ShrFar(n: nat, s: int, c: nat)
    requires n <= c && 0 <= s + Pow2(n) && s < Pow2(n)
    ensures Shr(s, c) == if s < 0 then -1 else 0
    ensures Bit(s, c) == (s < 0)
  {
    Pow2Grows(n, c);
    if s < 0 {
      Divides(s, Pow2(c), -1, s + Pow2(c));
    } else {
      Divides(s, Pow2(c), 0, s);
    }
  }

  // ---- The overflow of ASL ----

  /** Does the sign bit change in any of c steps? */
  predicate SignChanges(n: nat, v: nat, c: nat)
    requires n > 0
    decreases c
  {
    c > 0 && ((v >= Top(n)) != (Left(n, v, false).v >= Top(n)) || SignChanges(n, Left(n, v, false).v, c - 1))
  }

  /** Can x be written in n bits with sign? */
  predicate Fits(n: nat, x: int)
    requires n > 0
  {
    0 <= x + Top(n) && x < Top(n)
  }

  /** Doubling keeps the sign bit just when the double still fits. */
  lemma Doubles(n: nat, v: nat)
    requires n > 0 && InRange(n, v)
    ensures var d := Left(n, v, false).v;
            && InRange(n, d)
            && (Fits(n, 2 * Signed(n, v)) <==> (v >= Top(n)) == (d >= Top(n)))
            && (Fits(n, 2 * Signed(n, v)) ==> Signed(n, d) == 2 * Signed(n, v))
  {
    if n > 1 {
      assert Top(n) == 2 * Pow2(n - 2);
    }
  }

  /** What does not fit fits even less when doubled. */
  lemma {:induction false} StaysOut(n: nat, x: int, c: nat)
    requires n > 0 && !Fits(n, x)
    ensures !Fits(n, Shl(x, c))
    decreases c
  {
    if c > 0 {
      StaysOut(n, 2 * x, c - 1);
      MulMul(x, 2, Pow2(c - 1));
    }
  }

  /** The sign bit changes just when the shifted number does not fit. */
  lemma {:induction false} SignChangesIff(n: nat, v: nat, c: nat)
    requires n > 0 && InRange(n, v)
    ensures SignChanges(n, v, c) <==> !Fits(n, Shl(Signed(n, v), c))
    decreases c
  {
    var s := Signed(n, v);
    Doubles(n, v);
    if c == 0 {
      SignedBack(n, v);
    } else {
      MulMul(s, 2, Pow2(c - 1));
      assert Shl(s, c) == Shl(2 * s, c - 1);
      if Fits(n, 2 * s) {
        SignChangesIff(n, Left(n, v, false).v, c - 1);
      } else {
        StaysOut(n, 2 * s, c - 1);
      }
    }
  }

  /** The test of the source: the bits shifted out and the new sign bit, all alike. */
  predicate AslV(n: nat, v: nat, c: nat)
    requires n > 0
  {
    var s := Signed(n, v);
    var so := if c > n - 1 then s else Shr(s, n - 1 - c);
    so != (if s < 0 then -1 else 0)
  }

  lemma FitsShifted(n: nat, s: int, c: nat)
    requires n > 0 && c <= n - 1 && Fits(n, s)
    ensures Shr(s, n - 1 - c) == (if s < 0 then -1 else 0) <==> Fits(n, Shl(s, c))
  {
    var d: int, e: int := Pow2(n - 1 - c), Pow2(c);
    Pow2Sum(n - 1 - c, c);
    hide Pow2;
    SmallQuotient(s, d);
    Compare(s, d, e);
    Compare(s, 0 - d, e);
    MulSub(0, d, e);
    MulNat(d, e);
    if s < 0 {
      Compare(s, 0, e);
    } else {
      MulNat(s, e);
    }
  }

  lemma FitsFar(n: nat, s: int, c: nat)
    requires 0 < n <= c
    ensures Fits(n, Shl(s, c)) <==> s == 0
  {
    Pow2Grows(n, c);
    if s > 0 {
      AtLeast(s, Pow2(c));
    } else if s < 0 {
      AtLeast(-s, Pow2(c));
      MulSub(0, s, Pow2(c));
    }
  }

  /**
   The source's V is the 68040's, that the sign bit changes at any time during the shift, if
   and only if the value is not -1 or the count is below the width.
   */
  lemma AslVIff(n: nat, v: nat, c: nat)
    requires n > 0 && InRange(n, v)
    ensures AslV(n, v, c) == SignChanges(n, v, c) <==> !(Signed(n, v) == -1 && c >= n)
  {
    var s := Signed(n, v);
    SignChangesIff(n, v, c);
    SignedBack(n, v);
    if c >= n {
      FitsFar(n, s, c);
    } else {
      FitsShifted(n, s, c);
    }
  }
}
