/**
 Rotations as rings: ROL and ROR turn n bits, ROXL and ROXR turn n + 1 bits, of which X is
 the leftmost.
 */
module Rotations {
  import opened Powers
  import opened Shifts

  lemma Carried(lo: nat, t: bool, c: nat)
    requires c > 0
    ensures Up(2 * lo + Num(t), c - 1) == Up(lo, c) + (if t then Pow2(c - 1) else 0)
  {
    DoublePow2(c);
    MulMul(lo, 2, Pow2(c - 1));
    MulAdd(2 * lo, Num(t), Pow2(c - 1));
    hide Pow2;
  }

  /** Turning by c exchanges the first c bits and the rest; the last bit out is the last in. */
  lemma {:induction false} RolSplit(n: nat, x: bool, hi: nat, lo: nat, c: nat)
    requires 0 < c <= n && hi < Pow2(c) && lo < Pow2(n - c)
    ensures Times(Rol, n, Cell(x, Up(hi, n - c) + lo), c) == Cell(hi % 2 == 1, Up(lo, c) + hi)
    decreases c
  {
    var p := Pow2(c - 1);
    var t := hi >= p;
    var hi' := if t then hi - p else hi;
    RolStep(n, c, hi, lo, x);
    Carried(lo, t, c);
    if c > 1 {
      RolSplit(n, t, hi', 2 * lo + Num(t), c - 1);
    } else {
      FirstOfOne(hi');
      UpNone(2 * lo + Num(t));
      RolOnce(n, Cell(x, Up(hi, n - c) + lo));
    }
    hide Pow2, Up, Step;
  }

  lemma RolOnce(n: nat, r: Cell)
    requires n > 0
    ensures Times(Rol, n, r, 1) == Step(Rol, n, r)
  {
    assert Times(Rol, n, r, 1) == Times(Rol, n, Step(Rol, n, r), 0);
  }

  lemma RolStep(n: nat, c: nat, hi: nat, lo: nat, x: bool)
    requires 0 < c <= n && hi < Pow2(c) && lo < Pow2(n - c)
    ensures var t := hi >= Pow2(c - 1);
            var hi', lo' := if t then hi - Pow2(c - 1) else hi, 2 * lo + Num(t);
            && Step(Rol, n, Cell(x, Up(hi, n - c) + lo)) == Cell(t, Up(hi', n - (c - 1)) + lo')
            && hi' < Pow2(c - 1) && lo' < Pow2(n - (c - 1))
            && (if c == 1 then t <==> hi == 1 else hi % 2 == hi' % 2)
  {
    var t := hi >= Pow2(c - 1);
    var hi' := if t then hi - Pow2(c - 1) else hi;
    FirstUp(n, c, hi, lo, hi');
    FirstBit(n, c, hi, lo, t);
    hide Pow2, Up;
  }

  /** The ring turned left by c <= n, as the source computes it: v << c | v >> (n - c). */
  lemma RolClosed(n: nat, x: bool, v: nat, c: nat)
    requires 0 < c <= n && InRange(n, v)
    ensures Shr(v, n - c) >= 0
    ensures Times(Rol, n, Cell(x, v), c) == Cell(Bit(v, n - c), Trunc(n, Shl(v, c)) + Shr(v, n - c))
  {
    SplitBits(n, v, c);
    RolSplit(n, x, v / Pow2(n - c), v % Pow2(n - c), c);
    assert Up(v / Pow2(n - c), n - c) + v % Pow2(n - c) == v;
    ShiftedParts(n, v, c);
  }

  /** A full turn changes nothing. */
  lemma FullTurn(n: nat, x: bool, v: nat)
    requires n > 0 && InRange(n, v)
    ensures Times(Rol, n, Cell(x, v), n).v == v
  {
    assert Pow2(n - n) == 1;
    RolClosed(n, x, v, n);
    ModAdds(0, v, Pow2(n));
  }

  lemma {:induction false} TimesInRange(kind: Kind, n: nat, r: Cell, c: nat)
    requires n > 0 && InRange(n, r.v)
    ensures InRange(n, Times(kind, n, r, c).v)
    decreases c
  {
    if c > 0 {
      StepInRange(kind, n, r);
      TimesInRange(kind, n, Step(kind, n, r), c - 1);
    }
  }

  /** The count matters modulo the size of the ring, and what went in before does not. */
  lemma {:induction false} RolModulo(n: nat, x: bool, y: bool, v: nat, c: nat)
    requires n > 0 && InRange(n, v)
    ensures Times(Rol, n, Cell(x, v), c).v == Times(Rol, n, Cell(y, v), c % n).v
    decreases c
  {
    if c >= n {
      FullTurn(n, x, v);
      TimesSum(Rol, n, Cell(x, v), n, c - n);
      RolModulo(n, Times(Rol, n, Cell(x, v), n).carry, y, v, c - n);
      assert c % n == (c - n) % n by { ModAdds(c - n, 1, n); }
    } else {
      Divides(c, n, 0, c);
      if c > 0 {
        assert Step(Rol, n, Cell(x, v)) == Step(Rol, n, Cell(y, v));
      }
    }
  }

  /** After at least one turn the carry is the bit that came in last. */
  lemma {:induction false} RolCarry(n: nat, r: Cell, c: nat)
    requires n > 0 && c > 0
    ensures Times(Rol, n, r, c).carry == (Times(Rol, n, r, c).v % 2 == 1)
    decreases c
  {
    if c > 1 {
      RolCarry(n, Step(Rol, n, r), c - 1);
    } else {
      assert Times(Rol, n, r, 1) == Times(Rol, n, Step(Rol, n, r), 0);
    }
  }

  // ---- To the right ----

  /** A turn to the right takes back a turn to the left. */
  lemma StepBack(n: nat, x: bool, y: bool, v: nat)
    requires n > 0 && InRange(n, v)
    ensures Step(Ror, n, Cell(x, Step(Rol, n, Cell(y, v)).v)).v == v
  {}

  lemma {:induction false} TimesLast(kind: Kind, n: nat, r: Cell, c: nat)
    requires n > 0 && c > 0
    ensures Times(kind, n, r, c) == Step(kind, n, Times(kind, n, r, c - 1))
  {
    TimesSum(kind, n, r, c - 1, 1);
    assert Times(kind, n, Times(kind, n, r, c - 1), 1)
        == Times(kind, n, Step(kind, n, Times(kind, n, r, c - 1)), 0);
  }

  /** c turns to the right take back c turns to the left. */
  lemma {:induction false} TurnsBack(n: nat, x: bool, y: bool, v: nat, c: nat)
    requires n > 0 && InRange(n, v)
    ensures Times(Ror, n, Cell(x, Times(Rol, n, Cell(y, v), c).v), c).v == v
    decreases c
  {
    if c > 0 {
      var r := Times(Rol, n, Cell(y, v), c - 1);
      TimesLast(Rol, n, Cell(y, v), c);
      TimesInRange(Rol, n, Cell(y, v), c - 1);
      StepBack(n, x, r.carry, r.v);
      var b := Step(Ror, n, Cell(x, Step(Rol, n, r).v));
      TurnsBack(n, b.carry, y, v, c - 1);
    }
  }

  /** Turning right by c is turning left by n - c. */
  lemma RorIsRol(n: nat, x: bool, v: nat, c: nat)
    requires n > 0 && c <= n && InRange(n, v)
    ensures Times(Ror, n, Cell(x, v), c).v == Times(Rol, n, Cell(false, v), n - c).v
  {
    var r := Times(Rol, n, Cell(false, v), n - c);
    FullTurn(n, false, v);
    TimesSum(Rol, n, Cell(false, v), n - c, c);
    TimesInRange(Rol, n, Cell(false, v), n - c);
    TurnsBack(n, x, r.carry, r.v, c);
  }

  lemma {:induction false} RorModulo(n: nat, x: bool, y: bool, v: nat, c: nat)
    requires n > 0 && InRange(n, v)
    ensures Times(Ror, n, Cell(x, v), c).v == Times(Ror, n, Cell(y, v), c % n).v
    decreases c
  {
    if c >= n {
      RorIsRol(n, x, v, n);
      TimesSum(Ror, n, Cell(x, v), n, c - n);
      RorModulo(n, Times(Ror, n, Cell(x, v), n).carry, y, v, c - n);
      assert c % n == (c - n) % n by { ModAdds(c - n, 1, n); }
    } else {
      Divides(c, n, 0, c);
      if c > 0 {
        assert Step(Ror, n, Cell(x, v)) == Step(Ror, n, Cell(y, v));
      }
    }
  }

  /** After at least one turn to the right the carry is the top bit. */
  lemma RorCarry(n: nat, r: Cell, c: nat)
    requires n > 0 && c > 0 && InRange(n, r.v)
    ensures Times(Ror, n, r, c).carry == (Times(Ror, n, r, c).v >= Top(n))
  {
    TimesLast(Ror, n, r, c);
    TimesInRange(Ror, n, r, c - 1);
    var q := Times(Ror, n, r, c - 1);
    assert q.v / 2 < Top(n);
  }

  // ---- Through X ----

  /** X and the value as one ring of n + 1 bits. */
  function Ring(n: nat, r: Cell): nat { Num(r.carry) * Pow2(n) + r.v }

  lemma RingStep(n: nat, x: bool, r: Cell)
    requires n > 0 && InRange(n, r.v)
    ensures InRange(n + 1, Ring(n, r))
    ensures Ring(n, Step(Roxl, n, r)) == Step(Rol, n + 1, Cell(x, Ring(n, r))).v
    ensures Step(Roxr, n, Step(Roxl, n, r)) == r
  {}

  lemma {:induction false} RoxlRing(n: nat, x: bool, r: Cell, c: nat)
    requires n > 0 && InRange(n, r.v)
    ensures InRange(n + 1, Ring(n, r))
    ensures Ring(n, Times(Roxl, n, r, c)) == Times(Rol, n + 1, Cell(x, Ring(n, r)), c).v
    decreases c
  {
    RingStep(n, x, r);
    if c > 0 {
      StepInRange(Roxl, n, r);
      RoxlRing(n, Step(Rol, n + 1, Cell(x, Ring(n, r))).carry, Step(Roxl, n, r), c - 1);
    }
  }

  lemma SameRing(n: nat, r: Cell, q: Cell)
    requires InRange(n, r.v) && InRange(n, q.v) && Ring(n, r) == Ring(n, q)
    ensures r == q
  {}

  /** n + 1 turns change neither X nor the value. */
  lemma RoxlFull(n: nat, r: Cell)
    requires n > 0 && InRange(n, r.v)
    ensures Times(Roxl, n, r, n + 1) == r
  {
    RoxlRing(n, false, r, n + 1);
    FullTurn(n + 1, false, Ring(n, r));
    TimesInRange(Roxl, n, r, n + 1);
    SameRing(n, r, Times(Roxl, n, r, n + 1));
  }

  /** Turning right takes back turning left, for any count. */
  lemma {:induction false} RoxrUndoesRoxl(n: nat, r: Cell, c: nat)
    requires n > 0 && InRange(n, r.v)
    ensures Times(Roxr, n, Times(Roxl, n, r, c), c) == r
    decreases c
  {
    if c > 0 {
      var q := Times(Roxl, n, r, c - 1);
      TimesLast(Roxl, n, r, c);
      TimesInRange(Roxl, n, r, c - 1);
      RingStep(n, false, q);
      RoxrUndoesRoxl(n, r, c - 1);
    }
  }

  lemma {:induction false} RoxlModulo(n: nat, r: Cell, c: nat)
    requires n > 0 && InRange(n, r.v)
    ensures Times(Roxl, n, r, c) == Times(Roxl, n, r, c % (n + 1))
    decreases c
  {
    if c > n {
      RoxlFull(n, r);
      TimesSum(Roxl, n, r, n + 1, c - (n + 1));
      RoxlModulo(n, r, c - (n + 1));
      assert c % (n + 1) == (c - (n + 1)) % (n + 1) by { ModAdds(c - (n + 1), 1, n + 1); }
    } else {
      Divides(c, n + 1, 0, c);
    }
  }

  /** Turning right by c <= n + 1 is turning left by n + 1 - c. */
  lemma RoxrIsRoxl(n: nat, r: Cell, c: nat)
    requires n > 0 && c <= n + 1 && InRange(n, r.v)
    ensures Times(Roxr, n, r, c) == Times(Roxl, n, r, n + 1 - c)
  {
    var q := Times(Roxl, n, r, n + 1 - c);
    RoxlFull(n, r);
    TimesSum(Roxl, n, r, n + 1 - c, c);
    TimesInRange(Roxl, n, r, n + 1 - c);
    RoxrUndoesRoxl(n, q, c);
  }

  lemma {:induction false} RoxrModulo(n: nat, r: Cell, c: nat)
    requires n > 0 && InRange(n, r.v)
    ensures Times(Roxr, n, r, c) == Times(Roxr, n, r, c % (n + 1))
    decreases c
  {
    if c > n {
      RoxrIsRoxl(n, r, n + 1);
      TimesSum(Roxr, n, r, n + 1, c - (n + 1));
      RoxrModulo(n, r, c - (n + 1));
      assert c % (n + 1) == (c - (n + 1)) % (n + 1) by { ModAdds(c - (n + 1), 1, n + 1); }
    } else {
      Divides(c, n + 1, 0, c);
    }
  }

  // ---- What the source computes ----

  lemma RingShift(n: nat, x: bool, v: nat, c: nat)
    requires 1 <= c <= n && InRange(n, v)
    ensures Shr(Ring(n, Cell(x, v)), n + 1 - c) == Num(x) * Pow2(c - 1) + Shr(v, n + 1 - c)
  {
    Pow2Sum(c - 1, n + 1 - c);
    MulMul(Num(x), Pow2(c - 1), Pow2(n + 1 - c));
    ModAdds(v, Num(x) * Pow2(c - 1), Pow2(n + 1 - c));
  }

  lemma RingScaled(n: nat, x: bool, v: nat, c: nat)
    requires c >= 1
    ensures Shl(Ring(n, Cell(x, v)), c) == Shl(v, c) + (Num(x) * Pow2(c - 1)) * Pow2(n + 1)
  {
    MulAdd(Num(x) * Pow2(n), v, Pow2(c));
    MulMul(Num(x), Pow2(n), Pow2(c));
    MulMul(Num(x), Pow2(c - 1), Pow2(n + 1));
    Pow2Sum(n, c);
    Pow2Sum(c - 1, n + 1);
    assert n + c == (c - 1) + (n + 1);
    hide Pow2;
  }

  lemma RingTrunc(n: nat, x: bool, v: nat, c: nat)
    requires 1 <= c <= n && InRange(n, v)
    ensures Trunc(n + 1, Shl(Ring(n, Cell(x, v)), c)) == Num(Bit(v, n - c)) * Pow2(n) + Trunc(n, Shl(v, c))
  {
    RingScaled(n, x, v, c);
    ModAdds(Shl(v, c), Num(x) * Pow2(c - 1), Pow2(n + 1));
    ShiftedParts(n + 1, v, c);
    ShiftedParts(n, v, c);
    LowBits(n, v, c);
    Pow2Sum(n - c, c);
    MulAdd(Num(Bit(v, n - c)) * Pow2(n - c), v % Pow2(n - c), Pow2(c));
    MulMul(Num(Bit(v, n - c)), Pow2(n - c), Pow2(c));
    hide Pow2, Bit, Shl, Ring;
  }

  /** The low n + 1 - c bits are bit n - c and the n - c bits below it. */
  lemma LowBits(n: nat, v: nat, c: nat)
    requires c <= n
    ensures v % Pow2(n + 1 - c) == Num(Bit(v, n - c)) * Pow2(n - c) + v % Pow2(n - c)
  {
    var d := Pow2(n - c);
    assert Pow2(n + 1 - c) == 2 * d;
    DivMod(v, d);
    var q := v / d;
    DivMod(q, 2);
    MulAdd(q / 2 * 2, q % 2, d);
    MulMul(q / 2, 2, d);
    Divides(v, 2 * d, q / 2, (q % 2) * d + v % d);
  }

  /** The sum the source's ors amount to. */
  function RoxlSum(n: nat, x: bool, v: nat, c: nat): nat
    requires 1 <= c <= n
  {
    Trunc(n, Up(v, c)) + Up(Num(x), c - 1) + Down(v, n + 1 - c)
  }

  lemma OneOrNone(x: bool, p: nat)
    requires p > 0
    ensures 0 <= Num(x) * p <= p
  {}

  lemma UpperPart(n: nat, v: nat, c: nat)
    requires 1 <= c <= n && InRange(n, v)
    ensures 0 <= v / Pow2(n + 1 - c) < Pow2(c - 1)
  {
    Pow2Sum(c - 1, n + 1 - c);
    SplitDigits(v, Pow2(c - 1), Pow2(n + 1 - c));
  }

  lemma SumBelow(d: nat, e: nat, p: nat, s: nat, b: nat, z: nat)
    requires d == 2 * p && s < e && b <= p && z < p
    ensures s * d + b + z < e * d
  {
    TwoDigits(d, e, b + z, s);
  }

  lemma RoxlSumBound(n: nat, x: bool, v: nat, c: nat)
    requires 1 <= c <= n && InRange(n, v)
    ensures v / Pow2(n + 1 - c) < Pow2(c - 1)
    ensures InRange(n, RoxlSum(n, x, v, c))
  {
    UpperPart(n, v, c);
    OneOrNone(x, Pow2(c - 1));
    DoublePow2(c);
    ShiftedParts(n, v, c);
    Pow2Sum(n - c, c);
    DivMod(v, Pow2(n - c));
    SumBelow(Pow2(c), Pow2(n - c), Pow2(c - 1), v % Pow2(n - c), Num(x) * Pow2(c - 1), v / Pow2(n + 1 - c));
    hide Pow2, Trunc, Shl;
  }

  /** ROXL by 1 to n: one expression for the value, and the last bit out. */
  lemma RoxlClosed(n: nat, x: bool, v: nat, c: nat)
    requires 1 <= c <= n && InRange(n, v)
    ensures Times(Roxl, n, Cell(x, v), c) == Cell(Bit(v, n - c), RoxlSum(n, x, v, c))
  {
    var r := Cell(x, v);
    RoxlRing(n, x, r, c);
    RolClosed(n + 1, x, Ring(n, r), c);
    RingShift(n, x, v, c);
    RingTrunc(n, x, v, c);
    RoxlSumBound(n, x, v, c);
    TimesInRange(Roxl, n, r, c);
    hide Times, Pow2, Trunc, Shl, Shr, Bit;
    SameRing(n, Times(Roxl, n, r, c), Cell(Bit(v, n - c), RoxlSum(n, x, v, c)));
  }

  /** ROXR by 1 to n is ROXL by the rest of the ring. */
  lemma RoxrClosed(n: nat, x: bool, v: nat, c: nat)
    requires 1 <= c <= n && InRange(n, v)
    ensures Times(Roxr, n, Cell(x, v), c) == Cell(Bit(v, c - 1), RoxlSum(n, x, v, n + 1 - c))
  {
    RoxrIsRoxl(n, Cell(x, v), c);
    RoxlClosed(n, x, v, n + 1 - c);
  }

  // ---- The ors of the source ----

  lemma MultipleOf(k: nat, p: nat)
    requires p > 0
    ensures (k * p) % p == 0
  {
    ModAdds(0, k, p);
  }

  lemma JoinMultiple(v: nat, x: bool, p: nat)
    requires p > 0
    ensures (v * (2 * p) + Num(x) * p) % p == 0
  {
    MulMul(v, 2, p);
    MulAdd(2 * v, Num(x), p);
    MultipleOf(2 * v + Num(x), p);
  }

  lemma ThreeParts(n: nat, a: nat, b: nat, z: nat, c: nat)
    requires c > 0 && a % Pow2(c) == 0 && b < Pow2(c) && (a + b) % Pow2(c - 1) == 0 && z < Pow2(c - 1)
    requires InRange(n, Trunc(n, a) + b + z)
    ensures Trunc(n, Or(Or(a, b), z)) == Trunc(n, a) + b + z
  {
    hide Pow2;
    OrApart(a, b, c);
    OrApart(a + b, z, c - 1);
    TruncSum(n, a, b + z);
  }

  lemma UpParts(v: nat, x: bool, c: nat)
    requires c > 0
    ensures Up(v, c) % Pow2(c) == 0 && Up(Num(x), c - 1) < Pow2(c)
    ensures (Up(v, c) + Up(Num(x), c - 1)) % Pow2(c - 1) == 0
  {
    DoublePow2(c);
    OneOrNone(x, Pow2(c - 1));
    MultipleOf(v, Pow2(c));
    JoinMultiple(v, x, Pow2(c - 1));
    hide Pow2;
    assert Up(v, c) == v * (2 * Pow2(c - 1));
  }

  /** v << c | x << (c - 1) | v >> (n + 1 - c). */
  lemma RoxlOrs(n: nat, x: bool, v: nat, c: nat)
    requires 1 <= c <= n && InRange(n, v)
    ensures Trunc(n, Or(Or(Up(v, c), Up(Num(x), c - 1)), Down(v, n + 1 - c))) == RoxlSum(n, x, v, c)
  {
    RoxlSumBound(n, x, v, c);
    UpParts(v, x, c);
    assert Down(v, n + 1 - c) < Pow2(c - 1);
    hide Pow2, Or, Up, Down, Trunc;
    ThreeParts(n, Up(v, c), Up(Num(x), c - 1), Down(v, n + 1 - c), c);
  }

  lemma TruncSum(n: nat, a: nat, b: nat)
    requires InRange(n, Trunc(n, a) + b)
    ensures Trunc(n, a + b) == Trunc(n, a) + b
  {
    DivMod(a, Pow2(n));
    Divides(a + b, Pow2(n), a / Pow2(n), Trunc(n, a) + b);
  }

  lemma ThreePartsBelow(n: nat, a: nat, b: nat, z: nat, c: nat)
    requires c > 0 && a % Pow2(c) == 0 && b + z < Pow2(c) && b % Pow2(c - 1) == 0 && z < Pow2(c - 1)
    requires InRange(n, Trunc(n, a) + b + z)
    ensures Trunc(n, Or(Or(z, b), a)) == Trunc(n, a) + b + z
  {
    hide Pow2;
    OrBelow(z, b, c - 1);
    OrBelow(z + b, a, c);
    TruncSum(n, a, b + z);
  }

  lemma UpOne(x: bool, c: nat)
    ensures Up(Num(x), c) % Pow2(c) == 0 && Up(Num(x), c) <= Pow2(c)
  {
    OneOrNone(x, Pow2(c));
    MultipleOf(Num(x), Pow2(c));
  }

  /** v >> c | x << (n - c) | v << (n + 1 - c). */
  lemma RoxrOrs(n: nat, x: bool, v: nat, c: nat)
    requires 1 <= c <= n && InRange(n, v)
    ensures Trunc(n, Or(Or(Down(v, c), Up(Num(x), n - c)), Up(v, n + 1 - c))) == RoxlSum(n, x, v, n + 1 - c)
  {
    var k := n + 1 - c;
    RoxlSumBound(n, x, v, k);
    UpParts(v, x, k);
    UpOne(x, k - 1);
    DoublePow2(k);
    assert Down(v, c) < Pow2(k - 1);
    hide Pow2, Or, Up, Down, Trunc;
    ThreePartsBelow(n, Up(v, k), Up(Num(x), k - 1), Down(v, c), k);
  }

  /** v << c | v >> (n - c). */
  lemma RolOrs(n: nat, x: bool, v: nat, c: nat)
    requires 0 < c < n && InRange(n, v)
    ensures Trunc(n, Or(Up(v, c), Down(v, n - c))) == Times(Rol, n, Cell(x, v), c).v
    ensures Trunc(n, Or(Down(v, n - c), Up(v, c))) == Times(Rol, n, Cell(x, v), c).v
    ensures Bit(v, n - c) == (Times(Rol, n, Cell(x, v), c).v % 2 == 1)
  {
    var a, z := Up(v, c), Down(v, n - c);
    SplitBits(n, v, c);
    MultipleOf(v, Pow2(c));
    OrApart(a, z, c);
    OrSym(a, z);
    RolClosed(n, x, v, c);
    TimesInRange(Rol, n, Cell(x, v), c);
    TruncSum(n, a, z);
    RolCarry(n, Cell(x, v), c);
  }
}