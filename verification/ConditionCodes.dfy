/** ADD, SUB and CMP on 8, 16 and 32 bits, and the conditions tested after them. */
module ConditionCodes {
  import opened Powers
  import opened Shifts
  import opened ShiftOps
  import opened CpuFlags

  /** The sign bit of the low n bits. */
  predicate SignBit(n: nat, x: int)
    requires n > 0
  {
    Bit(x, n - 1)
  }

  /** Bit n of a sum or difference: the carry or borrow. */
  predicate CarryBit(n: nat, x: int) { Bit(x, n) }

  /** ((~(a ^ b)) & (a ^ c)) & sign. */
  predicate AddV(n: nat, a: int, b: int, c: int)
    requires n > 0
  {
    !(SignBit(n, a) != SignBit(n, b)) && SignBit(n, a) != SignBit(n, c)
  }

  /** ((a ^ b) & ~(b ^ c)) & sign. */
  predicate SubV(n: nat, a: int, b: int, c: int)
    requires n > 0
  {
    SignBit(n, a) != SignBit(n, b) && !(SignBit(n, b) != SignBit(n, c))
  }

  /** A number from -2^n to 2^(n+1), reduced to n bits. */
  lemma Reduced(n: nat, x: int)
    requires n > 0 && 0 <= x + Pow2(n) && x < 2 * Pow2(n)
    ensures Trunc(n, x) == if x < 0 then x + Pow2(n) else if x >= Pow2(n) then x - Pow2(n) else x
    ensures SignBit(n, x) == (Trunc(n, x) >= Top(n))
    ensures CarryBit(n, x) == !(0 <= x < Pow2(n))
  {
    var h := Top(n);
    DoublePow2(n);
    hide Pow2;
    var q := if x < 0 then -1 else if x >= 2 * h then 1 else 0;
    Divides(x, 2 * h, q, x - q * (2 * h));
    var r := x - q * (2 * h);
    Divides(x, h, 2 * q + (if r >= h then 1 else 0), if r >= h then r - h else r);
  }

  lemma Plain(n: nat, a: nat)
    requires n > 0 && InRange(n, a)
    ensures SignBit(n, a) == (a >= Top(n)) && Trunc(n, a) == a
  {
    hide Pow2;
    Reduced(n, a);
  }

  /** Addition: C is the unsigned overflow and V the signed one. */
  lemma AddFlags(n: nat, a: nat, b: nat)
    requires n > 0 && InRange(n, a) && InRange(n, b)
    ensures CarryBit(n, a + b) <==> a + b >= Pow2(n)
    ensures AddV(n, a, b, a + b) <==> !Fits(n, Signed(n, a) + Signed(n, b))
    ensures Trunc(n, a + b) == Trunc(n, Signed(n, a) + Signed(n, b))
  {
    hide Bit, Trunc, Pow2;
    DoublePow2(n);
    Plain(n, a);
    Plain(n, b);
    Reduced(n, a + b);
    SameTrunc(n, a, b, 1);
  }

  /** Subtraction: C is the borrow and V the signed overflow. */
  lemma SubFlags(n: nat, a: nat, b: nat)
    requires n > 0 && InRange(n, a) && InRange(n, b)
    ensures CarryBit(n, a - b) <==> a < b
    ensures SubV(n, a, b, a - b) <==> !Fits(n, Signed(n, a) - Signed(n, b))
    ensures SignBit(n, a - b) == (Trunc(n, a - b) >= Top(n))
    ensures Trunc(n, a - b) == Trunc(n, Signed(n, a) - Signed(n, b))
  {
    hide Bit, Trunc, Pow2;
    DoublePow2(n);
    Plain(n, a);
    Plain(n, b);
    Reduced(n, a - b);
    SameTrunc(n, a, b, -1);
  }

  lemma SameTrunc(n: nat, a: nat, b: nat, k: int)
    requires n > 0 && InRange(n, a) && InRange(n, b) && (k == 1 || k == -1)
    ensures Trunc(n, a + k * b) == Trunc(n, Signed(n, a) + k * Signed(n, b))
  {
    var i, j := if a >= Top(n) then 1 else 0, if b >= Top(n) then 1 else 0;
    ModAdds(a + k * b, -(i + k * j), Pow2(n));
    hide Pow2;
  }

  // ---- The instructions ----

  /** ADD_B, ADD_W and ADD_L. */
  method Add(cpu: Cpu, n: nat, a: nat, b: nat) returns (r: nat)
    requires Width(n) && InRange(n, a) && InRange(n, b)
    modifies cpu
    ensures r == (a + b) % Pow2(n) && NZ(cpu, n, r)
    ensures cpu.C == (a + b >= Pow2(n)) && cpu.X == cpu.C
    ensures cpu.V == !Fits(n, Signed(n, a) + Signed(n, b))
  {
    hide Pow2, Fits, Signed, Bit;
    AddFlags(n, a, b);
    var c := a + b;
    cpu.C := CarryBit(n, c);
    cpu.X := cpu.C;
    cpu.V := AddV(n, a, b, c);
    r := Trunc(n, c);
    Test(cpu, n, r);
  }

  /** SUB_B, SUB_W and SUB_L. */
  method Sub(cpu: Cpu, n: nat, a: nat, b: nat) returns (r: nat)
    requires Width(n) && InRange(n, a) && InRange(n, b)
    modifies cpu
    ensures r == (a - b) % Pow2(n) && NZ(cpu, n, r)
    ensures cpu.C == (a < b) && cpu.X == cpu.C
    ensures cpu.V == !Fits(n, Signed(n, a) - Signed(n, b))
  {
    hide Pow2, Fits, Signed, Bit;
    SubFlags(n, a, b);
    var c := a - b;
    cpu.C := CarryBit(n, c);
    cpu.X := cpu.C;
    cpu.V := SubV(n, a, b, c);
    r := Trunc(n, c);
    Test(cpu, n, r);
  }

  /** CMP_B, CMP_W and CMP_L: the flags of SUB, X left alone. */
  method Cmp(cpu: Cpu, n: nat, a: nat, b: nat)
    requires Width(n) && InRange(n, a) && InRange(n, b)
    modifies cpu
    ensures Flags(cpu) == Compared(n, a, b) && cpu.X == old(cpu.X)
  {
    hide Pow2, Fits, Signed, Bit;
    SubFlags(n, a, b);
    var c := a - b;
    cpu.C := CarryBit(n, c);
    cpu.V := SubV(n, a, b, c);
    Test(cpu, n, Trunc(n, c));
  }

  // ---- Conditions ----

  datatype Ccr = Ccr(n: bool, z: bool, v: bool, c: bool)

  function Flags(cpu: Cpu): Ccr
    reads cpu
  {
    Ccr(cpu.N, cpu.Z, cpu.V, cpu.C)
  }

  function Compared(n: nat, a: nat, b: nat): Ccr
    requires n > 0
  {
    var r := (a - b) % Pow2(n);
    Ccr(r >= Top(n), r == 0, !Fits(n, Signed(n, a) - Signed(n, b)), a < b)
  }

  /** testCC: condition cc of the sixteen. */
  predicate TestCC(cc: nat, f: Ccr) {
    match cc
    case 0 => true
    case 1 => false
    case 2 => !f.c && !f.z
    case 3 => f.c || f.z
    case 4 => !f.c
    case 5 => f.c
    case 6 => !f.z
    case 7 => f.z
    case 8 => !f.v
    case 9 => f.v
    case 10 => !f.n
    case 11 => f.n
    case 12 => f.n == f.v
    case 13 => f.n != f.v
    case 14 => !f.z && f.n == f.v
    case _ => f.z || f.n != f.v
  }

  /** The sign of the difference, corrected by the overflow, is the signed order. */
  lemma SignedOrder(n: nat, a: nat, b: nat)
    requires n > 0 && InRange(n, a) && InRange(n, b)
    ensures var f := Compared(n, a, b);
            && (f.z <==> a == b) && (a == b <==> Signed(n, a) == Signed(n, b))
            && (f.n != f.v <==> Signed(n, a) < Signed(n, b))
  {
    DoublePow2(n);
    Reduced(n, a - b);
    hide Pow2;
  }

  /** PL and MI are the sign of a result, of a comparison or of anything else. */
  lemma SignConditions(n: nat, r: nat, f: Ccr)
    requires n > 0 && InRange(n, r) && f.n == (r >= Top(n)) && f.z == (r == 0)
    ensures TestCC(10, f) <==> Signed(n, r) >= 0
    ensures TestCC(11, f) <==> Signed(n, r) < 0
    ensures TestCC(6, f) <==> Signed(n, r) != 0
    ensures TestCC(7, f) <==> Signed(n, r) == 0
  {
    DoublePow2(n);
    hide Pow2;
  }

  /**
   After a comparison of a with b the sixteen conditions say how they compare: HI, LS, CC and CS
   without sign, GE, LT, GT and LE with it, NE and EQ either way; PL and MI say the sign of the
   difference in the width of the operands, VC and VS whether it fits; T always holds and F never.
   */
  lemma Conditions(n: nat, a: nat, b: nat)
    requires n > 0 && InRange(n, a) && InRange(n, b)
    ensures var f, s, t, r := Compared(n, a, b), Signed(n, a), Signed(n, b), Signed(n, (a - b) % Pow2(n));
            && TestCC(0, f) && !TestCC(1, f)
            && (TestCC(2, f) <==> a > b) && (TestCC(3, f) <==> a <= b)
            && (TestCC(4, f) <==> a >= b) && (TestCC(5, f) <==> a < b)
            && (TestCC(6, f) <==> a != b) && (TestCC(7, f) <==> a == b)
            && (TestCC(9, f) <==> !Fits(n, s - t)) && (TestCC(8, f) <==> Fits(n, s - t))
            && (TestCC(10, f) <==> r >= 0) && (TestCC(11, f) <==> r < 0)
            && (TestCC(12, f) <==> s >= t) && (TestCC(13, f) <==> s < t)
            && (TestCC(14, f) <==> s > t) && (TestCC(15, f) <==> s <= t)
  {
    hide Pow2, Fits;
    SignedOrder(n, a, b);
    DivMod(a - b, Pow2(n));
    SignConditions(n, (a - b) % Pow2(n), Compared(n, a, b));
    hide Signed, Top;
  }
}
