/**
 ASL, ASR, LSL, LSR, ROL, ROR, ROXL and ROXR on 8, 16 and 32 bits, as the source computes
 them, against repeated one-bit steps.  Counts are below 64, as every caller makes them.
 */
module ShiftOps {
  import opened Powers
  import opened Shifts
  import opened Rotations
  import opened CpuFlags

  predicate Width(n: nat) { n == 8 || n == 16 || n == 32 }

  /** TEST_B, TEST_W and TEST_L. */
  method Test(cpu: Cpu, n: nat, v: nat)
    requires n > 0
    modifies cpu`N, cpu`Z
    ensures cpu.N == (v >= Top(n)) && cpu.Z == (v == 0)
  {
    cpu.N := v >= Top(n);
    cpu.Z := v == 0;
  }

  /** N and Z of a result. */
  predicate NZ(cpu: Cpu, n: nat, v: nat)
    requires n > 0
    reads cpu
  {
    cpu.N == (v >= Top(n)) && cpu.Z == (v == 0)
  }

  /** if(c > 31) c = 31. */
  function Clamped(c: nat): nat { if c > 31 then 31 else c }

  // ---- The closed forms with the source's counts ----

  lemma LslShort(n: nat, x: bool, v: nat, c: nat)
    requires 0 < n < 31 && c > 0 && InRange(n, v)
    ensures Times(Lsl, n, Cell(x, v), c) == Cell(Bit(Shl(v, Clamped(c) - 1), n - 1), Trunc(n, Shl(v, Clamped(c))))
  {
    LslClosed(n, x, v, c);
    hide Times, Pow2, Trunc, Shl, Bit;
    if c > 31 {
      ShiftedOut(n, v, c);
      ShiftedOut(n, v, 31);
    }
  }

  lemma LslLong(x: bool, v: nat, c: nat)
    requires c > 0 && InRange(32, v)
    ensures Times(Lsl, 32, Cell(x, v), c)
            == if c > 31 then Cell(c == 32 && v % 2 == 1, 0) else Cell(Bit(Shl(v, c - 1), 31), Trunc(32, Shl(v, c)))
  {
    LslClosed(32, x, v, c);
    WordOut(v);
    hide Times, Pow2, Trunc, Shl, Bit;
    if c > 32 {
      ShiftedOut(32, v, c);
    }
  }

  /** A long shifted by its width: the lowest bit is the last one out. */
  lemma WordOut(v: nat)
    requires InRange(32, v)
    ensures Bit(Shl(v, 31), 31) == (v % 2 == 1) && Trunc(32, Shl(v, 32)) == 0
  {
    assert Pow2(32 - 32) == 1;
    ShiftedParts(32, v, 32);
    hide Pow2;
  }

  lemma LsrCoded(n: nat, x: bool, v: nat, c: nat)
    requires Width(n) && 0 < c < 64 && InRange(n, v)
    ensures n < 32 ==> Times(Lsr, n, Cell(x, v), c) == Cell(Bit(v, Clamped(c) - 1), Down(v, Clamped(c)))
    ensures n == 32 ==> Times(Lsr, n, Cell(x, v), c) == Cell(Bit(v, c - 1), if c > 31 then 0 else Down(v, c))
  {
    LsrClosed(n, x, v, c);
    if c > 31 {
      ShrFar(n, v, c);
      if n < 32 {
        ShrFar(n, v, c - 1);
        ShrFar(n, v, 30);
        ShrFar(n, v, 31);
      }
    }
  }

  lemma AsrCoded(n: nat, x: bool, v: nat, c: nat)
    requires Width(n) && c > 0 && InRange(n, v)
    ensures var s := Signed(n, v);
            && (n < 32 ==> Times(Asr, n, Cell(x, v), c) == Cell(Bit(s, Clamped(c) - 1), Trunc(n, Shr(s, Clamped(c)))))
            && (n == 32 ==> Times(Asr, n, Cell(x, v), c)
                            == if c < 32 then Cell(Bit(s, c - 1), Trunc(n, Shr(s, c)))
                               else Cell(Bit(Shr(s, 31), 0), Trunc(n, Shr(Shr(s, 31), 1))))
  {
    var s := Signed(n, v);
    AsrClosed(n, x, v, c);
    SignedBack(n, v);
    assert Pow2(0) == 1 && Pow2(1) == 2;
    if c > 31 {
      AsrFar(n, s, c);
      AsrFar(n, s, 32);
      if n < 32 {
        AsrFar(n, s, 31);
      } else {
        DivDiv(s, Pow2(31), 2);
      }
    }
  }

  /** Past the width, and at it, ASR leaves the sign everywhere. */
  lemma AsrFar(n: nat, s: int, c: nat)
    requires 0 < n <= c && Fits(n, s)
    ensures Shr(s, c) == if s < 0 then -1 else 0
    ensures Bit(s, c - 1) == (s < 0)
  {
    ShrFar(n, s, c);
    ShrFar(n - 1, s, c - 1);
  }

  // ---- The instructions ----

  /** The value and the last bit out. */
  method LslParts(n: nat, v: nat, c: nat, ghost x: bool) returns (r: nat, carry: bool)
    requires Width(n) && 0 < c < 64 && InRange(n, v)
    ensures Cell(carry, r) == Times(Lsl, n, Cell(x, v), c)
  {
    if n < 32 {
      LslShort(n, x, v, c);
      hide Times, Pow2, Trunc, Shl, Bit;
      var k := Clamped(c);
      r := Trunc(n, Shl(v, k));
      carry := Bit(Shl(v, k - 1), n - 1);
    } else {
      LslLong(x, v, c);
      hide Times, Pow2, Trunc, Shl, Bit;
      if c > 31 {
        r := 0;
        carry := c == 32 && v % 2 == 1;
      } else {
        r := Trunc(n, Shl(v, c));
        carry := Bit(Shl(v, c - 1), n - 1);
      }
    }
  }

  /** LSL: the last bit out is in C and X; V is cleared, except at count 0, which leaves X and V. */
  method DoLsl(cpu: Cpu, n: nat, v: nat, c: nat) returns (r: nat)
    requires Width(n) && c < 64 && InRange(n, v)
    modifies cpu
    ensures NZ(cpu, n, r)
    ensures c == 0 ==> r == v && !cpu.C && cpu.X == old(cpu.X) && cpu.V == old(cpu.V)
    ensures c > 0 ==> Cell(cpu.C, r) == Times(Lsl, n, Cell(old(cpu.X), v), c) && cpu.X == cpu.C && !cpu.V
  {
    hide Times, Pow2, Top;
    if c == 0 {
      cpu.C := false;
      Test(cpu, n, v);
      return v;
    }
    var carry;
    r, carry := LslParts(n, v, c, cpu.X);
    cpu.C := carry;
    cpu.X := carry;
    Test(cpu, n, r);
    cpu.V := false;
  }

  method LsrParts(n: nat, v: nat, c: nat, ghost x: bool) returns (r: nat, carry: bool)
    requires Width(n) && 0 < c < 64 && InRange(n, v)
    ensures Cell(carry, r) == Times(Lsr, n, Cell(x, v), c)
  {
    LsrCoded(n, x, v, c);
    hide Times, Pow2, Bit, Down;
    if n < 32 {
      var k := Clamped(c);
      r := Down(v, k);
      carry := Bit(v, k - 1);
    } else if c > 31 {
      r := 0;
      carry := Bit(v, c - 1);
    } else {
      r := Down(v, c);
      carry := Bit(v, c - 1);
    }
  }

  method DoLsr(cpu: Cpu, n: nat, v: nat, c: nat) returns (r: nat)
    requires Width(n) && c < 64 && InRange(n, v)
    modifies cpu
    ensures NZ(cpu, n, r)
    ensures c == 0 ==> r == v && !cpu.C && cpu.X == old(cpu.X) && cpu.V == old(cpu.V)
    ensures c > 0 ==> Cell(cpu.C, r) == Times(Lsr, n, Cell(old(cpu.X), v), c) && cpu.X == cpu.C && !cpu.V
  {
    hide Times, Pow2, Top;
    if c == 0 {
      cpu.C := false;
      Test(cpu, n, v);
      return v;
    }
    var carry;
    r, carry := LsrParts(n, v, c, cpu.X);
    cpu.C := carry;
    cpu.X := carry;
    Test(cpu, n, r);
    cpu.V := false;
  }

  method AsrParts(n: nat, v: nat, c: nat, ghost x: bool) returns (r: nat, carry: bool)
    requires Width(n) && 0 < c < 64 && InRange(n, v)
    ensures Cell(carry, r) == Times(Asr, n, Cell(x, v), c)
  {
    AsrCoded(n, x, v, c);
    hide Times, Pow2, Trunc, Shr, Bit, Signed;
    var s := Signed(n, v);
    if n < 32 {
      var k := Clamped(c);
      r := Trunc(n, Shr(s, k));
      carry := Bit(s, k - 1);
    } else if c < 32 {
      r := Trunc(n, Shr(s, c));
      carry := Bit(s, c - 1);
    } else {
      r := Trunc(n, Shr(Shr(s, 31), 1));
      carry := Bit(Shr(s, 31), 0);
    }
  }

  method DoAsr(cpu: Cpu, n: nat, v: nat, c: nat) returns (r: nat)
    requires Width(n) && c < 64 && InRange(n, v)
    modifies cpu
    ensures NZ(cpu, n, r)
    ensures c == 0 ==> r == v && !cpu.C && cpu.X == old(cpu.X) && cpu.V == old(cpu.V)
    ensures c > 0 ==> Cell(cpu.C, r) == Times(Asr, n, Cell(old(cpu.X), v), c) && cpu.X == cpu.C && !cpu.V
  {
    hide Times, Pow2, Top;
    if c == 0 {
      cpu.C := false;
      Test(cpu, n, v);
      return v;
    }
    var carry;
    r, carry := AsrParts(n, v, c, cpu.X);
    cpu.C := carry;
    cpu.X := carry;
    Test(cpu, n, r);
    cpu.V := false;
  }

  lemma AslValue(n: nat, v: nat, c: nat)
    requires Width(n) && InRange(n, v)
    ensures Trunc(n, Shl(Signed(n, v), c)) == Trunc(n, Shl(v, c))
    ensures c > 0 ==> Bit(Shl(Signed(n, v), c - 1), n - 1) == Bit(Shl(v, c - 1), n - 1)
  {
    if v >= Top(n) {
      SignBitsOut(n, v, c);
      if c > 0 {
        SignBitsOut(n, v, c - 1);
      }
    }
    hide Pow2, Trunc, Bit, Shl;
  }

  lemma DropTop(x: int, p: int, h: int)
    requires h > 0
    ensures (x - (2 * h) * p) % (2 * h) == x % (2 * h)
    ensures (x - (2 * h) * p) / h % 2 == x / h % 2
  {
    ModAdds(x, -p, 2 * h);
    ModAdds(x, -2 * p, h);
    ModAdds(x / h, -p, 2);
    MulMul(-p, 2, h);
  }

  /** The sign extension of v shifted left leaves the low bits alone. */
  lemma SignBitsOut(n: nat, v: nat, c: nat)
    requires n > 0
    ensures Trunc(n, Shl(v - Pow2(n), c)) == Trunc(n, Shl(v, c))
    ensures Bit(Shl(v - Pow2(n), c), n - 1) == Bit(Shl(v, c), n - 1)
  {
    MulSub(v, Pow2(n), Pow2(c));
    DoublePow2(n);
    DropTop(v * Pow2(c), Pow2(c), Pow2(n - 1));
    hide Pow2;
  }

  /** ASL computes on the signed number; value and carry are LSL's. */
  lemma AslCoded(n: nat, x: bool, v: nat, c: nat)
    requires Width(n) && c > 0 && InRange(n, v)
    ensures var s := Signed(n, v);
            && (n < 32 ==> Times(Lsl, n, Cell(x, v), c)
                           == Cell(Bit(Shl(s, Clamped(c) - 1), n - 1), Trunc(n, Shl(s, Clamped(c)))))
            && (n == 32 ==> Times(Lsl, n, Cell(x, v), c)
                            == if c > 31 then Cell(c == 32 && v % 2 == 1, 0)
                               else Cell(Bit(Shl(s, c - 1), n - 1), Trunc(n, Shl(s, c))))
  {
    if n < 32 {
      LslShort(n, x, v, c);
    } else {
      LslLong(x, v, c);
    }
    AslValue(n, v, c);
    AslValue(n, v, Clamped(c));
    hide Times, Trunc, Shl, Bit, Signed;
  }

  /** `so`: the bits the shift moves out and the new sign bit, as a signed number. */
  function So(n: nat, v: nat, c: nat): int
    requires n > 0
  {
    if c > n - 1 then Signed(n, v) else Shr(Signed(n, v), n - 1 - c)
  }

  lemma AslVCoded(n: nat, v: nat, c: nat)
    requires Width(n) && c > 0 && InRange(n, v)
    ensures var coded := So(n, v, if n < 32 then Clamped(c) else c) != (if Signed(n, v) < 0 then -1 else 0);
            && (!(Signed(n, v) == -1 && c >= n) ==> coded == SignChanges(n, v, c))
            && (Signed(n, v) == -1 && c >= n ==> !coded && SignChanges(n, v, c))
  {
    AslVIff(n, v, c);
    SignChangesIff(n, v, c);
    if Signed(n, v) == -1 && c >= n {
      FitsFar(n, -1, c);
    }
  }

  /** The value, the carry and `so` of the two forms. */
  method AslParts(n: nat, v: nat, c: nat) returns (r: nat, carry: bool, so: int)
    requires Width(n) && 0 < c < 64 && InRange(n, v)
    ensures forall x :: Times(Lsl, n, Cell(x, v), c) == Cell(carry, r)
    ensures so == So(n, v, if n < 32 then Clamped(c) else c)
  {
    forall x ensures var s := Signed(n, v);
      && (n < 32 ==> Times(Lsl, n, Cell(x, v), c)
                     == Cell(Bit(Shl(s, Clamped(c) - 1), n - 1), Trunc(n, Shl(s, Clamped(c)))))
      && (n == 32 ==> Times(Lsl, n, Cell(x, v), c)
                      == if c > 31 then Cell(c == 32 && v % 2 == 1, 0)
                         else Cell(Bit(Shl(s, c - 1), n - 1), Trunc(n, Shl(s, c))))
    {
      AslCoded(n, x, v, c);
    }
    hide Times, Pow2, Trunc, Shl, Shr, Bit, Top, Signed;
    var s := Signed(n, v);
    if n < 32 {
      var k := Clamped(c);
      r := Trunc(n, Shl(s, k));
      carry := Bit(Shl(s, k - 1), n - 1);
      so := if k > n - 1 then s else Shr(s, n - 1 - k);
    } else if c > 31 {
      r := 0;
      so := s;
      carry := c == 32 && v % 2 == 1;
    } else {
      r := Trunc(n, Shl(s, c));
      so := Shr(s, 31 - c);
      carry := Bit(Shl(s, c - 1), n - 1);
    }
  }

  /** ASL: as LSL, and V by the source's test; see AslVIff for when that is the 68040's V. */
  method DoAsl(cpu: Cpu, n: nat, v: nat, c: nat) returns (r: nat)
    requires Width(n) && c < 64 && InRange(n, v)
    modifies cpu
    ensures NZ(cpu, n, r)
    ensures c == 0 ==> r == v && !cpu.C && cpu.X == old(cpu.X) && cpu.V == old(cpu.V)
    ensures c > 0 ==> Cell(cpu.C, r) == Times(Lsl, n, Cell(old(cpu.X), v), c) && cpu.X == cpu.C
    ensures c > 0 && !(Signed(n, v) == -1 && c >= n) ==> cpu.V == SignChanges(n, v, c)
    ensures c > 0 && Signed(n, v) == -1 && c >= n ==> !cpu.V && SignChanges(n, v, c)
  {
    hide Times, Pow2, Top, Signed, SignChanges, So;
    if c == 0 {
      cpu.C := false;
      Test(cpu, n, v);
      return v;
    }
    var carry, so;
    r, carry, so := AslParts(n, v, c);
    AslVCoded(n, v, c);
    cpu.C := carry;
    Test(cpu, n, r);
    cpu.X := cpu.C;
    cpu.V := so != (if Signed(n, v) < 0 then -1 else 0);
  }

  // ---- Rotations ----

  /**
   ROL.  In the byte and word forms a count that is a nonzero multiple of the width leaves C
   clear whatever the value; in the long form C also goes to X, and such a count would shift
   an int by 32, which the source does not define.
   */
  method DoRol(cpu: Cpu, n: nat, v: nat, c: nat) returns (r: nat)
    requires Width(n) && c < 64 && InRange(n, v)
    requires n == 32 ==> c == 0 || c % 32 != 0
    modifies cpu
    ensures NZ(cpu, n, r) && !cpu.V
    ensures r == Times(Rol, n, Cell(old(cpu.X), v), c).v
    ensures c == 0 ==> !cpu.C
    ensures c > 0 ==> cpu.C == (c % n != 0 && Times(Rol, n, Cell(old(cpu.X), v), c).carry)
    ensures cpu.X == if n == 32 && c > 0 then cpu.C else old(cpu.X)
  {
    cpu.V := false;
    if c == 0 {
      Test(cpu, n, v);
      cpu.C := false;
      return v;
    }
    var k := c % n;
    RolCoded(n, cpu.X, v, c);
    hide Times, Pow2, Trunc, Up, Down, Or, Bit, Top;
    r := Trunc(n, Or(Up(v, k), Down(v, n - k)));
    cpu.C := Bit(v, n - k);
    if n == 32 { cpu.X := cpu.C; }
    Test(cpu, n, r);
  }

  lemma RolCoded(n: nat, x: bool, v: nat, c: nat)
    requires Width(n) && c > 0 && InRange(n, v)
    ensures var k := c % n;
            && Trunc(n, Or(Up(v, k), Down(v, n - k))) == Times(Rol, n, Cell(x, v), c).v
            && Bit(v, n - k) == (k != 0 && Times(Rol, n, Cell(x, v), c).carry)
  {
    var k := c % n;
    RolModulo(n, x, x, v, c);
    RolCarry(n, Cell(x, v), c);
    if k == 0 {
      ShrFar(n, v, n);
      assert Pow2(0) == 1;
      Divides(v, Pow2(n), 0, v);
    } else {
      RolOrs(n, x, v, k);
    }
  }

  /** ROL_B and ROL_W give the 68040's C just when the count is not such a multiple or v is even. */
  lemma RolCarryIff(n: nat, x: bool, v: nat, c: nat)
    requires Width(n) && c > 0 && InRange(n, v)
    ensures Bit(v, n - c % n) == Times(Rol, n, Cell(x, v), c).carry <==> c % n != 0 || v % 2 == 0
  {
    RolCoded(n, x, v, c);
    RolModulo(n, x, x, v, c);
    RolCarry(n, Cell(x, v), c);
  }

  /** ROL.B of 1 by 8: the last bit out is the 1, the C computed is bit 8. */
  lemma RolLosesCarry(x: bool)
    ensures InRange(8, 1) && Times(Rol, 8, Cell(x, 1), 8).carry && !Bit(1, 8 - 8 % 8)
  {
    Pow2Values();
    assert InRange(8, 1);
    RolCarryIff(8, x, 1, 8);
    BitOne();
  }

  lemma BitOne()
    ensures !Bit(1, 8)
  {
    Pow2Values();
  }

  /** The value and the last bit out. */
  method RorParts(n: nat, v: nat, c: nat, ghost x: bool) returns (r: nat, carry: bool)
    requires Width(n) && 0 < c < 64 && InRange(n, v)
    requires n < 32 ==> c == n || c % n != 0
    ensures Cell(carry, r) == Times(Ror, n, Cell(x, v), c)
  {
    RorCoded(n, x, v, c);
    CountModulo(n, c);
    hide Times, Pow2, Trunc, Up, Down, Or, Bit, Top;
    var k := if n == 32 || c > n then c % n else c;
    if n == 32 && k == 0 {
      r := v;
      carry := Bit(v, 31);
    } else {
      r := Trunc(n, Or(Down(v, k), Up(v, n - k)));
      carry := Bit(v, k - 1);
    }
  }

  /** ROR; counts that would shift an int by -1 are not defined by the source. */
  method DoRor(cpu: Cpu, n: nat, v: nat, c: nat) returns (r: nat)
    requires Width(n) && c < 64 && InRange(n, v)
    requires n < 32 ==> c == 0 || c == n || c % n != 0
    modifies cpu
    ensures NZ(cpu, n, r) && !cpu.V && cpu.X == old(cpu.X)
    ensures r == Times(Ror, n, Cell(old(cpu.X), v), c).v
    ensures cpu.C == (c > 0 && Times(Ror, n, Cell(old(cpu.X), v), c).carry)
  {
    cpu.V := false;
    if c == 0 {
      Test(cpu, n, v);
      cpu.C := false;
      return v;
    }
    hide Times, Pow2, Top;
    var carry;
    r, carry := RorParts(n, v, c, cpu.X);
    cpu.C := carry;
    Test(cpu, n, r);
  }

  lemma CountModulo(n: nat, c: nat)
    requires n > 0
    ensures c < n ==> c % n == c
    ensures c == n ==> c % n == 0
  {
    if c < n {
      Divides(c, n, 0, c);
    } else if c == n {
      Divides(c, n, 1, 0);
    }
  }

  lemma RorPart(n: nat, x: bool, v: nat, c: nat)
    requires n > 0 && c > 0 && c % n != 0 && InRange(n, v)
    ensures var k := c % n;
            Times(Ror, n, Cell(x, v), c) == Cell(Bit(v, k - 1), Trunc(n, Or(Down(v, k), Up(v, n - k))))
  {
    var k := c % n;
    RorModulo(n, x, x, v, c);
    RorIsRol(n, x, v, k);
    RorCarry(n, Cell(x, v), c);
    RolOrs(n, false, v, n - k);
    RorTop(n, v, k);
    hide Times, Pow2, Trunc, Up, Down, Or, Bit, Top;
  }

  lemma RorWhole(n: nat, x: bool, v: nat, c: nat)
    requires n > 0 && c > 0 && c % n == 0 && InRange(n, v)
    ensures Times(Ror, n, Cell(x, v), c) == Cell(Bit(v, n - 1), v)
    ensures v == Trunc(n, Or(Down(v, n), Up(v, 0)))
  {
    RorModulo(n, x, x, v, c);
    RorCarry(n, Cell(x, v), c);
    FullTurn(n, false, v);
    ShrFar(n, v, n);
    assert Pow2(0) == 1;
    Divides(v, Pow2(n), 0, v);
    TopIs(n, v);
  }

  lemma RorCoded(n: nat, x: bool, v: nat, c: nat)
    requires n > 0 && c > 0 && InRange(n, v)
    ensures var k, t := c % n, Times(Ror, n, Cell(x, v), c);
            && (k != 0 ==> t == Cell(Bit(v, k - 1), Trunc(n, Or(Down(v, k), Up(v, n - k)))))
            && (k == 0 ==> t == Cell(Bit(v, n - 1), v) && v == Trunc(n, Or(Down(v, n), Up(v, 0))))
  {
    hide Times, Pow2, Trunc, Up, Down, Or, Bit;
    if c % n == 0 {
      RorWhole(n, x, v, c);
    } else {
      RorPart(n, x, v, c);
    }
  }

  lemma TopIs(n: nat, v: nat)
    requires n > 0 && InRange(n, v)
    ensures Bit(v, n - 1) == (v >= Top(n))
  {
    SplitDigits(v, 2, Pow2(n - 1));
  }

  /** The top bit of the ring turned right by k is bit k - 1 of the value. */
  lemma RorTop(n: nat, v: nat, k: nat)
    requires 0 < k < n && InRange(n, v)
    ensures (Times(Rol, n, Cell(false, v), n - k).v >= Top(n)) == Bit(v, k - 1)
  {
    RolClosed(n, false, v, n - k);
    SplitBits(n, v, n - k);
    ShiftedParts(n, v, n - k);
    LowBits(k, v, 1);
    Pow2Sum(k - 1, n - k);
    MulAdd(Num(Bit(v, k - 1)) * Pow2(k - 1), v % Pow2(k - 1), Pow2(n - k));
    MulMul(Num(Bit(v, k - 1)), Pow2(k - 1), Pow2(n - k));
    TwoDigits(Pow2(n - k), Pow2(k - 1), v / Pow2(k), v % Pow2(k - 1));
  }

  // ---- Rotations through X ----

  /** (c & 63) % (n + 1). */
  function Reduced(n: nat, c: nat): (k: nat)
    ensures k <= n
  {
    c % (n + 1)
  }

  lemma ReducedTurns(n: nat, x: bool, v: nat, c: nat)
    requires n > 0 && InRange(n, v)
    ensures Times(Roxl, n, Cell(x, v), c) == Times(Roxl, n, Cell(x, v), Reduced(n, c))
    ensures Times(Roxl, n, Cell(x, v), 0) == Cell(x, v)
  {
    RoxlModulo(n, Cell(x, v), c);
  }

  lemma RoxlPart(n: nat, x: bool, v: nat, k: nat)
    requires 1 <= k <= n && InRange(n, v)
    ensures Times(Roxl, n, Cell(x, v), k)
            == Cell(Bit(v, n - k), Trunc(n, Or(Or(Up(v, k), Up(Num(x), k - 1)), Down(v, n + 1 - k))))
  {
    hide Times, Trunc, Bit, Up, Down, Or, Pow2, RoxlSum;
    RoxlClosed(n, x, v, k);
    RoxlOrs(n, x, v, k);
  }

  lemma RoxlCoded(n: nat, x: bool, v: nat, c: nat)
    requires Width(n) && InRange(n, v)
    ensures var k, t := Reduced(n, c), Times(Roxl, n, Cell(x, v), c);
            && (k == 0 ==> t == Cell(x, v))
            && (k != 0 ==> t == Cell(Bit(v, n - k), Trunc(n, Or(Or(Up(v, k), Up(Num(x), k - 1)), Down(v, n + 1 - k)))))
  {
    hide Times, Trunc, Bit, Up, Down, Or, Pow2, Reduced;
    ReducedTurns(n, x, v, c);
    if Reduced(n, c) != 0 {
      RoxlPart(n, x, v, Reduced(n, c));
    }
  }

  /** The two counts ROXL_L treats apart. */
  lemma RoxlApart(x: bool, v: nat)
    requires InRange(32, v)
    ensures Or(Down(v, 1), Up(Num(x), 31)) == Trunc(32, Or(Or(Up(v, 32), Up(Num(x), 31)), Down(v, 1)))
    ensures Bit(v, 0) == (v % 2 == 1)
    ensures Down(v, 32) == 0
  {
    RoxlOrs(32, x, v, 32);
    RoxlSumBound(32, x, v, 32);
    UpOne(x, 31);
    assert Pow2(0) == 1;
    ShrFar(32, v, 32);
    MultipleOf(v, Pow2(32));
    hide Pow2;
    OrBelow(Down(v, 1), Up(Num(x), 31), 31);
  }

  /** The value and the last bit out. */
  method RoxlParts(n: nat, oldX: bool, v: nat, c: nat) returns (r: nat, carry: bool)
    requires Width(n) && 0 < c < 64 && InRange(n, v)
    requires n < 32 ==> Reduced(n, c) != 0
    ensures Cell(carry, r) == Times(Roxl, n, Cell(oldX, v), c)
  {
    RoxlCoded(n, oldX, v, c);
    var x, k := Num(oldX), Reduced(n, c);
    if n == 32 {
      RoxlApart(oldX, v);
    }
    hide Reduced, Times, Pow2, Trunc, Up, Down, Or, Bit, Top;
    if n < 32 {
      r := Trunc(n, Or(Or(Up(v, k), Up(x, k - 1)), Down(v, n + 1 - k)));
      carry := Bit(v, n - k);
    } else if k == 0 {
      r, carry := v, oldX;
    } else if k == 32 {
      r := Or(Down(v, 1), Up(x, 31));
      carry := v % 2 == 1;
    } else {
      r := Trunc(n, Or(Or(Up(v, k), Up(x, k - 1)), if k == 1 then 0 else Down(v, 33 - k)));
      carry := Bit(v, 32 - k);
    }
  }

  /**
   ROXL turns the ring of X and the value by any count.  In the byte and word forms a count
   that is a nonzero multiple of the ring's size would shift an int by -1, which the source
   does not define; the long form tells those counts apart.
   */
  method DoRoxl(cpu: Cpu, n: nat, v: nat, c: nat) returns (r: nat)
    requires Width(n) && c < 64 && InRange(n, v)
    requires n < 32 ==> c == 0 || Reduced(n, c) != 0
    modifies cpu
    ensures NZ(cpu, n, r) && !cpu.V
    ensures Cell(cpu.X, r) == Times(Roxl, n, Cell(old(cpu.X), v), c) && cpu.C == cpu.X
  {
    cpu.V := false;
    if c == 0 {
      Test(cpu, n, v);
      cpu.C := cpu.X;
      return v;
    }
    hide Times, Pow2, Top;
    var carry;
    r, carry := RoxlParts(n, cpu.X, v, c);
    cpu.C := carry;
    cpu.X := carry;
    Test(cpu, n, r);
  }

  lemma RoxrCoded(n: nat, x: bool, v: nat, c: nat)
    requires Width(n) && InRange(n, v) && Reduced(n, c) != 0
    ensures var k := Reduced(n, c);
            Times(Roxr, n, Cell(x, v), c)
            == Cell(Bit(v, k - 1), Trunc(n, Or(Or(Down(v, k), Up(Num(x), n - k)), Up(v, n + 1 - k))))
  {
    var k := Reduced(n, c);
    RoxrModulo(n, Cell(x, v), c);
    RoxrClosed(n, x, v, k);
    RoxrOrs(n, x, v, k);
  }

  /** ROXR; a count that is a nonzero multiple of the ring's size is not defined by the source. */
  method DoRoxr(cpu: Cpu, n: nat, v: nat, c: nat) returns (r: nat)
    requires Width(n) && c < 64 && InRange(n, v)
    requires c == 0 || Reduced(n, c) != 0
    modifies cpu
    ensures NZ(cpu, n, r) && !cpu.V
    ensures Cell(cpu.X, r) == Times(Roxr, n, Cell(old(cpu.X), v), c) && cpu.C == cpu.X
  {
    cpu.V := false;
    if c == 0 {
      Test(cpu, n, v);
      cpu.C := cpu.X;
      return v;
    }
    RoxrCoded(n, cpu.X, v, c);
    hide Reduced, Times, Pow2, Trunc, Up, Down, Or, Bit, Top;
    var x, k := Num(cpu.X), Reduced(n, c);
    r := Trunc(n, Or(Or(Down(v, k), Up(x, n - k)), Up(v, n + 1 - k)));
    cpu.C := Bit(v, k - 1);
    cpu.X := cpu.C;
    Test(cpu, n, r);
  }

  /** ROXR_L undoes ROXL_L, value and X, for counts 1 to 63 other than 33. */
  method RoxlThenRoxr(cpu: Cpu, v: nat, c: nat) returns (r: nat)
    requires 0 < c < 64 && c != 33 && InRange(32, v)
    modifies cpu
    ensures r == v && cpu.X == old(cpu.X)
  {
    hide Times, Pow2, Top;
    ghost var x := cpu.X;
    TimesInRange(Roxl, 32, Cell(x, v), c);
    RoxrUndoesRoxl(32, Cell(x, v), c);
    var q := DoRoxl(cpu, 32, v, c);
    r := DoRoxr(cpu, 32, q, c);
  }

  // ---- Numbers of many words ----

  /** The number whose words of 32 bits are s, the lowest first. */
  function Number(s: seq<nat>): nat {
    if s == [] then 0 else s[0] + 0x1_0000_0000 * Number(s[1..])
  }

  /** 2^(32k). */
  function Weight(k: nat): nat {
    if k == 0 then 1 else 0x1_0000_0000 * Weight(k - 1)
  }

  lemma {:induction false} NumberAppend(s: seq<nat>, d: nat)
    ensures Number(s + [d]) == Number(s) + d * Weight(|s|)
  {
    if s != [] {
      assert (s + [d])[1..] == s[1..] + [d];
      NumberAppend(s[1..], d);
      MulMul(d, 0x1_0000_0000, Weight(|s| - 1));
    }
  }

  ghost predicate Words(s: seq<nat>) { forall k :: 0 <= k < |s| ==> s[k] < 0x1_0000_0000 }

  lemma OneLeft(x: bool, v: nat)
    requires v < 0x1_0000_0000
    ensures InRange(32, v)
    ensures var r := Times(Roxl, 32, Cell(x, v), 1);
            r.v < 0x1_0000_0000 && 2 * v + Num(x) == Num(r.carry) * 0x1_0000_0000 + r.v
    ensures Times(Lsl, 32, Cell(x, v), 1) == Times(Roxl, 32, Cell(false, v), 1)
  {
    Pow2Values();
    DoublePow2(32);
    assert Times(Roxl, 32, Cell(x, v), 1) == Times(Roxl, 32, Step(Roxl, 32, Cell(x, v)), 0);
    assert Times(Roxl, 32, Cell(false, v), 1) == Times(Roxl, 32, Step(Roxl, 32, Cell(false, v)), 0);
    assert Times(Lsl, 32, Cell(x, v), 1) == Times(Lsl, 32, Step(Lsl, 32, Cell(x, v)), 0);
  }

  lemma OneRight(x: bool, v: nat)
    requires v < 0x1_0000_0000
    ensures InRange(32, v)
    ensures var r := Times(Roxr, 32, Cell(x, v), 1);
            r.v < 0x1_0000_0000 && Num(x) * 0x1_0000_0000 + v == 2 * r.v + Num(r.carry)
    ensures Times(Lsr, 32, Cell(x, v), 1) == Times(Roxr, 32, Cell(false, v), 1)
  {
    Pow2Values();
    DoublePow2(32);
    assert Times(Roxr, 32, Cell(x, v), 1) == Times(Roxr, 32, Step(Roxr, 32, Cell(x, v)), 0);
    assert Times(Roxr, 32, Cell(false, v), 1) == Times(Roxr, 32, Step(Roxr, 32, Cell(false, v)), 0);
    assert Times(Lsr, 32, Cell(x, v), 1) == Times(Lsr, 32, Step(Lsr, 32, Cell(x, v)), 0);
  }

  lemma Doubled(low: nat, low': nat, x: bool, d: nat, d': nat, x': bool, w: nat)
    requires 2 * low == Num(x) * w + low'
    requires 2 * d + Num(x) == Num(x') * 0x1_0000_0000 + d'
    ensures 2 * (low + d * w) == Num(x') * (0x1_0000_0000 * w) + (low' + d' * w)
  {
    MulAdd(2 * d, Num(x), w);
    MulMul(2, d, w);
    MulAdd(Num(x') * 0x1_0000_0000, d', w);
    MulMul(Num(x'), 0x1_0000_0000, w);
  }

  /**
   LSL_L by one on the lowest word and ROXL_L by one on the others, upwards, double a number
   of any length; X is the bit that does not fit.
   */
  method DoubleWords(cpu: Cpu, a: array<nat>)
    requires a.Length > 0 && Words(a[..])
    modifies cpu, a
    ensures Words(a[..])
    ensures 2 * Number(old(a[..])) == Num(cpu.X) * Weight(a.Length) + Number(a[..])
  {
    hide Times, Pow2, Number, Top, InRange;
    ghost var s := a[..];
    OneLeft(cpu.X, a[0]);
    OneLeft(false, a[0]);
    a[0] := DoLsl(cpu, 32, a[0], 1);
    var i := 1;
    FirstWord(s, a[..]);
    while i < a.Length
      invariant 1 <= i <= a.Length
      invariant Words(a[..i]) && forall k :: i <= k < a.Length ==> a[k] == s[k]
      invariant 2 * Number(s[..i]) == Num(cpu.X) * Weight(i) + Number(a[..i])
    {
      ghost var x, low := cpu.X, a[..i];
      OneLeft(cpu.X, a[i]);
      a[i] := DoRoxl(cpu, 32, a[i], 1);
      NextWord(s, low, a[..], i, x, cpu.X);
      i := i + 1;
    }
    assert s[..i] == s && a[..i] == a[..];
  }

  lemma FirstWord(s: seq<nat>, t: seq<nat>)
    requires |s| == |t| > 0
    ensures Number(s[..1]) == s[0] && Number(t[..1]) == t[0] && Weight(1) == 0x1_0000_0000
    ensures t[0] < 0x1_0000_0000 ==> Words(t[..1])
  {
    assert s[..1] == [s[0]] && t[..1] == [t[0]];
  }

  lemma NextWord(s: seq<nat>, low: seq<nat>, t: seq<nat>, i: nat, x: bool, x': bool)
    requires i < |s| == |t| && low == t[..i] && Words(low) && t[i] < 0x1_0000_0000
    requires 2 * Number(s[..i]) == Num(x) * Weight(i) + Number(low)
    requires 2 * s[i] + Num(x) == Num(x') * 0x1_0000_0000 + t[i]
    ensures 2 * Number(s[..i + 1]) == Num(x') * Weight(i + 1) + Number(t[..i + 1])
    ensures Words(t[..i + 1])
  {
    assert t[..i + 1] == low + [t[i]] && s[..i + 1] == s[..i] + [s[i]];
    NumberAppend(low, t[i]);
    NumberAppend(s[..i], s[i]);
    Doubled(Number(s[..i]), Number(low), x, s[i], t[i], x', Weight(i));
    assert Weight(i + 1) == 0x1_0000_0000 * Weight(i);
  }

  /**
   LSR_L by one on the highest word and ROXR_L by one on the others, downwards, halve a number
   of any length; X is the remainder.
   */
  method HalveWords(cpu: Cpu, a: array<nat>)
    requires a.Length > 0 && Words(a[..])
    modifies cpu, a
    ensures Words(a[..])
    ensures Number(old(a[..])) == 2 * Number(a[..]) + Num(cpu.X)
  {
    hide Times, Pow2, Top, Number, InRange;
    ghost var s := a[..];
    var i := a.Length - 1;
    OneRight(cpu.X, a[i]);
    OneRight(false, a[i]);
    a[i] := DoLsr(cpu, 32, a[i], 1);
    HighestWord(s, a[..], i);
    while i > 0
      invariant 0 <= i < a.Length
      invariant Words(a[i..]) && forall k :: 0 <= k < i ==> a[k] == s[k]
      invariant Number(s[i..]) == 2 * Number(a[i..]) + Num(cpu.X)
    {
      ghost var x, high := cpu.X, a[i..];
      i := i - 1;
      OneRight(cpu.X, a[i]);
      a[i] := DoRoxr(cpu, 32, a[i], 1);
      PreviousWord(s, high, a[..], i, x, cpu.X);
    }
    assert s[0..] == s && a[0..] == a[..];
  }

  lemma HighestWord(s: seq<nat>, t: seq<nat>, i: nat)
    requires |s| == |t| == i + 1
    ensures Number(s[i..]) == s[i] && Number(t[i..]) == t[i]
    ensures t[i] < 0x1_0000_0000 ==> Words(t[i..])
  {
    assert s[i..] == [s[i]] && t[i..] == [t[i]];
  }

  lemma PreviousWord(s: seq<nat>, high: seq<nat>, t: seq<nat>, i: nat, x: bool, x': bool)
    requires i < |s| == |t| && high == t[i + 1..] && Words(high) && t[i] < 0x1_0000_0000
    requires Number(s[i + 1..]) == 2 * Number(high) + Num(x)
    requires Num(x) * 0x1_0000_0000 + s[i] == 2 * t[i] + Num(x')
    ensures Number(s[i..]) == 2 * Number(t[i..]) + Num(x')
    ensures Words(t[i..])
  {
    assert t[i..][1..] == high && s[i..][1..] == s[i + 1..];
  }
}
