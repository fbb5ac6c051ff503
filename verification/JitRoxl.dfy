/**
 The translator's ROXL by a register count, roxl_l_r.  RCL takes its count modulo 32, so the
 sequence turns by 31 and 1 first when the count is above 31.
 */
module JitRoxl {
  import opened BitStrings
  import opened X86
  import opened Powers
  import R = Shifts

  // ---- RCL turns the ring ROXL turns ----

  lemma ShiftNumber(v: bv32)
    ensures (v << 1) as nat == if v as nat >= 0x8000_0000 then 2 * (v as nat) - 0x1_0000_0000 else 2 * (v as nat)
  {}

  lemma OrOneNumber(v: bv32)
    ensures ((v << 1) | 1) as nat == (v << 1) as nat + 1
  {}

  lemma TopNumber(v: bv32)
    ensures (v >> 31) as nat == v as nat / 0x8000_0000
  {}

  lemma TopShift(v: bv32)
    ensures v < 0x8000_0000 ==> v >> 31 == 0
    ensures v >= 0x8000_0000 ==> v >> 31 == 1
  {}

  lemma TopBit(v: bv32)
    ensures v >= 0x8000_0000 <==> v as nat >= 0x8000_0000
  {
    TopNumber(v);
    TopShift(v);
    if v < 0x8000_0000 {
      assert (v >> 31) as nat == 0;
    } else {
      assert (v >> 31) as nat == 1;
    }
  }

  function Number(v: bv32): nat { v as nat }

  lemma ShiftInNumber(v: bv32, b: bool)
    ensures Number(ShiftIn(v, b))
            == (if Number(v) >= 0x8000_0000 then 2 * Number(v) - 0x1_0000_0000 else 2 * Number(v))
               + (if b then 1 else 0)
  {
    ShiftNumber(v);
    OrOneNumber(v);
  }

  lemma TopSetNumber(v: bv32)
    ensures TopSet(v) == (Number(v) >= 0x8000_0000)
    ensures Number(v) < 0x1_0000_0000
  {
    TopBit(v);
  }

  /** The ring as the shift instructions see it. */
  function AsCell(r: Ring): R.Cell { R.Cell(r.carry, Number(r.v)) }

  lemma RclIsRoxl(r: Ring)
    ensures R.InRange(32, Number(r.v))
    ensures AsCell(RclStep(r)) == R.Step(R.Roxl, 32, AsCell(r))
  {
    hide Number, TopSet, ShiftIn;
    Pow2Values();
    R.DoublePow2(32);
    ShiftInNumber(r.v, r.carry);
    TopSetNumber(r.v);
  }

  lemma {:induction false} RclTimesIsRoxl(r: Ring, n: nat)
    ensures AsCell(RclTimes(r, n)) == R.Times(R.Roxl, 32, AsCell(r), n)
    decreases n
  {
    hide Number, RclStep;
    if n > 0 {
      RclIsRoxl(r);
      RclTimesIsRoxl(RclStep(r), n - 1);
    }
  }

  // ---- What the translator emits ----

  function HeadCode(reg: nat, dn: nat): seq<Ins> {
    [Flags(Zero(V)), Move(Load(Eax, reg)), Move(LoadByte(dn)), Calc(AndByte(63))]
  }

  function FlagCode(): seq<Ins> { [Calc(Test(Eax)), Flags(Setz(Z)), Flags(Sets(N))] }

  function ZeroCode(): seq<Ins> { [Flags(LoadX), Flags(StoreDl(C))] + FlagCode() }

  function XCode(): seq<Ins> { [Flags(LoadX), Turn(ShrDl)] }

  function FarCode(): seq<Ins> { [Calc(SubImmByte(32))] + XCode() + [Turn(RclImm(Eax, 31)), Turn(RclImm(Eax, 1))] }

  function EndCode(reg: nat): seq<Ins> {
    [Turn(Rcl(Eax)), Flags(Setc(C)), Flags(Setc(X))] + FlagCode() + [Move(Store(reg, Eax))]
  }

  function TurnCode(reg: nat): seq<Ins> {
    [Calc(CmpByte(31))] + IfCode(Jump(Jg(3)), XCode(), FarCode()) + EndCode(reg)
  }

  function Emitted(reg: nat, dn: nat): seq<Ins> {
    HeadCode(reg, dn) + IfCode(Jump(Jnz(6)), ZeroCode(), TurnCode(reg))
  }

  // ---- Running the parts ----

  function CountOf(b: bv8): bv8 { MaskByte(b, 63) }

  lemma LoadRuns(reg: nat, m: Machine)
    requires !m.stuck && reg < |m.core.d|
    ensures Run([Flags(Zero(V)), Move(Load(Eax, reg))], 0, m) == m.(core := m.core.(V := false), eax := m.core.d[reg])
    ensures Closed([Flags(Zero(V)), Move(Load(Eax, reg))])
  {
    hide Run, Step;
    StepZero(V, m);
    StepLoad(Eax, reg, Step(Flags(Zero(V)), m));
    RunTwo(Flags(Zero(V)), Move(Load(Eax, reg)), m);
  }

  lemma CountRuns(dn: nat, m: Machine)
    requires !m.stuck && dn < |m.core.d|
    ensures var n := Run([Move(LoadByte(dn)), Calc(AndByte(63))], 0, m);
            var c := CountOf(LowByte(m.core.d[dn]));
            n == m.(ecx := n.ecx, zf := Known(c == 0), sf := n.sf, cf := n.cf, gt := n.gt) && Cl(n) == c
    ensures Closed([Move(LoadByte(dn)), Calc(AndByte(63))])
  {
    hide Run, Step, LowByte, WithByte, MaskByte;
    var m1 := Step(Move(LoadByte(dn)), m);
    StepLoadByte(dn, m);
    StepAndByte(63, m1);
    RunTwo(Move(LoadByte(dn)), Calc(AndByte(63)), m);
    ByteBack(m.ecx, LowByte(m.core.d[dn]));
    ByteBack(m1.ecx, CountOf(LowByte(m.core.d[dn])));
  }

  /** eax holds the value and cl the count, and the zero flag tells a count of zero. */
  lemma HeadRuns(reg: nat, dn: nat, m: Machine)
    requires !m.stuck && reg < |m.core.d| && dn < |m.core.d|
    ensures var n := Run(HeadCode(reg, dn), 0, m);
            var c := CountOf(LowByte(m.core.d[dn]));
            && n == m.(core := m.core.(V := false), eax := m.core.d[reg], ecx := n.ecx,
                       zf := Known(c == 0), sf := n.sf, cf := n.cf, gt := n.gt)
            && Cl(n) == c
    ensures Closed(HeadCode(reg, dn))
  {
    hide Run, Closed, LowByte, CountOf;
    var a: seq<Ins> := [Flags(Zero(V)), Move(Load(Eax, reg))];
    var b: seq<Ins> := [Move(LoadByte(dn)), Calc(AndByte(63))];
    assert HeadCode(reg, dn) == a + b;
    LoadRuns(reg, m);
    RunAppend(a, b, 0, m);
    CountRuns(dn, Run(a, 0, m));
    ClosedAppend(a, b);
  }

  lemma FlagRuns(m: Machine)
    requires !m.stuck
    ensures var n := Run(FlagCode(), 0, m);
            n == m.(core := m.core.(N := Sign(m.eax), Z := m.eax == 0), zf := n.zf, sf := n.sf, cf := n.cf, gt := n.gt)
    ensures Closed(FlagCode())
  {
    hide Run, Step, Sign;
    var m1 := Step(Calc(Test(Eax)), m);
    StepTest(Eax, m);
    StepFlag(Z, m1);
    StepFlag(N, Step(Flags(Setz(Z)), m1));
    RunThree(Calc(Test(Eax)), Flags(Setz(Z)), Flags(Sets(N)), m);
  }

  /** Count zero: C is X. */
  lemma ZeroRuns(m: Machine)
    requires !m.stuck
    ensures var n := Run(ZeroCode(), 0, m);
            !n.stuck && n.core == m.core.(C := m.core.X, N := Sign(m.eax), Z := m.eax == 0)
    ensures Closed(ZeroCode())
  {
    hide Run, Step, Sign, LowByte, WithByte, Closed, FlagCode;
    var a: seq<Ins> := [Flags(LoadX), Flags(StoreDl(C))];
    var m1 := Step(Flags(LoadX), m);
    StepLoadX(m);
    StepStoreDl(C, m1);
    RunTwo(Flags(LoadX), Flags(StoreDl(C)), m);
    ByteBack(m.edx, BoolByte(m.core.X));
    BoolBack(m.core.X);
    RunAppend(a, FlagCode(), 0, m);
    FlagRuns(Run(a, 0, m));
    ClosedAppend(a, FlagCode());
  }

  /** X goes to the carry flag. */
  lemma XRuns(m: Machine)
    requires !m.stuck
    ensures var n := Run(XCode(), 0, m);
            n == m.(edx := n.edx, zf := n.zf, sf := n.sf, cf := Known(m.core.X), gt := n.gt)
    ensures Closed(XCode())
  {
    hide Run, Step, LowByte, WithByte, OddByte;
    var m1 := Step(Flags(LoadX), m);
    StepLoadX(m);
    StepShrDl(m1);
    RunTwo(Flags(LoadX), Turn(ShrDl), m);
    ByteBack(m.edx, BoolByte(m.core.X));
    BoolBack(m.core.X);
  }

  lemma WholeTurn(m: Machine)
    requires !m.stuck && m.cf.Known?
    ensures var n := Run([Turn(RclImm(Eax, 31)), Turn(RclImm(Eax, 1))], 0, m);
            var r := RclTimes(Ring(m.cf.on, m.eax), 32);
            n == m.(eax := r.v, cf := Known(r.carry), gt := n.gt)
  {
    hide Run, Step, RclTimes;
    var m1 := Step(Turn(RclImm(Eax, 31)), m);
    StepRclImm(Eax, 31, m);
    StepRclImm(Eax, 1, m1);
    RunTwo(Turn(RclImm(Eax, 31)), Turn(RclImm(Eax, 1)), m);
    RclSum(Ring(m.cf.on, m.eax), 31, 1);
  }

  /** A count above 31: a turn by 32, and 32 off the count. */
  lemma FarRuns(m: Machine)
    requires !m.stuck
    ensures var n := Run(FarCode(), 0, m);
            var r := RclTimes(Ring(m.core.X, m.eax), 32);
            && n == m.(eax := r.v, ecx := n.ecx, edx := n.edx, cf := Known(r.carry), zf := n.zf, sf := n.sf, gt := n.gt)
            && Cl(n) == DiffByte(Cl(m), 32)
    ensures Closed(FarCode())
  {
    StraightClosed([Calc(SubImmByte(32))]);
    StraightClosed([Calc(SubImmByte(32))] + XCode());
    StraightClosed(FarCode());
    hide Run, Closed, RclTimes, XCode, DiffByte;
    var a: seq<Ins> := [Calc(SubImmByte(32))];
    var w: seq<Ins> := [Turn(RclImm(Eax, 31)), Turn(RclImm(Eax, 1))];
    SubRuns(m);
    var m1 := Run(a, 0, m);
    XRuns(m1);
    RunAppend(a, XCode(), 0, m);
    RunAppend(a + XCode(), w, 0, m);
    WholeTurn(Run(XCode(), 0, m1));
  }

  lemma SubRuns(m: Machine)
    requires !m.stuck
    ensures var n := Run([Calc(SubImmByte(32))], 0, m);
            n == m.(ecx := n.ecx, zf := n.zf, sf := n.sf, cf := n.cf, gt := n.gt) && Cl(n) == DiffByte(Cl(m), 32)
  {
    hide Run, Step, LowByte, WithByte, DiffByte;
    StepSubImmByte(32, m);
    RunOne(Calc(SubImmByte(32)), m);
    ByteBack(m.ecx, DiffByte(Cl(m), 32));
  }

  lemma RclRuns(m: Machine)
    requires !m.stuck && m.cf.Known?
    ensures var n := Run([Turn(Rcl(Eax)), Flags(Setc(C)), Flags(Setc(X))], 0, m);
            var r := RclTimes(Ring(m.cf.on, m.eax), Count(Cl(m)) as nat);
            n == m.(eax := r.v, core := m.core.(C := r.carry, X := r.carry), cf := n.cf, gt := n.gt)
    ensures Closed([Turn(Rcl(Eax)), Flags(Setc(C)), Flags(Setc(X))])
  {
    hide Run, Step, LowByte, Count;
    var m1 := Step(Turn(Rcl(Eax)), m);
    StepRcl(Eax, m);
    var m2 := Step(Flags(Setc(C)), m1);
    StepSetc(C, m1);
    StepSetc(X, m2);
    RunThree(Turn(Rcl(Eax)), Flags(Setc(C)), Flags(Setc(X)), m);
  }

  lemma StoreEax(reg: nat, m: Machine)
    requires !m.stuck && reg < |m.core.d|
    ensures Run([Move(Store(reg, Eax))], 0, m) == m.(core := m.core.(d := m.core.d[reg := m.eax]))
  {
    hide Run, Step;
    StepStore(reg, Eax, m);
    RunOne(Move(Store(reg, Eax)), m);
  }

  /** The rest of the count, the flags and the register. */
  lemma EndRuns(reg: nat, m: Machine)
    requires !m.stuck && m.cf.Known? && reg < |m.core.d|
    ensures var n := Run(EndCode(reg), 0, m);
            var r := RclTimes(Ring(m.cf.on, m.eax), Count(Cl(m)) as nat);
            && !n.stuck
            && n.core == m.core.(C := r.carry, X := r.carry, N := Sign(r.v), Z := r.v == 0, d := m.core.d[reg := r.v])
    ensures Closed(EndCode(reg))
  {
    var a: seq<Ins> := [Turn(Rcl(Eax)), Flags(Setc(C)), Flags(Setc(X))];
    StraightClosed(EndCode(reg));
    StraightClosed(a + FlagCode());
    hide Run, Closed, Count, LowByte, RclTimes, Sign, FlagCode;
    RclRuns(m);
    var m1 := Run(a, 0, m);
    RunAppend(a, FlagCode(), 0, m);
    FlagRuns(m1);
    RunAppend(a + FlagCode(), [Move(Store(reg, Eax))], 0, m);
    StoreEax(reg, Run(FlagCode(), 0, m1));
  }

  lemma CmpRuns(m: Machine)
    requires !m.stuck
    ensures var n := Run([Calc(CmpByte(31))], 0, m);
            n == m.(zf := n.zf, sf := n.sf, cf := n.cf, gt := Known(GreaterByte(Cl(m), 31)))
    ensures Closed([Calc(CmpByte(31))])
  {
    hide Run, Step, LowByte, GreaterByte;
    StepCmpByte(31, m);
    RunOne(Calc(CmpByte(31)), m);
  }

  function Steps(c: bv8): nat { c as nat }

  lemma LowCount(c: bv8)
    requires !GreaterByte(c, 31) && c < 64
    ensures Count(c) as nat == Steps(c)
  {}

  lemma HighCount(c: bv8)
    requires GreaterByte(c, 31) && c < 64
    ensures Count(DiffByte(c, 32)) as nat + 32 == Steps(c)
  {}

  function Fork(): seq<Ins> { IfCode(Jump(Jg(3)), XCode(), FarCode()) }

  /** After the comparison: the turn by 32 or none, and the carry ready for the rest. */
  lemma ForkRuns(m: Machine)
    requires !m.stuck && m.gt == Known(GreaterByte(Cl(m), 31)) && Cl(m) < 64
    ensures var n := Run(Fork(), 0, m);
            && !n.stuck && n.cf.Known? && n.core == m.core
            && RclTimes(Ring(n.cf.on, n.eax), Count(Cl(n)) as nat) == RclTimes(Ring(m.core.X, m.eax), Steps(Cl(m)))
    ensures Closed(Fork())
  {
    hide Run, Closed, RclTimes, XCode, FarCode, IfCode, LowByte, DiffByte, GreaterByte, Count, Steps;
    Lengths();
    XRuns(m);
    FarRuns(m);
    ClosedIf(Jump(Jg(3)), XCode(), FarCode());
    RunIf(Jump(Jg(3)), XCode(), FarCode(), m);
    if GreaterByte(Cl(m), 31) {
      RclSum(Ring(m.core.X, m.eax), 32, Count(DiffByte(Cl(m), 32)) as nat);
      HighCount(Cl(m));
    } else {
      LowCount(Cl(m));
    }
  }

  /** The turn by any count from 1 to 63. */
  lemma TurnRuns(reg: nat, m: Machine)
    requires !m.stuck && reg < |m.core.d| && Cl(m) < 64
    ensures var n := Run(TurnCode(reg), 0, m);
            var r := RclTimes(Ring(m.core.X, m.eax), Steps(Cl(m)));
            && !n.stuck
            && n.core == m.core.(C := r.carry, X := r.carry, N := Sign(r.v), Z := r.v == 0, d := m.core.d[reg := r.v])
    ensures Closed(TurnCode(reg))
  {
    hide Run, Closed, RclTimes, Fork, EndCode, Sign, LowByte, GreaterByte, Count, Steps;
    var cmp: seq<Ins> := [Calc(CmpByte(31))];
    CmpRuns(m);
    var m1 := Run(cmp, 0, m);
    ForkRuns(m1);
    var m2 := Run(Fork(), 0, m1);
    EndRuns(reg, m2);
    ForkIs(reg);
    RunAppend(cmp, Fork(), 0, m);
    ClosedAppend(cmp, Fork());
    RunAppend(cmp + Fork(), EndCode(reg), 0, m);
    ClosedAppend(cmp + Fork(), EndCode(reg));
  }

  lemma ForkIs(reg: nat)
    ensures TurnCode(reg) == [Calc(CmpByte(31))] + Fork() + EndCode(reg)
  {
    hide IfCode;
  }

  lemma MaskedBound(b: bv8)
    ensures CountOf(b) < 64
    ensures CountOf(b) == 0 <==> Steps(CountOf(b)) == 0
  {}

  /**
   roxl_l_r: for every value, X and count register the emitted code leaves the value, X and C
   of that many one-bit turns of the 33-bit ring, N and Z of the result, and V clear.
   */
  lemma Translated(reg: nat, dn: nat, m: Machine)
    requires !m.stuck && reg < |m.core.d| && dn < |m.core.d|
    ensures var n := Run(Emitted(reg, dn), 0, m);
            var r := RclTimes(Ring(m.core.X, m.core.d[reg]), Steps(CountOf(LowByte(m.core.d[dn]))));
            && !n.stuck
            && n.core == Core(m.core.d[reg := r.v], m.core.pc, r.carry, Sign(r.v), r.v == 0, false, r.carry)
            && AsCell(r) == R.Times(R.Roxl, 32, R.Cell(m.core.X, Number(m.core.d[reg])),
                                    Steps(CountOf(LowByte(m.core.d[dn]))))
  {
    hide Run, Closed, RclTimes, HeadCode, ZeroCode, TurnCode, LowByte, CountOf, Sign, Steps, Number;
    HeadRuns(reg, dn, m);
    var m1 := Run(HeadCode(reg, dn), 0, m);
    var c := CountOf(LowByte(m.core.d[dn]));
    MaskedBound(LowByte(m.core.d[dn]));
    RclTimesIsRoxl(Ring(m.core.X, m.core.d[reg]), Steps(c));
    RclNone(Ring(m.core.X, m.core.d[reg]));
    ZeroRuns(m1);
    TurnRuns(reg, m1);
    Lengths();
    RunIf(Jump(Jnz(6)), ZeroCode(), TurnCode(reg), m1);
    RunAppend(HeadCode(reg, dn), IfCode(Jump(Jnz(6)), ZeroCode(), TurnCode(reg)), 0, m);
  }

  lemma RclNone(r: Ring)
    ensures RclTimes(r, 0) == r
  {}

  lemma Lengths()
    ensures |ZeroCode()| == 5 && |XCode()| == 2
  {}

  // ---- The translator ----

  method UpdateNZ(asm: Assembler)
    modifies asm
    ensures asm.code == old(asm.code) + FlagCode()
  {
    asm.Append([Calc(Test(Eax)), Flags(Setz(Z)), Flags(Sets(N))]);
  }

  /** roxl_l_r; the branches of jit_if are assembled apart and put together. */
  method RoxlLR(asm: Assembler, reg: nat, dn: nat)
    modifies asm
    ensures asm.code == old(asm.code) + Emitted(reg, dn)
  {
    hide IfCode, FlagCode;
    asm.Append([Flags(Zero(V)), Move(Load(Eax, reg)), Move(LoadByte(dn)), Calc(AndByte(63))]);
    var t := new Assembler();
    t.Append([Flags(LoadX), Flags(StoreDl(C))]);
    UpdateNZ(t);
    assert t.code == ZeroCode();
    var f := new Assembler();
    OtherBranch(f, reg);
    asm.JitIf(Jump(Jnz(6)), t.code, f.code);
  }

  method OtherBranch(f: Assembler, reg: nat)
    requires f.code == []
    modifies f
    ensures f.code == TurnCode(reg)
  {
    hide IfCode, FlagCode;
    f.Append([Calc(CmpByte(31))]);
    f.JitIf(Jump(Jg(3)), [Flags(LoadX), Turn(ShrDl)],
            [Calc(SubImmByte(32)), Flags(LoadX), Turn(ShrDl), Turn(RclImm(Eax, 31)), Turn(RclImm(Eax, 1))]);
    FarIs();
    f.Append([Turn(Rcl(Eax)), Flags(Setc(C)), Flags(Setc(X))]);
    UpdateNZ(f);
    f.Append([Move(Store(reg, Eax))]);
  }

  lemma FarIs()
    ensures FarCode() == [Calc(SubImmByte(32)), Flags(LoadX), Turn(ShrDl), Turn(RclImm(Eax, 31)), Turn(RclImm(Eax, 1))]
  {}
}
