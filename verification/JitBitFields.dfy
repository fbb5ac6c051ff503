/**
 The translator's bit field instructions on a data register.  Each emits a fixed sequence of
 x86 instructions; run on the machine, it leaves what the interpreter's instruction leaves.
 */
module JitBitFields {
  import opened BitStrings
  import opened BitFieldRegister
  import opened CpuFlags
  import opened X86
  import BitFacts

  // ---- The interpreter ----

  datatype Kind = Tst | Alter(op: Change) | ExtU | ExtS | Ffo

  /** The register named by the low three bits. */
  function RegNo(b: bv16): (n: nat)
    ensures n < 8
  {
    (b & 7) as nat
  }

  function OffsetField(extw: bv16): bv16 { (extw >> 6) & 0x1F }

  function WidthField(extw: bv16): bv16 { extw & 0x1F }

  predicate OffsetInReg(extw: bv16) { extw & 0x800 != 0 }

  predicate WidthInReg(extw: bv16) { extw & 0x20 != 0 }

  /** The destination of BFEXTU, BFEXTS and BFFFO. */
  function DestNo(extw: bv16): nat { RegNo(extw >> 12) }

  function Wide32(b: bv16): bv32 { b as bv32 }

  /** A width modulo 32, zero meaning 32. */
  function WidthOf(v: bv32): (w: bv6)
    ensures 1 <= w <= 32
  {
    if v & 31 == 0 then 32 else (v & 31) as bv6
  }

  /** get_bf_offset_width. */
  function OffsetV(extw: bv16, d: seq<bv32>): bv32
    requires |d| == 8
  {
    if OffsetInReg(extw) then d[RegNo(OffsetField(extw))] else Wide32(OffsetField(extw))
  }

  function WidthV(extw: bv16, d: seq<bv32>): (w: bv6)
    requires |d| == 8
    ensures 1 <= w <= 32
  {
    WidthOf(if WidthInReg(extw) then d[RegNo(WidthField(extw))] else Wide32(WidthField(extw)))
  }

  /** FETCH steps the program counter over the extension word. */
  function Fetched(pc: bv32): bv32 { pc + 2 }

  /** The processor after the interpreter's instruction, begun at the extension word. */
  function Interpreted(kind: Kind, extw: bv16, reg: nat, k: Core): Core
    requires |k.d| == 8 && reg < 8
  {
    var o, w, v := OffsetV(extw, k.d), WidthV(extw, k.d), k.d[reg];
    var x := Field(v, OnRing(o), w);
    var f := k.(pc := Fetched(k.pc), N := Negative(x), Z := x == 0, V := false, C := false);
    match kind
    case Tst => f
    case Alter(op) => f.(d := k.d[reg := ChangedField(op, v, OnRing(o), w)])
    case ExtU => f.(d := k.d[DestNo(extw) := Lowered(x, w)])
    case ExtS => f.(d := k.d[DestNo(extw) := SignLowered(x, w)])
    case Ffo => f.(d := k.d[DestNo(extw) := Moved(o, FirstOne(x, w))])
  }

  // ---- What the translator emits ----

  /** update_pc: rsi is saved around the move of the program counter. */
  function PcCode(next: bv32): seq<Ins> {
    [Move(Save(Esi)), Move(Imm(Esi, next)), Move(StorePc(Esi)), Move(Restore(Esi))]
  }

  function OffsetCode(extw: bv16): seq<Ins> {
    if OffsetInReg(extw) then [Move(Load(R11, RegNo(OffsetField(extw))))]
    else [Move(Imm(R11, Wide32(OffsetField(extw))))]
  }

  function WidthCode(extw: bv16): seq<Ins> {
    if WidthInReg(extw) then
      [Move(Load(R12, RegNo(WidthField(extw)))), Move(Imm(Edx, 32)), Calc(Test(R12)), Move(Cmovz(R12, Edx))]
    else [Move(Imm(R12, if WidthField(extw) != 0 then Wide32(WidthField(extw)) else 32))]
  }

  function TurnCode(): seq<Ins> {
    [Calc(AndImm(R11, 31)), Move(MovByte(R11)), Turn(Rol(Eax))]
  }

  function MaskCode(): seq<Ins> {
    [Move(Imm(Edx, 0xFFFF_FFFF)), Move(ImmByte(32)), Calc(SubByte(R12)), Turn(Sal(Edx))]
  }

  function TestCode(): seq<Ins> {
    [Calc(AndReg(Eax, Edx)), Flags(Setz(Z)), Flags(Sets(N)), Flags(Zero(V)), Flags(Zero(C))]
  }

  // ---- Running the parts ----

  lemma RingCount(v: bv32)
    ensures Count(LowByte(And(v, 31))) == OnRing(v)
  {}

  /** The count 32 - r12, which the processor takes modulo 32, gives the mask of the width. */
  lemma MaskCount(v: bv32)
    ensures Shl32(0xFFFF_FFFF, Count(DiffByte(32, LowByte(v)))) == Ones(WidthOf(v))
  {}

  lemma TurnRuns(m: Machine)
    requires !m.stuck
    ensures var n := Run(TurnCode(), 0, m);
            && n == m.(r11 := And(m.r11, 31), ecx := n.ecx, eax := RotL(m.eax, OnRing(m.r11)),
                       zf := n.zf, sf := n.sf, cf := n.cf, gt := n.gt)
            && Cl(n) == LowByte(And(m.r11, 31))
  {
    hide Run, Step, And, RotL, OnRing, LowByte, WithByte, Count, Sign;
    var m1 := Step(Calc(AndImm(R11, 31)), m);
    StepAndImm(R11, 31, m);
    var m2 := Step(Move(MovByte(R11)), m1);
    StepMovByte(R11, m1);
    StepRol(Eax, m2);
    RunThree(Calc(AndImm(R11, 31)), Move(MovByte(R11)), Turn(Rol(Eax)), m);
    ByteBack(m.ecx, LowByte(And(m.r11, 31)));
    RingCount(m.r11);
  }

  lemma MaskLoads(m: Machine)
    requires !m.stuck
    ensures var n := Run([Move(Imm(Edx, 0xFFFF_FFFF)), Move(ImmByte(32))], 0, m);
            n == m.(edx := 0xFFFF_FFFF, ecx := n.ecx) && Cl(n) == 32
    ensures Closed([Move(Imm(Edx, 0xFFFF_FFFF)), Move(ImmByte(32))])
  {
    hide Run, Step, LowByte, WithByte;
    StepImm(Edx, 0xFFFF_FFFF, m);
    StepImmByte(32, Step(Move(Imm(Edx, 0xFFFF_FFFF)), m));
    RunTwo(Move(Imm(Edx, 0xFFFF_FFFF)), Move(ImmByte(32)), m);
    ByteBack(m.ecx, 32);
  }

  lemma CountRuns(m: Machine)
    requires !m.stuck
    ensures var n := Run([Calc(SubByte(R12))], 0, m);
            && n == m.(ecx := n.ecx, zf := n.zf, sf := n.sf, cf := n.cf, gt := n.gt)
            && Cl(n) == DiffByte(Cl(m), LowByte(m.r12))
    ensures Closed([Calc(SubByte(R12))])
  {
    hide Run, Step, LowByte, WithByte, DiffByte;
    StepSubByte(R12, m);
    RunOne(Calc(SubByte(R12)), m);
    ByteBack(m.ecx, DiffByte(Cl(m), LowByte(m.r12)));
  }

  lemma ShiftRuns(m: Machine)
    requires !m.stuck
    ensures var n := Run([Turn(Sal(Edx))], 0, m);
            n == m.(edx := Shl32(m.edx, Count(Cl(m))), zf := n.zf, sf := n.sf, cf := n.cf, gt := n.gt)
  {
    hide Run, Step, LowByte, Count, Shl32;
    StepSal(Edx, m);
    RunOne(Turn(Sal(Edx)), m);
  }

  lemma MaskShifts(m: Machine)
    requires !m.stuck
    ensures var n := Run([Calc(SubByte(R12)), Turn(Sal(Edx))], 0, m);
            var c := DiffByte(Cl(m), LowByte(m.r12));
            && n == m.(edx := Shl32(m.edx, Count(c)), ecx := n.ecx, zf := n.zf, sf := n.sf, cf := n.cf, gt := n.gt)
            && Cl(n) == c
  {
    hide Run, LowByte, Count, Shl32, DiffByte, Closed;
    var a: seq<Ins> := [Calc(SubByte(R12))];
    assert [Calc(SubByte(R12)), Turn(Sal(Edx))] == a + [Turn(Sal(Edx))];
    CountRuns(m);
    RunAppend(a, [Turn(Sal(Edx))], 0, m);
    ShiftRuns(Run(a, 0, m));
  }

  lemma MaskRuns(m: Machine)
    requires !m.stuck
    ensures var n := Run(MaskCode(), 0, m);
            && n == m.(edx := Ones(WidthOf(m.r12)), ecx := n.ecx, zf := n.zf, sf := n.sf, cf := n.cf, gt := n.gt)
            && Cl(n) == DiffByte(32, LowByte(m.r12))
  {
    hide Run, Ones, WidthOf, LowByte, Count, Shl32, DiffByte, Closed;
    var a: seq<Ins> := [Move(Imm(Edx, 0xFFFF_FFFF)), Move(ImmByte(32))];
    var b: seq<Ins> := [Calc(SubByte(R12)), Turn(Sal(Edx))];
    assert MaskCode() == a + b;
    MaskLoads(m);
    RunAppend(a, b, 0, m);
    MaskShifts(Run(a, 0, m));
    MaskCount(m.r12);
  }

  lemma CodesRun(m: Machine)
    requires !m.stuck && m.zf.Known? && m.sf.Known?
    ensures Run([Flags(Setz(Z)), Flags(Sets(N))], 0, m) == m.(core := m.core.(N := m.sf.on, Z := m.zf.on))
  {
    hide Run, Step;
    StepFlag(Z, m);
    StepFlag(N, m.(core := m.core.(Z := m.zf.on)));
    RunTwo(Flags(Setz(Z)), Flags(Sets(N)), m);
  }

  lemma AndRuns(m: Machine)
    requires !m.stuck
    ensures var x := And(m.eax, m.edx); Run([Calc(AndReg(Eax, Edx))], 0, m) == Logic(m.(eax := x), x)
    ensures Closed([Calc(AndReg(Eax, Edx))])
  {
    hide Run, Step, And, Logic;
    StepAndReg(Eax, Edx, m);
    RunOne(Calc(AndReg(Eax, Edx)), m);
  }

  lemma FlagsRun(m: Machine)
    requires !m.stuck
    ensures var n := Run([Calc(AndReg(Eax, Edx)), Flags(Setz(Z)), Flags(Sets(N))], 0, m);
            var x := And(m.eax, m.edx);
            n == m.(eax := x, core := m.core.(N := Negative(x), Z := x == 0), zf := n.zf, sf := n.sf, cf := n.cf,
                    gt := n.gt)
  {
    hide Run, And, Sign, Negative, Closed;
    var a: seq<Ins> := [Calc(AndReg(Eax, Edx))];
    var b: seq<Ins> := [Flags(Setz(Z)), Flags(Sets(N))];
    assert a + b == [Calc(AndReg(Eax, Edx)), Flags(Setz(Z)), Flags(Sets(N))];
    AndRuns(m);
    RunAppend(a, b, 0, m);
    CodesRun(Run(a, 0, m));
    SignIs(And(m.eax, m.edx));
  }

  lemma ClearsRun(m: Machine)
    requires !m.stuck
    ensures Run([Flags(Zero(V)), Flags(Zero(C))], 0, m) == m.(core := m.core.(V := false, C := false))
  {
    hide Run, Step;
    StepZero(V, m);
    StepZero(C, Step(Flags(Zero(V)), m));
    RunTwo(Flags(Zero(V)), Flags(Zero(C)), m);
  }

  lemma TestRuns(m: Machine)
    requires !m.stuck
    ensures var n := Run(TestCode(), 0, m);
            var x := And(m.eax, m.edx);
            n == m.(eax := x, core := m.core.(N := Negative(x), Z := x == 0, V := false, C := false),
                    zf := n.zf, sf := n.sf, cf := n.cf, gt := n.gt)
  {
    var a: seq<Ins> := [Calc(AndReg(Eax, Edx)), Flags(Setz(Z)), Flags(Sets(N))];
    var b: seq<Ins> := [Flags(Zero(V)), Flags(Zero(C))];
    assert TestCode() == a + b;
    StraightClosed(a);
    hide Run, And, Sign, Negative, Closed;
    RunAppend(a, b, 0, m);
    FlagsRun(m);
    ClearsRun(Run(a, 0, m));
  }

  lemma SignIs(x: bv32)
    ensures Sign(x) == Negative(x)
  {}

  function FieldCode(): seq<Ins> { TurnCode() + MaskCode() + TestCode() }

  /** eax becomes the field, edx its mask, and cl is left at 32 less the width. */
  lemma FieldRuns(m: Machine)
    requires !m.stuck
    ensures var n := Run(FieldCode(), 0, m);
            var o, w := OnRing(m.r11), WidthOf(m.r12);
            var x := Field(m.eax, o, w);
            && n == m.(eax := x, edx := Ones(w), ecx := n.ecx, r11 := And(m.r11, 31),
                       core := m.core.(N := Negative(x), Z := x == 0, V := false, C := false),
                       zf := n.zf, sf := n.sf, cf := n.cf, gt := n.gt)
            && Cl(n) == DiffByte(32, LowByte(m.r12))
    ensures Closed(FieldCode())
  {
    StraightClosed(TurnCode());
    StraightClosed(TurnCode() + MaskCode());
    StraightClosed(FieldCode());
    hide Closed, Run, And, RotL, Ones, OnRing, WidthOf, LowByte, DiffByte, TurnCode, MaskCode, TestCode, Negative;
    RunAppend(TurnCode() + MaskCode(), TestCode(), 0, m);
    RunAppend(TurnCode(), MaskCode(), 0, m);
    TurnRuns(m);
    var m1 := Run(TurnCode(), 0, m);
    MaskRuns(m1);
    TestRuns(Run(MaskCode(), 0, m1));
  }

  // ---- The operands ----

  function CommonCode(extw: bv16, next: bv32): seq<Ins> { PcCode(next) + (OffsetCode(extw) + WidthCode(extw)) }

  lemma WidthZero(v: bv32)
    ensures v == 0 ==> WidthOf(32) == WidthOf(v)
  {}

  lemma WideZero(b: bv16)
    ensures b == 0 <==> Wide32(b) == 0
  {}

  lemma SavesRun(next: bv32, m: Machine)
    requires !m.stuck
    ensures Run([Move(Save(Esi)), Move(Imm(Esi, next))], 0, m) == m.(slot := m.esi, esi := next)
    ensures Closed([Move(Save(Esi)), Move(Imm(Esi, next))])
  {
    hide Run, Step;
    StepSave(Esi, m);
    StepImm(Esi, next, m.(slot := m.esi));
    RunTwo(Move(Save(Esi)), Move(Imm(Esi, next)), m);
  }

  lemma RestoresRun(m: Machine)
    requires !m.stuck
    ensures Run([Move(StorePc(Esi)), Move(Restore(Esi))], 0, m) == m.(esi := m.slot, core := m.core.(pc := m.esi))
  {
    hide Run, Step;
    StepSave(Esi, m);
    StepSave(Esi, m.(core := m.core.(pc := m.esi)));
    RunTwo(Move(StorePc(Esi)), Move(Restore(Esi)), m);
  }

  /** update_pc sets the program counter, and no register of the machine. */
  lemma PcRuns(next: bv32, m: Machine)
    requires !m.stuck
    ensures Run(PcCode(next), 0, m) == m.(slot := m.esi, core := m.core.(pc := next))
    ensures Closed(PcCode(next))
  {
    StraightClosed(PcCode(next));
    hide Run, Closed;
    var a: seq<Ins> := [Move(Save(Esi)), Move(Imm(Esi, next))];
    var b: seq<Ins> := [Move(StorePc(Esi)), Move(Restore(Esi))];
    assert PcCode(next) == a + b;
    SavesRun(next, m);
    RunAppend(a, b, 0, m);
    RestoresRun(Run(a, 0, m));
  }

  lemma OffsetRuns(extw: bv16, m: Machine)
    requires !m.stuck && |m.core.d| == 8
    ensures var n := Run(OffsetCode(extw), 0, m);
            n == m.(r11 := OffsetV(extw, m.core.d))
    ensures Closed(OffsetCode(extw))
  {
    hide Run, Step, OffsetInReg, OffsetField, RegNo, Wide32;
    if OffsetInReg(extw) {
      StepLoad(R11, RegNo(OffsetField(extw)), m);
      RunOne(Move(Load(R11, RegNo(OffsetField(extw)))), m);
    } else {
      StepImm(R11, Wide32(OffsetField(extw)), m);
      RunOne(Move(Imm(R11, Wide32(OffsetField(extw)))), m);
    }
  }

  /** The whole width register, with 32 for zero; or the width itself. */
  function RawWidth(extw: bv16, d: seq<bv32>): bv32
    requires |d| == 8
  {
    var v := if WidthInReg(extw) then d[RegNo(WidthField(extw))] else Wide32(WidthField(extw));
    if v == 0 then 32 else v
  }

  lemma RawWidthIs(extw: bv16, d: seq<bv32>)
    requires |d| == 8
    ensures WidthOf(RawWidth(extw, d)) == WidthV(extw, d)
  {
    hide WidthInReg, WidthField, Wide32, WidthOf;
    WidthZero(if WidthInReg(extw) then d[RegNo(WidthField(extw))] else Wide32(WidthField(extw)));
  }

  lemma WidthLoads(reg: nat, m: Machine)
    requires !m.stuck && reg < |m.core.d|
    ensures Run([Move(Load(R12, reg)), Move(Imm(Edx, 32))], 0, m) == m.(r12 := m.core.d[reg], edx := 32)
    ensures Closed([Move(Load(R12, reg)), Move(Imm(Edx, 32))])
  {
    hide Run, Step;
    StepLoad(R12, reg, m);
    StepImm(Edx, 32, Step(Move(Load(R12, reg)), m));
    RunTwo(Move(Load(R12, reg)), Move(Imm(Edx, 32)), m);
  }

  lemma ZeroWidth(m: Machine)
    requires !m.stuck
    ensures var n := Run([Calc(Test(R12)), Move(Cmovz(R12, Edx))], 0, m);
            n == m.(r12 := if m.r12 == 0 then m.edx else m.r12, zf := n.zf, sf := n.sf, cf := n.cf, gt := n.gt)
  {
    hide Run, Step, Sign;
    StepTest(R12, m);
    StepCmovz(R12, Edx, Step(Calc(Test(R12)), m));
    RunTwo(Calc(Test(R12)), Move(Cmovz(R12, Edx)), m);
  }

  lemma WidthRegRuns(reg: nat, m: Machine)
    requires !m.stuck && reg < |m.core.d|
    ensures var n := Run([Move(Load(R12, reg)), Move(Imm(Edx, 32)), Calc(Test(R12)), Move(Cmovz(R12, Edx))], 0, m);
            n == m.(r12 := if m.core.d[reg] == 0 then 32 else m.core.d[reg],
                    edx := n.edx, zf := n.zf, sf := n.sf, cf := n.cf, gt := n.gt)
  {
    hide Run, Closed;
    var a: seq<Ins> := [Move(Load(R12, reg)), Move(Imm(Edx, 32))];
    var b: seq<Ins> := [Calc(Test(R12)), Move(Cmovz(R12, Edx))];
    assert [Move(Load(R12, reg)), Move(Imm(Edx, 32)), Calc(Test(R12)), Move(Cmovz(R12, Edx))] == a + b;
    WidthLoads(reg, m);
    RunAppend(a, b, 0, m);
    ZeroWidth(Run(a, 0, m));
  }

  lemma ImmRuns(v: bv32, m: Machine)
    requires !m.stuck
    ensures Run([Move(Imm(R12, v))], 0, m) == m.(r12 := v)
  {
    hide Run, Step;
    StepImm(R12, v, m);
    RunOne(Move(Imm(R12, v)), m);
  }

  lemma WidthRuns(extw: bv16, m: Machine)
    requires !m.stuck && |m.core.d| == 8
    ensures var n := Run(WidthCode(extw), 0, m);
            n == m.(r12 := RawWidth(extw, m.core.d), edx := n.edx, zf := n.zf, sf := n.sf, cf := n.cf, gt := n.gt)
    ensures Closed(WidthCode(extw))
  {
    hide Run, WidthInReg, WidthField, RegNo, Wide32, Step;
    var v := Wide32(WidthField(extw));
    if WidthInReg(extw) {
      WidthRegRuns(RegNo(WidthField(extw)), m);
    } else {
      WideZero(WidthField(extw));
      ImmRuns(if WidthField(extw) != 0 then v else 32, m);
    }
  }

  lemma OperandsRun(extw: bv16, m: Machine)
    requires !m.stuck && |m.core.d| == 8
    ensures var n := Run(OffsetCode(extw) + WidthCode(extw), 0, m);
            && n == m.(r11 := OffsetV(extw, m.core.d), r12 := RawWidth(extw, m.core.d), edx := n.edx,
                       zf := n.zf, sf := n.sf, cf := n.cf, gt := n.gt)
    ensures Closed(OffsetCode(extw) + WidthCode(extw))
  {
    hide Run, OffsetCode, WidthCode, OffsetV, RawWidth, Closed;
    OffsetRuns(extw, m);
    var m1 := Run(OffsetCode(extw), 0, m);
    WidthRuns(extw, m1);
    RunAppend(OffsetCode(extw), WidthCode(extw), 0, m);
    ClosedAppend(OffsetCode(extw), WidthCode(extw));
  }

  /** bf_common: the program counter is behind the extension word, r11 holds the offset, and r12 a
      number with the width of the field. */
  lemma CommonRuns(extw: bv16, next: bv32, m: Machine)
    requires !m.stuck && |m.core.d| == 8
    ensures var n := Run(CommonCode(extw, next), 0, m);
            && n == m.(r11 := OffsetV(extw, m.core.d), r12 := RawWidth(extw, m.core.d), edx := n.edx, slot := m.esi,
                       core := m.core.(pc := next), zf := n.zf, sf := n.sf, cf := n.cf, gt := n.gt)
    ensures Closed(CommonCode(extw, next))
  {
    hide Run, PcCode, OffsetCode, WidthCode, OffsetV, RawWidth, Closed;
    PcRuns(next, m);
    OperandsRun(extw, Run(PcCode(next), 0, m));
    RunAppend(PcCode(next), OffsetCode(extw) + WidthCode(extw), 0, m);
    ClosedAppend(PcCode(next), OffsetCode(extw) + WidthCode(extw));
  }

  // ---- The sequences ----

  function HeadCode(kind: Kind, reg: nat): seq<Ins> {
    match kind
    case Alter(_) => [Move(Load(Eax, reg)), Move(Mov(Esi, Eax))]
    case Ffo => [Move(Load(Eax, reg)), Move(Mov(Esi, R11))]
    case _ => [Move(Load(Eax, reg))]
  }

  function AlterCode(op: Change): seq<Ins> {
    match op
    case Chg => [Calc(XorReg(Esi, Edx))]
    case Clr => [Calc(NotReg(Edx)), Calc(AndReg(Esi, Edx))]
    case Set => [Calc(OrReg(Esi, Edx))]
  }

  function FirstOneCode(): seq<Ins> {
    IfCode(Jump(Jnz(2)), [Move(Mov(Edx, R12))], [Calc(Bsr(Ecx, Eax)), Move(Imm(Edx, 31)), Calc(SubReg(Edx, Ecx))])
  }

  function TailCode(kind: Kind, reg: nat, dn: nat): seq<Ins> {
    match kind
    case Tst => []
    case Alter(op) => [Move(MovByte(R11)), Turn(Ror(Edx))] + AlterCode(op) + [Move(Store(reg, Esi))]
    case ExtU => [Turn(Shr(Eax)), Move(Store(dn, Eax))]
    case ExtS => [Turn(Sar(Eax)), Move(Store(dn, Eax))]
    case Ffo => [Move(Store(dn, Esi)), Calc(Test(Eax))] + FirstOneCode() + [Calc(AddStore(dn, Edx))]
  }

  /** What bftst_dn, bfchg_dn, bfclr_dn, bfset_dn, bfextu_dn, bfexts_dn and bfffo_dn emit for an
      extension word at `at`. */
  function Emitted(kind: Kind, reg: nat, extw: bv16, at: bv32): seq<Ins> {
    CommonCode(extw, Fetched(at)) + HeadCode(kind, reg) + FieldCode() + TailCode(kind, reg, DestNo(extw))
  }

  // ---- Running the tails ----

  lemma GapCount(v: bv32)
    ensures Count(DiffByte(32, LowByte(v))) == Gap(WidthOf(v))
  {}

  lemma ShiftGap(x: bv32, w: bv6)
    requires 1 <= w <= 32
    ensures Shr32(x, (32 - w) as bv5) == x >> (32 - w)
  {
    BitFacts.ShiftByGap(x, w);
  }

  lemma LoweredIs(x: bv32, w: bv6)
    requires 1 <= w <= 32
    ensures Shr32(x, Gap(w)) == Lowered(x, w)
  {
    hide Shr32;
    ShiftGap(x, w);
  }

  /** Shifting right by cl moves the field down, with sign or without. */
  lemma LowerCount(x: bv32, v: bv32)
    ensures Shr32(x, Count(DiffByte(32, LowByte(v)))) == Lowered(x, WidthOf(v))
    ensures Sar32(x, Count(DiffByte(32, LowByte(v)))) == SignLowered(x, WidthOf(v))
  {
    hide Shr32, Count, DiffByte, LowByte, WidthOf, Lowered, Sign, Negative, Invert, Gap;
    GapCount(v);
    SignIs(x);
    LoweredIs(x, WidthOf(v));
    LoweredIs(Invert(x), WidthOf(v));
  }

  lemma ExtractTail(signed: bool, dn: nat, m: Machine)
    requires !m.stuck && dn < |m.core.d|
    ensures var n := Run([Turn(if signed then Sar(Eax) else Shr(Eax)), Move(Store(dn, Eax))], 0, m);
            && !n.stuck
            && n.core == m.core.(d := m.core.d[dn := if signed then Sar32(m.eax, Count(Cl(m)))
                                                     else Shr32(m.eax, Count(Cl(m)))])
  {
    hide Run, Step, LowByte, Count, Sar32, Shr32;
    StepShiftRight(Eax, m);
    var i := Turn(if signed then Sar(Eax) else Shr(Eax));
    StepStore(dn, Eax, Step(i, m));
    RunTwo(i, Move(Store(dn, Eax)), m);
  }

  lemma MaskTail(m: Machine)
    requires !m.stuck
    ensures var n := Run([Move(MovByte(R11)), Turn(Ror(Edx))], 0, m);
            n == m.(edx := RotR(m.edx, Count(LowByte(m.r11))), ecx := n.ecx, cf := n.cf, gt := n.gt)
    ensures Closed([Move(MovByte(R11)), Turn(Ror(Edx))])
  {
    hide Run, Step, LowByte, WithByte, Count, RotR;
    StepMovByte(R11, m);
    StepRor(Edx, Step(Move(MovByte(R11)), m));
    RunTwo(Move(MovByte(R11)), Turn(Ror(Edx)), m);
    ByteBack(m.ecx, LowByte(m.r11));
  }

  lemma AlterRuns(op: Change, m: Machine)
    requires !m.stuck
    ensures var n := Run(AlterCode(op), 0, m);
            n == m.(esi := Combine(op, m.esi, m.edx), edx := n.edx, zf := n.zf, sf := n.sf, cf := n.cf, gt := n.gt)
    ensures Closed(AlterCode(op))
  {
    hide Run, Step, And, Or, Xor, Invert, Sign;
    match op
    case Chg =>
      StepXorReg(Esi, Edx, m);
      RunOne(Calc(XorReg(Esi, Edx)), m);
    case Clr =>
      StepNotReg(Edx, m);
      StepAndReg(Esi, Edx, Step(Calc(NotReg(Edx)), m));
      RunTwo(Calc(NotReg(Edx)), Calc(AndReg(Esi, Edx)), m);
    case Set =>
      StepOrReg(Esi, Edx, m);
      RunOne(Calc(OrReg(Esi, Edx)), m);
  }

  lemma StoreRuns(reg: nat, m: Machine)
    requires !m.stuck && reg < |m.core.d|
    ensures Run([Move(Store(reg, Esi))], 0, m) == m.(core := m.core.(d := m.core.d[reg := m.esi]))
  {
    hide Run, Step;
    StepStore(reg, Esi, m);
    RunOne(Move(Store(reg, Esi)), m);
  }

  lemma AlterTail(op: Change, reg: nat, dn: nat, m: Machine)
    requires !m.stuck && reg < |m.core.d|
    ensures var n := Run(TailCode(Alter(op), reg, dn), 0, m);
            && !n.stuck
            && n.core == m.core.(d := m.core.d[reg := Combine(op, m.esi, RotR(m.edx, Count(LowByte(m.r11))))])
  {
    hide Run, RotR, Count, LowByte, Combine, AlterCode, Closed;
    var a: seq<Ins> := [Move(MovByte(R11)), Turn(Ror(Edx))];
    var s: seq<Ins> := [Move(Store(reg, Esi))];
    MaskTail(m);
    var m1 := Run(a, 0, m);
    AlterRuns(op, m1);
    var m2 := Run(AlterCode(op), 0, m1);
    ClosedAppend(a, AlterCode(op));
    RunAppend(a, AlterCode(op), 0, m);
    RunAppend(a + AlterCode(op), s, 0, m);
    StoreRuns(reg, m2);
  }

  // ---- The first one ----

  lemma OneAtIs(x: bv32, k: bv6)
    requires k < 32
    ensures BitAt(x, 31 - k) == OneAt(x, k)
  {}

  /** The leading zeros end at the most significant one. */
  lemma {:induction false} TopOneIs(x: bv32, k: bv6)
    requires k < 32 && CountLZero(x, 31 - k) < 32
    ensures CountLZero(x, 31 - k) == 31 - TopOne(x, k)
    decreases k
  {
    hide BitAt, OneAt;
    OneAtIs(x, k);
    if k != 0 && !OneAt(x, k) {
      TopOneIs(x, k - 1);
    }
  }

  lemma WordSub(k: bv6)
    requires k < 32
    ensures Sub(31, Word(k)) == Word(31 - k)
  {}

  lemma TopBound(x: bv32, k: bv6)
    ensures TopOne(x, k) <= k
    decreases k
  {
    hide OneAt;
    if k != 0 && !OneAt(x, k) {
      TopBound(x, k - 1);
    }
  }

  lemma LeadingZeros(x: bv32)
    requires x != 0
    ensures Sub(31, Word(TopOne(x, 31))) == Word(FirstOne(x, 0))
  {
    hide BitAt, OneAt, ZeroFrom, Sub, Word;
    CountLZeroFirst(x, 0);
    ZeroWhole(x);
    TopOneIs(x, 31);
    TopBound(x, 31);
    WordSub(TopOne(x, 31));
    NotNot(TopOne(x, 31));
  }

  lemma NotNot(k: bv6)
    ensures 31 - (31 - k) == k
  {}

  function OnesPart(): seq<Ins> { [Calc(Bsr(Ecx, Eax)), Move(Imm(Edx, 31)), Calc(SubReg(Edx, Ecx))] }

  lemma OnesPartRuns(m: Machine)
    requires !m.stuck && m.eax != 0
    ensures var n := Run(OnesPart(), 0, m);
            n == m.(edx := Word(FirstOne(m.eax, 0)), ecx := n.ecx, zf := n.zf, sf := n.sf, cf := n.cf, gt := n.gt)
  {
    hide Run, Step, Sub, TopOne, Word, FirstOne;
    var m1 := Step(Calc(Bsr(Ecx, Eax)), m);
    StepBsr(Ecx, Eax, m);
    var m2 := Step(Move(Imm(Edx, 31)), m1);
    StepImm(Edx, 31, m1);
    StepSubReg(Edx, Ecx, m2);
    RunThree(Calc(Bsr(Ecx, Eax)), Move(Imm(Edx, 31)), Calc(SubReg(Edx, Ecx)), m);
    LeadingZeros(m.eax);
  }

  lemma MoveWidthRuns(m: Machine)
    requires !m.stuck
    ensures Run([Move(Mov(Edx, R12))], 0, m) == m.(edx := m.r12)
  {
    hide Run, Step;
    StepMov(Edx, R12, m);
    RunOne(Move(Mov(Edx, R12)), m);
  }

  /** edx becomes the leading zeros of the field, or the width register when it has no one. */
  lemma FirstOneRuns(m: Machine)
    requires !m.stuck && m.zf == Known(m.eax == 0)
    ensures var n := Run(FirstOneCode(), 0, m);
            n == m.(edx := if m.eax == 0 then m.r12 else Word(FirstOne(m.eax, 0)),
                    ecx := n.ecx, zf := n.zf, sf := n.sf, cf := n.cf, gt := n.gt)
    ensures Closed(FirstOneCode())
  {
    var t: seq<Ins> := [Move(Mov(Edx, R12))];
    StraightClosed(t);
    StraightClosed(OnesPart());
    ClosedIf(Jump(Jnz(2)), t, OnesPart());
    RunIf(Jump(Jnz(2)), t, OnesPart(), m);
    hide Run, Closed, Word, FirstOne;
    if m.eax == 0 {
      MoveWidthRuns(m);
    } else {
      OnesPartRuns(m);
    }
  }

  lemma TestEax(m: Machine)
    requires !m.stuck
    ensures var n := Run([Calc(Test(Eax))], 0, m);
            n == m.(zf := Known(m.eax == 0), sf := n.sf, cf := n.cf, gt := n.gt)
  {
    hide Run, Step, Sign;
    StepTest(Eax, m);
    RunOne(Calc(Test(Eax)), m);
  }

  lemma StoreTest(dn: nat, m: Machine)
    requires !m.stuck && dn < |m.core.d|
    ensures var n := Run([Move(Store(dn, Esi)), Calc(Test(Eax))], 0, m);
            n == m.(core := m.core.(d := m.core.d[dn := m.esi]), zf := Known(m.eax == 0), sf := n.sf, cf := n.cf,
                    gt := n.gt)
    ensures Closed([Move(Store(dn, Esi)), Calc(Test(Eax))])
  {
    hide Run;
    var a: seq<Ins> := [Move(Store(dn, Esi))];
    StraightClosed(a);
    RunAppend(a, [Calc(Test(Eax))], 0, m);
    StoreRuns(dn, m);
    TestEax(Run(a, 0, m));
    assert a + [Calc(Test(Eax))] == [Move(Store(dn, Esi)), Calc(Test(Eax))];
  }

  lemma AddRuns(dn: nat, m: Machine)
    requires !m.stuck && dn < |m.core.d|
    ensures var n := Run([Calc(AddStore(dn, Edx))], 0, m);
            !n.stuck && n.core == m.core.(d := m.core.d[dn := Add(m.core.d[dn], m.edx)])
  {
    hide Run, Step, Add;
    StepAddStore(dn, Edx, m);
    RunOne(Calc(AddStore(dn, Edx)), m);
  }

  lemma FirstOneTail(reg: nat, dn: nat, m: Machine)
    requires !m.stuck && dn < |m.core.d|
    ensures var n := Run(TailCode(Ffo, reg, dn), 0, m);
            && !n.stuck
            && n.core == m.core.(d := m.core.d[dn := Add(m.esi, if m.eax == 0 then m.r12
                                                                else Word(FirstOne(m.eax, 0)))])
  {
    hide Run, Add, Word, FirstOne, FirstOneCode, Closed;
    var a: seq<Ins> := [Move(Store(dn, Esi)), Calc(Test(Eax))];
    var z: seq<Ins> := [Calc(AddStore(dn, Edx))];
    StoreTest(dn, m);
    var m1 := Run(a, 0, m);
    FirstOneRuns(m1);
    var m2 := Run(FirstOneCode(), 0, m1);
    ClosedAppend(a, FirstOneCode());
    RunAppend(a, FirstOneCode(), 0, m);
    RunAppend(a + FirstOneCode(), z, 0, m);
    AddRuns(dn, m2);
  }

  // ---- The whole instruction ----

  /** The state in which every tail starts. */
  lemma BodyRuns(kind: Kind, reg: nat, extw: bv16, next: bv32, m: Machine)
    requires !m.stuck && |m.core.d| == 8 && reg < 8
    ensures var n := Run(CommonCode(extw, next) + HeadCode(kind, reg) + FieldCode(), 0, m);
            var off, w := OffsetV(extw, m.core.d), WidthV(extw, m.core.d);
            var x := Field(m.core.d[reg], OnRing(off), w);
            && !n.stuck
            && n.eax == x && n.edx == Ones(w) && n.r11 == And(off, 31) && n.r12 == RawWidth(extw, m.core.d)
            && (kind.Alter? ==> n.esi == m.core.d[reg]) && (kind.Ffo? ==> n.esi == off)
            && n.core == m.core.(pc := next, N := Negative(x), Z := x == 0, V := false, C := false)
            && Cl(n) == DiffByte(32, LowByte(n.r12))
    ensures Closed(CommonCode(extw, next) + HeadCode(kind, reg) + FieldCode())
  {
    var head := HeadCode(kind, reg);
    StraightClosed(head);
    hide Run, Closed, CommonCode, FieldCode, Field, OnRing, OffsetV, WidthV, RawWidth, WidthOf, And, Ones, Negative,
         DiffByte, LowByte;
    CommonRuns(extw, next, m);
    var m1 := Run(CommonCode(extw, next), 0, m);
    HeadRuns(kind, reg, m1);
    var m2 := Run(head, 0, m1);
    FieldRuns(m2);
    RawWidthIs(extw, m.core.d);
    ClosedAppend(CommonCode(extw, next), head);
    RunAppend(CommonCode(extw, next), head, 0, m);
    RunAppend(CommonCode(extw, next) + head, FieldCode(), 0, m);
    ClosedAppend(CommonCode(extw, next) + head, FieldCode());
  }

  lemma HeadRuns(kind: Kind, reg: nat, m: Machine)
    requires !m.stuck && reg < |m.core.d|
    ensures Run(HeadCode(kind, reg), 0, m)
            == m.(eax := m.core.d[reg],
                  esi := if kind.Alter? then m.core.d[reg] else if kind.Ffo? then m.r11 else m.esi)
  {
    hide Run, Step;
    StepLoad(Eax, reg, m);
    var n := Step(Move(Load(Eax, reg)), m);
    match kind
    case Alter(_) =>
      StepMov(Esi, Eax, n);
      RunTwo(Move(Load(Eax, reg)), Move(Mov(Esi, Eax)), m);
    case Ffo =>
      StepMov(Esi, R11, n);
      RunTwo(Move(Load(Eax, reg)), Move(Mov(Esi, R11)), m);
    case _ =>
      RunOne(Move(Load(Eax, reg)), m);
  }

  /**
   BFTST, BFCHG, BFCLR, BFSET, BFEXTU and BFEXTS: for all registers, immediate or in a
   register of any value, the emitted code leaves the registers, the condition codes and the
   program counter that the interpreter leaves when it comes to the extension word.
   */
  lemma Translated(kind: Kind, reg: nat, extw: bv16, at: bv32, m: Machine)
    requires !m.stuck && |m.core.d| == 8 && reg < 8 && !kind.Ffo?
    ensures var n := Run(Emitted(kind, reg, extw, at), 0, m);
            !n.stuck && n.core == Interpreted(kind, extw, reg, m.core.(pc := at))
  {
    hide Run, Closed, Fetched, CommonCode, HeadCode, FieldCode, Field, OnRing, OffsetV, WidthV, RawWidth, WidthOf, And,
         Ones, Negative, DiffByte, LowByte, DestNo, RotR, Combine, Lowered, SignLowered, Shr32, Sar32, Count;
    var body := CommonCode(extw, Fetched(at)) + HeadCode(kind, reg) + FieldCode();
    BodyRuns(kind, reg, extw, Fetched(at), m);
    var m1 := Run(body, 0, m);
    RunAppend(body, TailCode(kind, reg, DestNo(extw)), 0, m);
    DestBound(extw);
    RawWidthIs(extw, m.core.d);
    match kind
    case Tst =>
      RunEnd([], m1);
    case Alter(op) =>
      AlterTail(op, reg, DestNo(extw), m1);
      RingCount(OffsetV(extw, m.core.d));
    case ExtU =>
      ExtractTail(false, DestNo(extw), m1);
      LowerCount(m1.eax, m1.r12);
    case ExtS =>
      ExtractTail(true, DestNo(extw), m1);
      LowerCount(m1.eax, m1.r12);
  }

  lemma DestBound(extw: bv16)
    ensures DestNo(extw) < 8
  {}

  /**
   BFFFO: the same flags, and the same registers if and only if the field has a one or the
   width register holds just the width; with no one in the field the code adds the whole
   width register to the offset.
   */
  lemma TranslatedFirstOne(reg: nat, extw: bv16, at: bv32, m: Machine)
    requires !m.stuck && |m.core.d| == 8 && reg < 8
    ensures var n := Run(Emitted(Ffo, reg, extw, at), 0, m);
            var k := Interpreted(Ffo, extw, reg, m.core.(pc := at));
            && !n.stuck
            && n.core == k.(d := n.core.d)
            && (n.core == k <==> !k.Z || RawWidth(extw, m.core.d) == Word(WidthV(extw, m.core.d)))
  {
    hide Run, Closed, Fetched, CommonCode, HeadCode, FieldCode, Field, OnRing, OffsetV, WidthV, RawWidth, WidthOf, And,
         Ones, Negative, DiffByte, LowByte, DestNo, Word, Add, CountLZero;
    var body := CommonCode(extw, Fetched(at)) + HeadCode(Ffo, reg) + FieldCode();
    BodyRuns(Ffo, reg, extw, Fetched(at), m);
    var m1 := Run(body, 0, m);
    RunAppend(body, TailCode(Ffo, reg, DestNo(extw)), 0, m);
    DestBound(extw);
    FirstOneTail(reg, DestNo(extw), m1);
    AddCancels(m1.esi, m1.r12, Word(WidthV(extw, m.core.d)));
    var n, k := Run(Emitted(Ffo, reg, extw, at), 0, m).core, Interpreted(Ffo, extw, reg, m.core.(pc := at));
    assert n.d[DestNo(extw)] == Add(m1.esi, if m1.eax == 0 then m1.r12 else Word(FirstOne(m1.eax, 0)));
    assert k.d[DestNo(extw)] == Add(m1.esi, Word(FirstOne(m1.eax, WidthV(extw, m.core.d))));
  }

  /** BFFFO D0{0:D1} with D0 = 0 and D1 = 33, a width of 1: the interpreter's D2 is 1, the code's 33. */
  lemma FirstOneMoves(m: Machine)
    requires !m.stuck && m.core.d == [0, 33, 0, 0, 0, 0, 0, 0]
    ensures Interpreted(Ffo, 0x2021, 0, m.core).Z
    ensures RawWidth(0x2021, m.core.d) == 33 && WidthV(0x2021, m.core.d) == 1
    ensures Run(Emitted(Ffo, 0, 0x2021, m.core.pc), 0, m).core != Interpreted(Ffo, 0x2021, 0, m.core)
  {
    ZeroField();
    OddWidth();
    hide Run, Emitted, Field, Negative, OnRing, OffsetV, Fetched, Moved, FirstOne, Word;
    assert m.core.(pc := m.core.pc) == m.core;
    TranslatedFirstOne(0, 0x2021, m.core.pc, m);
  }

  lemma ZeroField()
    ensures forall o: bv5 :: Field(0, o, 1) == 0
  {}

  lemma OddWidth()
    ensures WidthInReg(0x2021) && RegNo(WidthField(0x2021)) == 1 && !OffsetInReg(0x2021)
    ensures WidthOf(33) == 1 && Word(1) != 33
  {}

  // ---- The two implementations ----

  class ProgramCounter {
    var pc: bv32

    constructor (at: bv32)
      ensures pc == at
    {
      pc := at;
    }

    /** FETCH, as far as it concerns the program counter. */
    method Fetch()
      modifies this
      ensures pc == Fetched(old(pc))
    {
      pc := pc + 2;
    }
  }

  /** The processor's registers and condition codes as a value. */
  function Snapshot(cpu: Cpu, d: array<bv32>, counter: ProgramCounter): Core
    reads cpu, d, counter
  {
    Core(d[..], counter.pc, cpu.X, cpu.N, cpu.Z, cpu.V, cpu.C)
  }

  /** The interpreter's handlers bftst_dn to bfffo_dn. */
  method Interpret(kind: Kind, extw: bv16, reg: nat, cpu: Cpu, d: array<bv32>, counter: ProgramCounter)
    requires d.Length == 8 && reg < 8
    modifies cpu, d, counter
    ensures Snapshot(cpu, d, counter) == Interpreted(kind, extw, reg, old(Snapshot(cpu, d, counter)))
  {
    hide Fetched, OffsetV, WidthV, Field, OnRing, ChangedField, Lowered, SignLowered, Moved, FirstOne, Negative, DestNo;
    DestBound(extw);
    counter.Fetch();
    var offset, w, v, dn := OffsetV(extw, d[..]), WidthV(extw, d[..]), d[reg], DestNo(extw);
    var r: bv32;
    match kind {
      case Tst => r := BfTst(cpu, v, offset, w);
      case Alter(op) =>
        match op {
          case Chg => r := BfChg(cpu, v, offset, w);
          case Clr => r := BfClr(cpu, v, offset, w);
          case Set => r := BfSet(cpu, v, offset, w);
        }
        d[reg] := r;
      case ExtU =>
        r := BfExtU(cpu, v, offset, w);
        d[dn] := r;
      case ExtS =>
        r := BfExtS(cpu, v, offset, w);
        d[dn] := r;
      case Ffo =>
        r := BfFfo(cpu, v, offset, w);
        d[dn] := r;
    }
  }

  // ---- The translator ----

  method UpdatePc(asm: Assembler, next: bv32)
    modifies asm
    ensures asm.code == old(asm.code) + PcCode(next)
  {
    asm.Append([Move(Save(Esi)), Move(Imm(Esi, next)), Move(StorePc(Esi)), Move(Restore(Esi))]);
  }

  method BfCommon(asm: Assembler, extw: bv16, counter: ProgramCounter) returns (dn: nat)
    modifies asm, counter
    ensures asm.code == old(asm.code) + CommonCode(extw, counter.pc) && dn == DestNo(extw)
    ensures counter.pc == Fetched(old(counter.pc))
  {
    counter.Fetch();
    UpdatePc(asm, counter.pc);
    Operands(asm, extw);
    dn := DestNo(extw);
  }

  /** The rest of bf_common: offset and width. */
  method Operands(asm: Assembler, extw: bv16)
    modifies asm
    ensures asm.code == old(asm.code) + (OffsetCode(extw) + WidthCode(extw))
  {
    hide OffsetField, WidthField, OffsetInReg, WidthInReg, Wide32, RegNo;
    var offset, width := OffsetField(extw), WidthField(extw);
    if OffsetInReg(extw) {
      asm.Append([Move(Load(R11, RegNo(offset)))]);
    } else {
      asm.Append([Move(Imm(R11, Wide32(offset)))]);
    }
    if WidthInReg(extw) {
      asm.Append([Move(Load(R12, RegNo(width))), Move(Imm(Edx, 32)), Calc(Test(R12)), Move(Cmovz(R12, Edx))]);
    } else {
      asm.Append([Move(Imm(R12, if width != 0 then Wide32(width) else 32))]);
    }
  }

  /** The instructions all of them share: the field into eax, and the flags. */
  method FieldAndFlags(asm: Assembler)
    modifies asm
    ensures asm.code == old(asm.code) + FieldCode()
  {
    asm.Append([Calc(AndImm(R11, 31)), Move(MovByte(R11)), Turn(Rol(Eax))]);
    asm.Append([Move(Imm(Edx, 0xFFFF_FFFF)), Move(ImmByte(32)), Calc(SubByte(R12)), Turn(Sal(Edx))]);
    asm.Append([Calc(AndReg(Eax, Edx)), Flags(Setz(Z)), Flags(Sets(N))]);
    asm.Append([Flags(Zero(V)), Flags(Zero(C))]);
  }

  method Head(asm: Assembler, kind: Kind, reg: nat)
    modifies asm
    ensures asm.code == old(asm.code) + HeadCode(kind, reg)
  {
    asm.Append([Move(Load(Eax, reg))]);
    match kind {
      case Alter(_) => asm.Append([Move(Mov(Esi, Eax))]);
      case Ffo => asm.Append([Move(Mov(Esi, R11))]);
      case _ =>
    }
  }

  method Combination(asm: Assembler, op: Change)
    modifies asm
    ensures asm.code == old(asm.code) + AlterCode(op)
  {
    match op {
      case Chg => asm.Append([Calc(XorReg(Esi, Edx))]);
      case Clr => asm.Append([Calc(NotReg(Edx)), Calc(AndReg(Esi, Edx))]);
      case Set => asm.Append([Calc(OrReg(Esi, Edx))]);
    }
  }

  method Tail(asm: Assembler, kind: Kind, reg: nat, dn: nat)
    modifies asm
    ensures asm.code == old(asm.code) + TailCode(kind, reg, dn)
  {
    hide AlterCode, FirstOneCode;
    match kind {
      case Tst =>
      case Alter(op) =>
        asm.Append([Move(MovByte(R11)), Turn(Ror(Edx))]);
        Combination(asm, op);
        asm.Append([Move(Store(reg, Esi))]);
      case ExtU =>
        asm.Append([Turn(Shr(Eax)), Move(Store(dn, Eax))]);
      case ExtS =>
        asm.Append([Turn(Sar(Eax)), Move(Store(dn, Eax))]);
      case Ffo =>
        asm.Append([Move(Store(dn, Esi)), Calc(Test(Eax))]);
        FirstOnePart(asm);
        asm.Append([Calc(AddStore(dn, Edx))]);
    }
  }

  method FirstOnePart(asm: Assembler)
    modifies asm
    ensures asm.code == old(asm.code) + FirstOneCode()
  {
    asm.JitIf(Jump(Jnz(2)), [Move(Mov(Edx, R12))], [Calc(Bsr(Ecx, Eax)), Move(Imm(Edx, 31)), Calc(SubReg(Edx, Ecx))]);
  }

  method BfDn(asm: Assembler, kind: Kind, reg: nat, extw: bv16, counter: ProgramCounter)
    modifies asm, counter
    ensures asm.code == old(asm.code) + Emitted(kind, reg, extw, old(counter.pc))
    ensures counter.pc == Fetched(old(counter.pc))
  {
    hide Fetched, CommonCode, HeadCode, FieldCode, TailCode, DestNo;
    var dn := BfCommon(asm, extw, counter);
    Head(asm, kind, reg);
    FieldAndFlags(asm);
    Tail(asm, kind, reg, dn);
  }
}
