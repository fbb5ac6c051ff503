/**
 The few x86 instructions the translator emits for bit fields and ROXL.  Code is a sequence
 of instructions with forward jumps.  A flag an instruction leaves undefined is Unknown, and
 reading it makes the machine stuck, so that no result rests on such a flag.
 */
module X86 {
  import opened BitStrings

  datatype Flag = Unknown | Known(on: bool)

  /** The part of the emulated processor the code works on. */
  datatype Core = Core(d: seq<bv32>, pc: bv32, X: bool, N: bool, Z: bool, V: bool, C: bool)

  /** The low halves of the registers used, and of the word at rsp + 8. */
  datatype Machine = Machine(eax: bv32, ecx: bv32, edx: bv32, esi: bv32, r11: bv32, r12: bv32, slot: bv32,
                             zf: Flag, sf: Flag, cf: Flag, gt: Flag, core: Core, stuck: bool)

  datatype Reg = Eax | Ecx | Edx | Esi | R11 | R12

  datatype Code = X | N | Z | V | C

  /** cl and dl are the low bytes of ecx and edx; DR_L(n) and DR_B(n) are register n. */
  datatype Ins =
    | Move(move: MoveIns)
    | Calc(calculation: CalcIns)
    | Turn(turn: TurnIns)
    | Flags(flags: FlagIns)
    | Jump(jump: JumpIns)

  datatype MoveIns =
    | Load(r: Reg, n: nat)        // mov r, DR_L(n)
    | Store(n: nat, r: Reg)       // mov DR_L(n), r
    | LoadByte(n: nat)            // mov cl, DR_B(n)
    | Imm(r: Reg, v: bv32)        // mov r, v
    | Mov(r: Reg, s: Reg)         // mov r, s
    | MovByte(s: Reg)             // mov cl, low byte of s
    | ImmByte(b: bv8)             // mov cl, b
    | Cmovz(r: Reg, s: Reg)       // cmovz r, s
    | Save(r: Reg)                // mov [rsp + 8], r
    | Restore(r: Reg)             // mov r, [rsp + 8]
    | StorePc(r: Reg)             // mov c_pc, r

  datatype CalcIns =
    | AddStore(n: nat, r: Reg)    // add DR_L(n), r
    | AndByte(b: bv8)             // and cl, b
    | SubByte(s: Reg)             // sub cl, low byte of s
    | SubImmByte(b: bv8)          // sub cl, b
    | CmpByte(b: bv8)             // cmp cl, b
    | AndImm(r: Reg, v: bv32)     // and r, v
    | AndReg(r: Reg, s: Reg)      // and r, s
    | OrReg(r: Reg, s: Reg)       // or r, s
    | XorReg(r: Reg, s: Reg)      // xor r, s
    | NotReg(r: Reg)              // not r
    | SubReg(r: Reg, s: Reg)      // sub r, s
    | Test(r: Reg)                // test r, r
    | Bsr(r: Reg, s: Reg)         // bsr r, s

  datatype TurnIns =
    | Rol(r: Reg)                 // rol r, cl
    | Ror(r: Reg)                 // ror r, cl
    | Sal(r: Reg)                 // sal r, cl
    | Shr(r: Reg)                 // shr r, cl
    | Sar(r: Reg)                 // sar r, cl
    | Rcl(r: Reg)                 // rcl r, cl
    | RclImm(r: Reg, k: nat)      // rcl r, k
    | ShrDl                       // shr dl, 1

  datatype FlagIns =
    | Setz(c: Code) | Sets(c: Code) | Setc(c: Code)
    | Zero(c: Code)               // mov CC_c, 0
    | LoadX                       // mov dl, CC_X
    | StoreDl(c: Code)            // mov CC_c, dl

  datatype JumpIns = Jnz(k: nat) | Jg(k: nat) | Jmp(k: nat)

  // ---- Operands ----

  function Get(m: Machine, r: Reg): bv32 {
    match r
    case Eax => m.eax
    case Ecx => m.ecx
    case Edx => m.edx
    case Esi => m.esi
    case R11 => m.r11
    case R12 => m.r12
  }

  function Put(m: Machine, r: Reg, v: bv32): Machine {
    match r
    case Eax => m.(eax := v)
    case Ecx => m.(ecx := v)
    case Edx => m.(edx := v)
    case Esi => m.(esi := v)
    case R11 => m.(r11 := v)
    case R12 => m.(r12 := v)
  }

  function SetCode(k: Core, c: Code, on: bool): Core {
    match c
    case X => k.(X := on)
    case N => k.(N := on)
    case Z => k.(Z := on)
    case V => k.(V := on)
    case C => k.(C := on)
  }

  function LowByte(v: bv32): bv8 { (v & 0xFF) as bv8 }

  function WithByte(v: bv32, b: bv8): bv32 { (v & 0xFFFF_FF00) | (b as bv32) }

  function Cl(m: Machine): bv8 { LowByte(m.ecx) }

  function PutCl(m: Machine, b: bv8): Machine { m.(ecx := WithByte(m.ecx, b)) }

  lemma ByteBack(v: bv32, b: bv8)
    ensures LowByte(WithByte(v, b)) == b
  {}

  /** The processor takes shift counts modulo 32. */
  function Count(b: bv8): bv5 { (b & 31) as bv5 }

  function DiffByte(b: bv8, c: bv8): bv8 { b - c }

  function MaskByte(b: bv8, c: bv8): bv8 { b & c }

  function HalfByte(b: bv8): bv8 { b >> 1 }

  predicate OddByte(b: bv8) { b & 1 == 1 }

  predicate Sign(v: bv32) { v >= 0x8000_0000 }

  function Shl32(v: bv32, n: bv5): bv32 { v << n }

  function Shr32(v: bv32, n: bv5): bv32 { v >> n }

  function Sar32(v: bv32, n: bv5): bv32 { if Sign(v) then Invert(Shr32(Invert(v), n)) else Shr32(v, n) }

  /** Signed order of bytes. */
  predicate GreaterByte(b: bv8, c: bv8) { (b ^ 0x80) > (c ^ 0x80) }

  predicate OneAt(v: bv32, k: bv6) { k < 32 && (v >> k) & 1 == 1 }

  /** The index of the most significant one, from bit k down. */
  function TopOne(v: bv32, k: bv6): bv6
    decreases k
  {
    if k == 0 || OneAt(v, k) then k else TopOne(v, k - 1)
  }

  // ---- Rotating through the carry ----

  /** One step of RCL, and of ROXL: the carry comes in on the right, the left bit goes out. */
  datatype Ring = Ring(carry: bool, v: bv32)

  predicate TopSet(v: bv32) { v >= 0x8000_0000 }

  function ShiftIn(v: bv32, b: bool): bv32 { if b then (v << 1) | 1 else v << 1 }

  function RclStep(r: Ring): Ring { Ring(TopSet(r.v), ShiftIn(r.v, r.carry)) }

  function RclTimes(r: Ring, n: nat): Ring
    decreases n
  {
    if n == 0 then r else RclTimes(RclStep(r), n - 1)
  }

  lemma {:induction false} RclSum(r: Ring, n: nat, k: nat)
    ensures RclTimes(RclTimes(r, n), k) == RclTimes(r, n + k)
    decreases n
  {
    if n > 0 {
      RclSum(RclStep(r), n - 1, k);
    }
  }

  // ---- Steps ----

  /** The flags of a logical result. */
  function Logic(m: Machine, v: bv32): Machine {
    m.(zf := Known(v == 0), sf := Known(Sign(v)), cf := Known(false), gt := Unknown)
  }

  /** The flags after addition or subtraction, of which only the zero flag is followed. */
  function Arith(m: Machine, zero: bool): Machine {
    m.(zf := Known(zero), sf := Unknown, cf := Unknown, gt := Unknown)
  }

  /** A shift by zero leaves every flag; any other leaves none that is followed. */
  function Shifted(m: Machine, n: bv5): Machine {
    if n == 0 then m else m.(zf := Unknown, sf := Unknown, cf := Unknown, gt := Unknown)
  }

  /** A rotation changes no flag but carry and overflow. */
  function Rotated(m: Machine, n: bv5): Machine {
    if n == 0 then m else m.(cf := Unknown, gt := Unknown)
  }

  function ByFlag(m: Machine, f: Flag, c: Code): Machine {
    if f.Known? then m.(core := SetCode(m.core, c, f.on)) else m.(stuck := true)
  }

  function Through(m: Machine, r: Reg, n: nat): Machine {
    if n == 0 then m
    else if m.cf.Known? then
      var ring := RclTimes(Ring(m.cf.on, Get(m, r)), n);
      Put(m, r, ring.v).(cf := Known(ring.carry), gt := Unknown)
    else m.(stuck := true)
  }

  function StepMove(i: MoveIns, m: Machine): Machine {
    match i
    case Load(r, n) => if n < |m.core.d| then Put(m, r, m.core.d[n]) else m.(stuck := true)
    case Store(n, r) => if n < |m.core.d| then m.(core := m.core.(d := m.core.d[n := Get(m, r)])) else m.(stuck := true)
    case LoadByte(n) => if n < |m.core.d| then PutCl(m, LowByte(m.core.d[n])) else m.(stuck := true)
    case Imm(r, v) => Put(m, r, v)
    case Mov(r, s) => Put(m, r, Get(m, s))
    case MovByte(s) => PutCl(m, LowByte(Get(m, s)))
    case ImmByte(b) => PutCl(m, b)
    case Cmovz(r, s) =>
      if m.zf.Known? then (if m.zf.on then Put(m, r, Get(m, s)) else m) else m.(stuck := true)
    case Save(r) => m.(slot := Get(m, r))
    case Restore(r) => Put(m, r, m.slot)
    case StorePc(r) => m.(core := m.core.(pc := Get(m, r)))
  }

  function StepCalc(i: CalcIns, m: Machine): Machine {
    match i
    case AddStore(n, r) =>
      if n < |m.core.d| then
        var v := Add(m.core.d[n], Get(m, r));
        Arith(m.(core := m.core.(d := m.core.d[n := v])), v == 0)
      else m.(stuck := true)
    case AndByte(b) => var v := MaskByte(Cl(m), b); Arith(PutCl(m, v), v == 0)
    case SubByte(s) => var v := DiffByte(Cl(m), LowByte(Get(m, s))); Arith(PutCl(m, v), v == 0)
    case SubImmByte(b) => var v := DiffByte(Cl(m), b); Arith(PutCl(m, v), v == 0)
    case CmpByte(b) => Arith(m, Cl(m) == b).(gt := Known(GreaterByte(Cl(m), b)))
    case AndImm(r, v) => var w := And(Get(m, r), v); Logic(Put(m, r, w), w)
    case AndReg(r, s) => var w := And(Get(m, r), Get(m, s)); Logic(Put(m, r, w), w)
    case OrReg(r, s) => var w := Or(Get(m, r), Get(m, s)); Logic(Put(m, r, w), w)
    case XorReg(r, s) => var w := Xor(Get(m, r), Get(m, s)); Logic(Put(m, r, w), w)
    case NotReg(r) => Put(m, r, Invert(Get(m, r)))
    case SubReg(r, s) => var w := Sub(Get(m, r), Get(m, s)); Arith(Put(m, r, w), w == 0)
    case Test(r) => Logic(m, Get(m, r))
    case Bsr(r, s) =>
      var v := Get(m, s);
      if v == 0 then m.(stuck := true)
      else Put(m, r, Word(TopOne(v, 31))).(zf := Known(false), sf := Unknown, cf := Unknown, gt := Unknown)
  }

  function StepTurn(i: TurnIns, m: Machine): Machine {
    var n := Count(Cl(m));
    match i
    case Rol(r) => Rotated(Put(m, r, RotL(Get(m, r), n)), n)
    case Ror(r) => Rotated(Put(m, r, RotR(Get(m, r), n)), n)
    case Sal(r) => Shifted(Put(m, r, Shl32(Get(m, r), n)), n)
    case Shr(r) => Shifted(Put(m, r, Shr32(Get(m, r), n)), n)
    case Sar(r) => Shifted(Put(m, r, Sar32(Get(m, r), n)), n)
    case Rcl(r) => Through(m, r, n as nat)
    case RclImm(r, k) => Through(m, r, k % 32)
    case ShrDl => Arith(m.(edx := WithByte(m.edx, HalfByte(LowByte(m.edx)))), LowByte(m.edx) < 2)
                  .(cf := Known(OddByte(LowByte(m.edx))))
  }

  function StepFlags(i: FlagIns, m: Machine): Machine {
    match i
    case Setz(c) => ByFlag(m, m.zf, c)
    case Sets(c) => ByFlag(m, m.sf, c)
    case Setc(c) => ByFlag(m, m.cf, c)
    case Zero(c) => m.(core := SetCode(m.core, c, false))
    case LoadX => m.(edx := WithByte(m.edx, if m.core.X then 1 else 0))
    case StoreDl(c) => m.(core := SetCode(m.core, c, LowByte(m.edx) != 0))
  }

  /** One instruction; a jump changes nothing but the position. */
  function Step(i: Ins, m: Machine): Machine {
    match i
    case Move(x) => StepMove(x, m)
    case Calc(x) => StepCalc(x, m)
    case Turn(x) => StepTurn(x, m)
    case Flags(x) => StepFlags(x, m)
    case Jump(_) => m
  }

  /** How many instructions a jump skips. */
  function Skip(i: Ins): nat {
    if i.Jump? then i.jump.k else 0
  }

  /** Whether a jump is taken; Unknown when it reads an undefined flag. */
  function Taken(i: Ins, m: Machine): Flag {
    if !i.Jump? then Known(false) else
    match i.jump
    case Jnz(_) => if m.zf.Known? then Known(!m.zf.on) else Unknown
    case Jg(_) => m.gt
    case Jmp(_) => Known(true)
  }

  /** Running code from position pc to its end.  Jumps only go forward. */
  function Run(code: seq<Ins>, pc: nat, m: Machine): Machine
    decreases |code| - pc
  {
    if pc >= |code| || m.stuck then m
    else match Taken(code[pc], m)
      case Unknown => m.(stuck := true)
      case Known(on) => Run(code, pc + 1 + (if on then Skip(code[pc]) else 0), Step(code[pc], m))
  }

  // ---- Putting code together ----

  /** No jump leads beyond the end. */
  ghost predicate Closed(code: seq<Ins>) {
    forall pc :: 0 <= pc < |code| ==> pc + 1 + Skip(code[pc]) <= |code|
  }

  /** Code that follows runs in the machine that comes out of what precedes it. */
  lemma {:induction false} RunAppend(a: seq<Ins>, b: seq<Ins>, pc: nat, m: Machine)
    requires Closed(a) && pc <= |a|
    ensures Run(a + b, pc, m) == Run(b, 0, Run(a, pc, m))
    decreases |a| - pc
  {
    hide Step, Taken, Skip;
    if pc == |a| {
      RunShift(a, b, 0, m);
    } else if !m.stuck && Taken(a[pc], m).Known? {
      var next := pc + 1 + (if Taken(a[pc], m).on then Skip(a[pc]) else 0);
      RunAppend(a, b, next, Step(a[pc], m));
    }
  }

  /** What precedes the position does not matter. */
  lemma {:induction false} RunShift(a: seq<Ins>, b: seq<Ins>, pc: nat, m: Machine)
    ensures Run(a + b, |a| + pc, m) == Run(b, pc, m)
    decreases |b| - pc
  {
    hide Step, Taken, Skip;
    if pc < |b| && !m.stuck && Taken(b[pc], m).Known? {
      assert (a + b)[|a| + pc] == b[pc];
      var skip := if Taken(b[pc], m).on then Skip(b[pc]) else 0;
      RunShift(a, b, pc + 1 + skip, Step(b[pc], m));
      assert |a| + pc + 1 + skip == |a| + (pc + 1 + skip);
    }
  }

  lemma StraightClosed(code: seq<Ins>)
    requires forall pc :: 0 <= pc < |code| ==> !code[pc].Jump?
    ensures Closed(code)
  {}

  lemma ClosedAppend(a: seq<Ins>, b: seq<Ins>)
    requires Closed(a) && Closed(b)
    ensures Closed(a + b)
  {
    forall pc | 0 <= pc < |a + b| ensures pc + 1 + Skip((a + b)[pc]) <= |a + b| {
      if pc >= |a| {
        assert (a + b)[pc] == b[pc - |a|];
      }
    }
  }

  /** jit_if: a jump over t when the condition fails, t, a jump over f, and f. */
  function IfCode(jump: Ins, t: seq<Ins>, f: seq<Ins>): seq<Ins> {
    [jump] + t + [Jump(Jmp(|f|))] + f
  }

  /** Which of the two runs: f when the jump to ELSE is taken. */
  lemma RunIf(jump: Ins, t: seq<Ins>, f: seq<Ins>, m: Machine)
    requires jump == Jump(Jnz(|t| + 1)) || jump == Jump(Jg(|t| + 1))
    requires Closed(t) && !m.stuck && Taken(jump, m).Known?
    ensures Run(IfCode(jump, t, f), 0, m) == if Taken(jump, m).on then Run(f, 0, m) else Run(t, 0, m)
  {
    hide StepMove, StepCalc, StepTurn, StepFlags, Closed;
    var code := IfCode(jump, t, f);
    assert code[0] == jump;
    if Taken(jump, m).on {
      assert code == ([jump] + t + [Jump(Jmp(|f|))]) + f;
      RunShift([jump] + t + [Jump(Jmp(|f|))], f, 0, m);
    } else {
      var tail := [Jump(Jmp(|f|))] + f;
      assert code == [jump] + (t + tail);
      RunShift([jump], t + tail, 0, m);
      RunAppend(t, tail, 0, m);
      RunSkip(f, Run(t, 0, m));
    }
  }

  lemma RunSkip(f: seq<Ins>, m: Machine)
    ensures Run([Jump(Jmp(|f|))] + f, 0, m) == m
  {}

  lemma ClosedIf(jump: Ins, t: seq<Ins>, f: seq<Ins>)
    requires jump == Jump(Jnz(|t| + 1)) || jump == Jump(Jg(|t| + 1))
    requires Closed(t) && Closed(f)
    ensures Closed(IfCode(jump, t, f))
  {
    var code := IfCode(jump, t, f);
    forall pc | 0 <= pc < |code| ensures pc + 1 + Skip(code[pc]) <= |code| {
      if pc > |t| + 1 {
        assert code[pc] == f[pc - |t| - 2];
      } else if 0 < pc <= |t| {
        assert code[pc] == t[pc - 1];
      }
    }
  }

  lemma RunStep(code: seq<Ins>, pc: nat, m: Machine)
    requires pc < |code| && !m.stuck && !code[pc].Jump?
    ensures Run(code, pc, m) == Run(code, pc + 1, Step(code[pc], m))
  {
    hide Step;
  }

  lemma RunEnd(code: seq<Ins>, m: Machine)
    ensures Run(code, |code|, m) == m
  {}

  lemma RunOne(i: Ins, m: Machine)
    requires !i.Jump? && !m.stuck
    ensures Run([i], 0, m) == Step(i, m)
    ensures Closed([i])
  {
    hide Step;
    var code := [i];
    RunStep(code, 0, m);
    RunEnd(code, Step(i, m));
  }

  lemma RunTwo(i: Ins, j: Ins, m: Machine)
    requires !i.Jump? && !j.Jump? && !m.stuck && !Step(i, m).stuck
    ensures Run([i, j], 0, m) == Step(j, Step(i, m))
    ensures Closed([i, j])
  {
    hide Step;
    var code := [i, j];
    RunStep(code, 0, m);
    RunStep(code, 1, Step(i, m));
    RunEnd(code, Step(j, Step(i, m)));
  }

  lemma RunThree(i: Ins, j: Ins, k: Ins, m: Machine)
    requires !i.Jump? && !j.Jump? && !k.Jump?
    requires !m.stuck && !Step(i, m).stuck && !Step(j, Step(i, m)).stuck
    ensures Run([i, j, k], 0, m) == Step(k, Step(j, Step(i, m)))
    ensures Closed([i, j, k])
  {
    hide Step;
    var code := [i, j, k];
    RunStep(code, 0, m);
    RunStep(code, 1, Step(i, m));
    RunStep(code, 2, Step(j, Step(i, m)));
    RunEnd(code, Step(k, Step(j, Step(i, m))));
  }

  lemma StepAndReg(r: Reg, s: Reg, m: Machine)
    ensures Step(Calc(AndReg(r, s)), m) == Logic(Put(m, r, And(Get(m, r), Get(m, s))), And(Get(m, r), Get(m, s)))
  {
    hide And, Or, Xor, Sub, Logic, Put, Get;
  }

  lemma StepAndImm(r: Reg, v: bv32, m: Machine)
    ensures Step(Calc(AndImm(r, v)), m) == Logic(Put(m, r, And(Get(m, r), v)), And(Get(m, r), v))
  {
    hide And, Or, Xor, Sub, Logic, Put, Get;
  }

  lemma StepSubReg(r: Reg, s: Reg, m: Machine)
    ensures Step(Calc(SubReg(r, s)), m)
            == Arith(Put(m, r, Sub(Get(m, r), Get(m, s))), Sub(Get(m, r), Get(m, s)) == 0)
  {
    hide And, Or, Xor, Sub, Arith, Put, Get;
  }

  lemma StepBsr(r: Reg, s: Reg, m: Machine)
    requires Get(m, s) != 0
    ensures Step(Calc(Bsr(r, s)), m)
            == Put(m, r, Word(TopOne(Get(m, s), 31))).(zf := Known(false), sf := Unknown, cf := Unknown, gt := Unknown)
  {
    hide And, Or, Xor, Sub, TopOne, Word, Put, Get;
  }

  lemma StepRol(r: Reg, m: Machine)
    ensures Step(Turn(Rol(r)), m) == Rotated(Put(m, r, RotL(Get(m, r), Count(Cl(m)))), Count(Cl(m)))
  {
    hide RotL, RotR, Shl32, Shr32, Sar32, Rotated, Put, Get, Cl, Count;
  }

  lemma StepRor(r: Reg, m: Machine)
    ensures Step(Turn(Ror(r)), m) == Rotated(Put(m, r, RotR(Get(m, r), Count(Cl(m)))), Count(Cl(m)))
  {
    hide RotL, RotR, Shl32, Shr32, Sar32, Rotated, Put, Get, Cl, Count;
  }

  lemma StepShiftRight(r: Reg, m: Machine)
    ensures Step(Turn(Shr(r)), m) == Shifted(Put(m, r, Shr32(Get(m, r), Count(Cl(m)))), Count(Cl(m)))
    ensures Step(Turn(Sar(r)), m) == Shifted(Put(m, r, Sar32(Get(m, r), Count(Cl(m)))), Count(Cl(m)))
  {
    hide RotL, RotR, Shl32, Shr32, Sar32, Shifted, Put, Get, Cl, Count;
  }

  lemma StepXorReg(r: Reg, s: Reg, m: Machine)
    ensures Step(Calc(XorReg(r, s)), m) == Logic(Put(m, r, Xor(Get(m, r), Get(m, s))), Xor(Get(m, r), Get(m, s)))
  {
    hide And, Or, Xor, Sub, Logic, Put, Get;
  }

  lemma StepOrReg(r: Reg, s: Reg, m: Machine)
    ensures Step(Calc(OrReg(r, s)), m) == Logic(Put(m, r, Or(Get(m, r), Get(m, s))), Or(Get(m, r), Get(m, s)))
  {
    hide And, Or, Xor, Sub, Logic, Put, Get;
  }

  lemma StepNotReg(r: Reg, m: Machine)
    ensures Step(Calc(NotReg(r)), m) == Put(m, r, Invert(Get(m, r)))
  {
    hide And, Or, Xor, Sub, Invert, Put, Get;
  }

  lemma StepAddStore(n: nat, r: Reg, m: Machine)
    requires n < |m.core.d|
    ensures var v := Add(m.core.d[n], Get(m, r));
            Step(Calc(AddStore(n, r)), m) == Arith(m.(core := m.core.(d := m.core.d[n := v])), v == 0)
  {
    hide And, Or, Xor, Sub, Add, Get, Arith;
  }

  lemma StepMov(r: Reg, s: Reg, m: Machine)
    ensures Step(Move(Mov(r, s)), m) == Put(m, r, Get(m, s))
  {
    hide Put, Get;
  }

  lemma StepSave(r: Reg, m: Machine)
    ensures Step(Move(Save(r)), m) == m.(slot := Get(m, r))
    ensures Step(Move(Restore(r)), m) == Put(m, r, m.slot)
    ensures Step(Move(StorePc(r)), m) == m.(core := m.core.(pc := Get(m, r)))
  {
    hide Put, Get;
  }

  lemma StepImmByte(b: bv8, m: Machine)
    ensures Step(Move(ImmByte(b)), m) == PutCl(m, b)
  {
    hide Put, Get, PutCl;
  }

  lemma StepCmovz(r: Reg, s: Reg, m: Machine)
    requires m.zf.Known?
    ensures Step(Move(Cmovz(r, s)), m) == if m.zf.on then Put(m, r, Get(m, s)) else m
  {
    hide Put, Get;
  }

  lemma StepSubByte(s: Reg, m: Machine)
    ensures var v := DiffByte(Cl(m), LowByte(Get(m, s)));
            Step(Calc(SubByte(s)), m) == Arith(PutCl(m, v), v == 0)
  {
    hide And, Or, Xor, Sub, Get, Arith, PutCl, Cl, LowByte, DiffByte;
  }

  lemma StepSal(r: Reg, m: Machine)
    ensures Step(Turn(Sal(r)), m) == Shifted(Put(m, r, Shl32(Get(m, r), Count(Cl(m)))), Count(Cl(m)))
  {
    hide RotL, RotR, Shl32, Shr32, Sar32, Shifted, Put, Get, Cl, Count;
  }

  lemma StepFlag(c: Code, m: Machine)
    ensures Step(Flags(Setz(c)), m) == ByFlag(m, m.zf, c)
    ensures Step(Flags(Sets(c)), m) == ByFlag(m, m.sf, c)
  {
    hide ByFlag, SetCode;
  }

  lemma StepImm(r: Reg, v: bv32, m: Machine)
    ensures Step(Move(Imm(r, v)), m) == Put(m, r, v)
  {
    hide Put, Get;
  }

  lemma StepMovByte(s: Reg, m: Machine)
    ensures Step(Move(MovByte(s)), m) == PutCl(m, LowByte(Get(m, s)))
  {
    hide Put, Get, PutCl, LowByte;
  }

  lemma StepZero(c: Code, m: Machine)
    ensures Step(Flags(Zero(c)), m) == m.(core := SetCode(m.core, c, false))
  {
    hide ByFlag, SetCode;
  }

  lemma StepLoad(r: Reg, n: nat, m: Machine)
    requires n < |m.core.d|
    ensures Step(Move(Load(r, n)), m) == Put(m, r, m.core.d[n])
  {
    hide Put, Get;
  }

  lemma StepStore(n: nat, r: Reg, m: Machine)
    requires n < |m.core.d|
    ensures Step(Move(Store(n, r)), m) == m.(core := m.core.(d := m.core.d[n := Get(m, r)]))
  {
    hide Put, Get;
  }

  lemma StepLoadByte(n: nat, m: Machine)
    requires n < |m.core.d|
    ensures Step(Move(LoadByte(n)), m) == PutCl(m, LowByte(m.core.d[n]))
  {
    hide Put, Get, PutCl, LowByte;
  }

  lemma StepAndByte(b: bv8, m: Machine)
    ensures Step(Calc(AndByte(b)), m) == Arith(PutCl(m, MaskByte(Cl(m), b)), MaskByte(Cl(m), b) == 0)
  {
    hide And, Or, Xor, Sub, Arith, PutCl, Cl, MaskByte;
  }

  lemma StepSubImmByte(b: bv8, m: Machine)
    ensures Step(Calc(SubImmByte(b)), m) == Arith(PutCl(m, DiffByte(Cl(m), b)), DiffByte(Cl(m), b) == 0)
  {
    hide And, Or, Xor, Sub, Arith, PutCl, Cl, DiffByte;
  }

  lemma StepCmpByte(b: bv8, m: Machine)
    ensures Step(Calc(CmpByte(b)), m) == Arith(m, Cl(m) == b).(gt := Known(GreaterByte(Cl(m), b)))
  {
    hide And, Or, Xor, Sub, Arith, PutCl, Cl, GreaterByte;
  }

  lemma StepTest(r: Reg, m: Machine)
    ensures Step(Calc(Test(r)), m) == Logic(m, Get(m, r))
  {
    hide And, Or, Xor, Sub, Logic, Get;
  }

  lemma StepSetc(c: Code, m: Machine)
    ensures Step(Flags(Setc(c)), m) == ByFlag(m, m.cf, c)
  {
    hide ByFlag, SetCode;
  }

  lemma StepRcl(r: Reg, m: Machine)
    ensures Step(Turn(Rcl(r)), m) == Through(m, r, Count(Cl(m)) as nat)
  {
    hide RotL, RotR, Shl32, Shr32, Sar32, Through, Put, Get, Cl, Count;
  }

  lemma StepRclImm(r: Reg, k: nat, m: Machine)
    requires k < 32
    ensures Step(Turn(RclImm(r, k)), m) == Through(m, r, k)
  {
    hide RotL, RotR, Shl32, Shr32, Sar32, Through, Put, Get, Cl, Count;
  }

  function BoolByte(b: bool): bv8 { if b then 1 else 0 }

  lemma BoolBack(b: bool)
    ensures OddByte(BoolByte(b)) == b && (BoolByte(b) != 0) == b
  {}

  lemma StepLoadX(m: Machine)
    ensures Step(Flags(LoadX), m) == m.(edx := WithByte(m.edx, BoolByte(m.core.X)))
  {
    hide ByFlag, SetCode, WithByte;
  }

  lemma StepStoreDl(c: Code, m: Machine)
    ensures Step(Flags(StoreDl(c)), m) == m.(core := SetCode(m.core, c, LowByte(m.edx) != 0))
  {
    hide ByFlag, SetCode, WithByte, LowByte;
  }

  lemma StepShrDl(m: Machine)
    ensures var n := Step(Turn(ShrDl), m);
            n == m.(edx := n.edx, zf := n.zf, sf := Unknown, cf := Known(OddByte(LowByte(m.edx))), gt := Unknown)
  {
    hide RotL, RotR, Shl32, Shr32, Sar32, Through, Put, Get, Cl, Count, WithByte, LowByte, HalfByte, OddByte;
  }

  // ---- The assembler ----

  /** The buffer the translator appends to. */
  class Assembler {
    var code: seq<Ins>

    constructor ()
      ensures code == []
    {
      code := [];
    }

    method Append(ins: seq<Ins>)
      modifies `code
      ensures code == old(code) + ins
    {
      code := code + ins;
    }

    /** jit_if: the jump to ELSE, t, the jump to ENDIF, and f. */
    method JitIf(jump: Ins, t: seq<Ins>, f: seq<Ins>)
      modifies `code
      ensures code == old(code) + IfCode(jump, t, f)
    {
      Append([jump]);
      Append(t);
      Append([Jump(Jmp(|f|))]);
      Append(f);
    }
  }
}
