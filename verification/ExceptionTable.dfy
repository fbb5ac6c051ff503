/**
 The switch of handle_exception: which frame every exception number gets, where RTE will go on from
 it, and what the handler finds, in numbers.
 */
module ExceptionTable {
  import opened Addresses
  import NumberFacts
  import opened Exceptions
  import opened ExceptionTheorems
  import opened Interrupts
  import opened FrameTables

  /** The exceptions that something raises. */
  predicate Raised(n: bv16) { 2 <= n <= 11 || n == 14 || 24 <= n <= 55 }

  predicate Irq(n: bv16) { 24 <= n <= 31 }
  predicate Float(n: bv16) { 48 <= n <= 55 }

  /** ADDR_ERR's address, made even. */
  function Even(a: bv32): bv32 { a & 0xFFFF_FFFE }

  /** The frame of an exception that is no interrupt and not of the floating point unit. */
  function FrameOf(n: bv16, s: State): Frame {
    if n == 2 then Access
    else if n == 3 then Long(3, Even(s.exAddr), s.oldpc)
    else if n == 4 || n == 8 || n == 10 || n == 11 || n == 14 then Short(n, s.oldpc)
    else if 32 <= n <= 47 then Short(n, s.pc)
    else Long(n, s.oldpc, s.pc)
  }

  function Level(n: bv16): bv3
    requires Irq(n)
  {
    (n - 24) as bv3
  }

  /** The processor and memory when the handler starts. */
  function Handled(n: bv16, s: State, m: Words, handler: bv32): (State, Words)
    requires Raised(n)
  {
    if Irq(n) then Interrupted(s, Level(n), m, handler)
    else if Float(n) then FloatEntered(s, n, m, handler)
    else Entered(s, FrameOf(n, s), m, handler)
  }

  // ---- In numbers ----

  /** Faults, illegal instructions and privilege violations are returned to, traps, interrupts and
      arithmetic exceptions passed over. */
  function NextOf(n: bv16, s: State): bv32 {
    if n == 2 || n == 3 || n == 4 || n == 8 || n == 10 || n == 11 || n == 14 then s.oldpc else s.pc
  }

  /** Numbers whose frame has format 2. */
  predicate WithAddress(n: bv16) { n == 3 || n == 5 || n == 6 || n == 7 || n == 9 }

  /** Format and vector, the word at offset 6. */
  function FormatWord(n: bv16): bv16 {
    if n == 2 then 0x7008 else if WithAddress(n) then 0x2000 + 4 * n else if n >= 48 then 0x3000 + 4 * n else 4 * n
  }

  function FrameSize(n: bv16): bv32 { if n == 2 then 60 else if WithAddress(n) || n >= 48 then 12 else 8 }

  function EvenBelow(a: bv32): bv32 { a - a % 2 }

  /** The address at offset 8 of formats 2 and 3. */
  function AddressOf(n: bv16, s: State): bv32 {
    if n == 3 then EvenBelow(s.exAddr) else if n >= 48 then s.ea else s.oldpc
  }

  function LevelOf(n: bv16, s: State): bv16 { if Irq(n) then n - 24 else s.sr.i as bv16 }

  lemma EvenNumber(a: bv32)
    ensures Even(a) == EvenBelow(a)
  {}

  lemma LevelNumber(n: bv16)
    requires Irq(n)
    ensures Level(n) as bv16 == n - 24 && 24 + (Level(n) as bv16) == n
  {}

  lemma NumberSmall(n: bv16)
    requires Raised(n)
    ensures n < 0x400
  {}

  /** A frame at the foot of the supervisor's stack: status register, next program counter, format and
      vector, and address. */
  ghost predicate Framed(n: bv16, s: State, t: State, m: Words) {
    && Along(t.a7, FrameSize(n)) == MasterOr(s)
    && ShortTable(m, t.a7, if n >= 48 then LowWord(s.oldpc) else StatusNumber(s.sr), NextOf(n, s), FormatWord(n))
    && (WithAddress(n) || n >= 48 ==> LongAt(m, t.a7, 8) == AddressOf(n, s))
  }

  lemma ShortFramed(n: bv16, s: State, m: Words, handler: bv32)
    requires Raised(n) && n != 2 && !WithAddress(n) && !Float(n) && !Irq(n)
    ensures var (t, m') := Handled(n, s, m, handler);
            Framed(n, s, t, m') && Started(s, t, handler, s.sr.i, s.sr.m)
  {
    hide Entered, ShortTable, Started, MasterOr, StatusNumber, LongAt, LowWord, Along, OnlyAt;
    NumberSmall(n);
    ShortEntry(n, NextOf(n, s), s, m, handler);
  }

  lemma LongFramed(n: bv16, s: State, m: Words, handler: bv32)
    requires WithAddress(n)
    ensures var (t, m') := Handled(n, s, m, handler);
            Framed(n, s, t, m') && Started(s, t, handler, s.sr.i, s.sr.m)
  {
    hide Entered, ShortTable, Started, MasterOr, StatusNumber, LongAt, LowWord, Along, OnlyAt, Even, EvenBelow;
    NumberSmall(n);
    EvenNumber(s.exAddr);
    LongEntry(n, AddressOf(n, s), NextOf(n, s), s, m, handler);
  }

  lemma FloatFramed(n: bv16, s: State, m: Words, handler: bv32)
    requires Float(n)
    ensures var (t, m') := Handled(n, s, m, handler);
            Framed(n, s, t, m') && Started(s, t, handler, s.sr.i, s.sr.m)
  {
    hide FloatEntered, ShortTable, Started, MasterOr, StatusNumber, LongAt, LowWord, Along, OnlyAt;
    NumberSmall(n);
    FloatEntry(s, n, m, handler);
  }

  lemma AccessFramed(s: State, m: Words, handler: bv32)
    ensures var (t, m') := Handled(2, s, m, handler);
            Framed(2, s, t, m') && Started(s, t, handler, s.sr.i, s.sr.m)
  {
    hide Entered, ShortTable, Started, MasterOr, StatusNumber, LongAt, LowWord, Along, OnlyAt, StatusPushed;
    AccessEntry(s, m, handler);
  }

  lemma IrqFramed(n: bv16, s: State, m: Words, handler: bv32)
    requires Irq(n) && !s.sr.m
    ensures var (t, m') := Handled(n, s, m, handler);
            Framed(n, s, t, m') && Started(s, t, handler, Level(n), false)
  {
    hide Interrupted, ShortTable, Started, StatusNumber, LongAt, LowWord, Along, OnlyAt, Level;
    LevelNumber(n);
    IrqEntry(s, Level(n), m, handler);
  }

  /** Every exception that is raised, but for an interrupt with M set. */
  lemma EveryFrame(n: bv16, s: State, m: Words, handler: bv32)
    requires Raised(n) && !(Irq(n) && s.sr.m)
    ensures var (t, m') := Handled(n, s, m, handler);
            && Framed(n, s, t, m')
            && Started(s, t, handler, t.sr.i, s.sr.m) && t.sr.i as bv16 == LevelOf(n, s)
  {
    hide Handled, Framed, MasterOr, Level;
    if n == 2 {
      AccessFramed(s, m, handler);
    } else if WithAddress(n) {
      LongFramed(n, s, m, handler);
    } else if Float(n) {
      FloatFramed(n, s, m, handler);
    } else if Irq(n) {
      LevelNumber(n);
      IrqFramed(n, s, m, handler);
    } else {
      ShortFramed(n, s, m, handler);
    }
  }

  // ---- And back ----

  /** The handler leaves the frame and the other stack pointers as they were. */
  ghost predicate Done(n: bv16, s: State, m: Words, handler: bv32, h: State, mh: Words)
    requires Raised(n)
  {
    var (t, m') := Handled(n, s, m, handler);
    if Irq(n) then IrqDone(s, Level(n), t, m', h, mh)
    else if Float(n) then FloatDone(s, n, t, m', h, mh)
    else HandlerDone(FrameOf(n, s), s, t, m', h, mh)
  }

  function LowPart(v: bv32): bv32 { v % 0x1_0000 }
  predicate OddNumber(v: bv32) { v % 2 == 1 }

  /** Where RTE goes on, and what comes back. */
  ghost predicate GoesOn(n: bv16, s: State, x: Returned) {
    var pc := LowPart(NextOf(n, s));
    && (if OddNumber(pc) then x.OddAddress? && x.addr == pc else x.Resumed? && x.s.pc == pc)
    && x.s.usp == s.usp && x.s.msp == s.msp
    && ((Irq(n) && s.sr.m) || x.s.isp == s.isp)
    && (Float(n) || x.s.sr == s.sr)
  }

  lemma PcNumbers(v: bv32)
    ensures Short32(v) == LowPart(v) && (OddPc(v) <==> OddNumber(v))
  {
    TestedNumbers(0, v);
  }

  lemma FrameNext(n: bv16, s: State)
    requires Raised(n) && !Irq(n) && !Float(n)
    ensures NextPc(FrameOf(n, s), s) == NextOf(n, s) && ShortNumber(FrameOf(n, s))
    ensures FrameOf(n, s).Access? <==> n == 2
  {}

  lemma NotTraced(s: State)
    requires !s.mustTrace && s.ssw / 0x2000 % 2 == 0
    ensures !Traced(PushedSsw(s))
  {
    TestedNumbers(s.ssw, 0);
    assert s.ssw / 0x2000 % 2 != 1;
    hide Traced;
  }

  lemma IrqGoesOn(n: bv16, s: State, m: Words, handler: bv32, h: State, mh: Words)
    requires Irq(n) && Done(n, s, m, handler, h, mh)
    ensures GoesOn(n, s, Rte(h, mh))
  {
    hide Interrupted, IrqDone, Rte, Short32, OddPc, LowPart, OddNumber, Level, Jumped, Active, Back;
    InterruptReturn(s, Level(n), m, handler, h, mh);
    var isp := if s.sr.m then Back(s.isp, 2) else s.isp;
    JumpedFields(h.(sr := s.sr, isp := isp, a7 := Active(s.(isp := isp))), Short32(s.pc));
    InterruptKeeps(s, Level(n), m, handler, h, mh);
    PcNumbers(s.pc);
    PcNumbers(LowPart(s.pc));
  }

  lemma InterruptKeeps(s: State, level: bv3, m: Words, handler: bv32, h: State, mh: Words)
    requires IrqDone(s, level, Interrupted(s, level, m, handler).0, Interrupted(s, level, m, handler).1, h, mh)
    ensures h.usp == s.usp && h.msp == s.msp
  {
    hide Interrupted, IsFrame;
  }

  lemma FloatGoesOn(n: bv16, s: State, m: Words, handler: bv32, h: State, mh: Words)
    requires Float(n) && Done(n, s, m, handler, h, mh)
    ensures GoesOn(n, s, Rte(h, mh))
  {
    hide FloatEntered, FloatDone, Rte, Short32, OddPc, LowPart, OddNumber, Jumped, Active, Unpacked, LowHalf;
    NumberSmall(n);
    FloatReturn(s, n, m, handler, h, mh);
    JumpedFields(FloatBack(s, h), Short32(s.pc));
    PcNumbers(s.pc);
    PcNumbers(LowPart(s.pc));
  }

  lemma EntryGoesOn(n: bv16, s: State, m: Words, handler: bv32, h: State, mh: Words)
    requires Raised(n) && !Irq(n) && !Float(n) && Done(n, s, m, handler, h, mh)
    requires n == 2 ==> !s.mustTrace && s.ssw / 0x2000 % 2 == 0
    ensures GoesOn(n, s, Rte(h, mh))
  {
    hide Entered, HandlerDone, Rte, Short32, OddPc, LowPart, OddNumber, NextOf, FrameOf, PushedSsw, Traced, ShortNumber,
         Active, NextPc, MovemFault;
    FrameNext(n, s);
    if n == 2 {
      NotTraced(s);
    }
    EnterAndReturn(FrameOf(n, s), s, m, handler, h, mh);
    PcNumbers(NextOf(n, s));
    PcNumbers(LowPart(NextOf(n, s)));
  }

  /** Every exception, its handler and RTE: on to the instruction that faulted or to the next, modulo
      2^16, with the stack pointers and the status register back, but for the interrupt stack pointer
      after an interrupt with M, and the status register after a floating point exception. */
  lemma EveryReturn(n: bv16, s: State, m: Words, handler: bv32, h: State, mh: Words)
    requires Raised(n) && Done(n, s, m, handler, h, mh)
    requires n == 2 ==> !s.mustTrace && s.ssw / 0x2000 % 2 == 0
    ensures GoesOn(n, s, Rte(h, mh))
  {
    hide Done, GoesOn;
    if Irq(n) {
      IrqGoesOn(n, s, m, handler, h, mh);
    } else if Float(n) {
      FloatGoesOn(n, s, m, handler, h, mh);
    } else {
      EntryGoesOn(n, s, m, handler, h, mh);
    }
  }

  // ---- Access faults ----

  /** What was being accessed: SSW's TT, LK, RW, SIZ and TM. */
  datatype Touch = Touch(tt: bv16, lock: bool, read: bool, size: bv16, space: bv16)

  /** SIZ is 0 for a long, 1 a byte, 2 a word, 3 a line. */
  predicate Sound(code: bv16, a: Touch) {
    code % 0x400 == 0 && code < 0x1000 && a.tt % 8 == 0 && a.tt < 0x20 && a.size < 4 && a.space < 8
  }

  /** ACCESS_FAULT's special status word, on top of the code of the translation. */
  function FaultWord(code: bv16, movem: bool, a: Touch): bv16 {
    FaultBits(code, Bit16(movem), a.tt, Bit16(a.lock), Bit16(a.read), a.size, a.space)
  }

  /** w with v in its bits from k on. */
  function With(w: bv16, v: bv16, k: bv4): bv16 { w | (v << k) }

  function FaultBits(code: bv16, cm: bv16, tt: bv16, lock: bv16, read: bv16, size: bv16, space: bv16): bv16 {
    With(With(With(With(With(With(code, cm, 12), tt, 0), lock, 9), read, 8), size, 5), space, 0)
  }

  lemma WithNothing(w: bv16)
    ensures With(w, 0, 12) == w
  {}

  /** The same in numbers. */
  function FaultNumber(code: bv16, movem: bool, a: Touch): bv16 {
    FaultSum(code, One(movem), a.tt, One(a.lock), One(a.read), a.size, a.space)
  }

  function FaultSum(code: bv16, cm: bv16, tt: bv16, lock: bv16, read: bv16, size: bv16, space: bv16): bv16 {
    code + 0x1000 * cm + 0x200 * lock + 0x100 * read + 0x20 * size + tt + space
  }

  lemma SumIsBits(code: bv16, cm: bv16, tt: bv16, lock: bv16, read: bv16, size: bv16, space: bv16)
    requires code % 0x400 == 0 && code < 0x1000 && cm <= 1 && tt % 8 == 0 && tt < 0x20 && lock <= 1 && read <= 1
    requires size < 4 && space < 8
    ensures FaultBits(code, cm, tt, lock, read, size, space) == FaultSum(code, cm, tt, lock, read, size, space)
    ensures FaultSum(code, cm, tt, lock, read, size, space) >= 0x1000 <==> cm == 1
    ensures FaultSum(code, cm, tt, lock, read, size, space) / 0x2000 % 2 == 0
  {
    NumberFacts.FaultSum(code, cm, tt, lock, read, size, space);
    NumberFacts.FaultParts(code, cm, tt, lock, read, size, space);
  }

  lemma FaultWordNumber(code: bv16, movem: bool, a: Touch)
    requires Sound(code, a)
    ensures FaultWord(code, movem, a) == FaultNumber(code, movem, a)
    ensures FaultNumber(code, movem, a) >= 0x1000 <==> movem
    ensures FaultNumber(code, movem, a) / 0x2000 % 2 == 0
  {
    hide FaultBits, FaultSum, Bit16, One;
    forall b: bool ensures One(b) <= 1 && Bit16(b) == One(b) && (One(b) == 1 <==> b) {
      OneSmall(b);
      OneIs(b);
    }
    SumIsBits(code, One(movem), a.tt, One(a.lock), One(a.read), a.size, a.space);
  }

  lemma OneIs(b: bool)
    ensures One(b) == 1 <==> b
  {}

  /** The processor when the fault is raised. */
  function Faulted(s: State, addr: bv32, code: bv16, a: Touch): State {
    s.(exAddr := addr, ssw := FaultWord(code, s.movemRun, a))
  }

  /** What a page-fault handler finds: the status word in numbers at 12, the address at 20, EA at 8 for a
      MOVEM under way, and the instruction to go back to. */
  lemma FaultFound(s: State, addr: bv32, code: bv16, a: Touch, m: Words, handler: bv32)
    requires Sound(code, a) && !s.mustTrace
    ensures var (t, m') := Handled(2, Faulted(s, addr, code, a), m, handler);
            && AccessTable(m', t.a7, StatusNumber(s.sr), s.oldpc, if s.movemRun then s.ea else 0,
                           FaultNumber(code, s.movemRun, a), addr)
            && Along(t.a7, 60) == MasterOr(s) && OnlyAt(m, m', t.a7, {0, 2, 4, 6, 8, 10, 12, 20, 22})
            && t.pc == handler
  {
    hide Entered, AccessTable, StatusNumber, Along, OnlyAt, FaultWord, FaultNumber, Sound;
    FaultWordNumber(code, s.movemRun, a);
    AccessEntry(Faulted(s, addr, code, a), m, handler);
  }
}
