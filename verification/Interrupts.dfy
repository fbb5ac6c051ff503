/**
 Interrupts, which may push a second frame, and the exceptions of the floating point unit: what
 their frames hold, and what RTE makes of them.
 */
module Interrupts {
  import opened Addresses
  import opened ByteBus
  import opened Exceptions
  import opened ExceptionTheorems

  // ---- Interrupts ----

  function IrqVector(level: bv3): bv16 { Vector(24 + level as bv16) }

  /** 0x01 << 12 | n << 2, pushed as a long. */
  function Throwaway(level: bv3): bv32 { 0x1000 | (IrqVector(level) as bv32) }

  /** The three words of a short frame. */
  function PushShort(k: Stack, s: State): Stack { Push16(Push32(k, s.pc), Packed(s.sr)) }

  /** Supervisor mode at the interrupt's level, its frame on the supervisor's stack. */
  function IrqFirst(s: State, level: bv3, m: Words): (State, Words) {
    var t := Supervisor(s);
    var k := PushShort(Push16(Stack(m, t.a7), IrqVector(level)), s);
    (t.(sr := t.sr.(i := level), a7 := k.a), k.m)
  }

  /** M clear, the interrupt stack loaded, and a second frame on it. */
  function IrqSecond(s: State, level: bv3, t: State, m: Words): (State, Words) {
    var u := LoadSP(t.(sr := t.sr.(m := false)));
    var k := PushShort(Push32(Stack(m, u.a7), Throwaway(level)), s);
    (u.(a7 := k.a), k.m)
  }

  /** The processor and memory when the handler of an interrupt starts. */
  function Interrupted(s: State, level: bv3, m: Words, handler: bv32): (State, Words) {
    var (t, m1) := IrqFirst(s, level, m);
    var (u, m2) := if s.sr.m then IrqSecond(s, level, t, m1) else (t, m1);
    (u.(pc := handler), m2)
  }

  /** What RTE sees at the foot of the frame: without M a frame of the vector; with M, since the
      format word is pushed as a long, a frame of format 0 below it. */
  function SeenFrame(s: State, level: bv3): Frame {
    Short(if s.sr.m then 0 else 24 + level as bv16, s.pc)
  }

  /** Where the handler's stack starts. */
  function IrqFoot(s: State): bv32 { Back(s.isp, if s.sr.m then 10 else 8) }

  lemma SmallNumber(s: State, level: bv3)
    ensures ShortNumber(SeenFrame(s, level))
    ensures Vector(0) == 0 && HighHalf(Throwaway(level)) == 0
  {}

  lemma TenDown(a: bv32)
    ensures Along(Back(a, 10), 10) == a && Along(Back(a, 10), 8) == Back(a, 2)
  {}

  lemma WithoutM(s: State, level: bv3, m: Words, handler: bv32)
    requires !s.sr.m
    ensures var (e, me) := Interrupted(s, level, m, handler);
            e.a7 == IrqFoot(s) && e.sr.s && !e.sr.m && IsFrame(SeenFrame(s, level), s, me, e.a7)
            && Along(e.a7, 8) == s.isp
  {
    hide Along, Back, Push16, Push32, Word, Packed, HighHalf, LowHalf, Vector;
    EntryFrame(SeenFrame(s, level), s, m, handler);
    SuperIs(s);
  }

  lemma WithM(s: State, level: bv3, m: Words, handler: bv32)
    requires s.sr.m
    ensures var (e, me) := Interrupted(s, level, m, handler);
            e.a7 == IrqFoot(s) && e.sr.s && !e.sr.m && IsFrame(SeenFrame(s, level), s, me, e.a7)
            && Along(e.a7, 8) == Back(s.isp, 2)
  {
    hide Along, Back, Push16, Push32, Word, Packed, HighHalf, LowHalf, Vector, Throwaway, PushShort;
    var (t, m1) := IrqFirst(s, level, m);
    var a := Back(s.isp, 10);
    TenDown(s.isp);
    SmallNumber(s, level);
    SecondFrame(s, level, Stack(m1, s.isp), a);
  }

  /** The words of the second frame. */
  lemma SecondFrame(s: State, level: bv3, k: Stack, a: bv32)
    requires k.a == Along(a, 10)
    ensures var w := PushShort(Push32(k, Throwaway(level)), s);
            && w.a == a && Word(w.m, a, 0) == Packed(s.sr) && Word(w.m, a, 2) == HighHalf(s.pc)
            && Word(w.m, a, 4) == LowHalf(s.pc) && Word(w.m, a, 6) == HighHalf(Throwaway(level))
  {
    hide Along, Push16, Push32, Word, Packed, HighHalf, LowHalf, Throwaway;
    PushedLong(k, Throwaway(level), a, 6, 6);
    Below(a, Push32(k, Throwaway(level)), Push32(Push32(k, Throwaway(level)), s.pc), s.pc, Packed(s.sr));
  }

  /** The handler left the frame, the stack and the other stack pointers as they were on entry. */
  ghost predicate IrqDone(s: State, level: bv3, e: State, me: Words, h: State, mh: Words) {
    && h.a7 == e.a7 && h.sr.s && !h.sr.m && h.usp == s.usp && h.msp == s.msp
    && (IsFrame(SeenFrame(s, level), s, me, e.a7) ==> IsFrame(SeenFrame(s, level), s, mh, e.a7))
  }

  lemma Lowered(s: State, h: State, a: bv32)
    requires h.sr.s && !h.sr.m && h.usp == s.usp && h.msp == s.msp
    ensures var t := s.(isp := a);
            SetSR(h.(a7 := a), Packed(s.sr)) == h.(sr := s.sr, isp := a, a7 := Active(t))
  {
    hide Packed, Unpacked;
    PackedBack(s.sr);
  }

  /**
   An interrupt and the RTE that ends its handler: the status register with its mask and level, and
   all stack pointers come back, but for the interrupt stack pointer, which comes back if and only
   if M was clear; otherwise it is two lower, as the format word was pushed as a long.
   */
  lemma InterruptReturn(s: State, level: bv3, m: Words, handler: bv32, h: State, mh: Words)
    requires IrqDone(s, level, Interrupted(s, level, m, handler).0, Interrupted(s, level, m, handler).1, h, mh)
    ensures var isp := if s.sr.m then Back(s.isp, 2) else s.isp;
            Rte(h, mh) == Jumped(h.(sr := s.sr, isp := isp, a7 := Active(s.(isp := isp))), Short32(s.pc))
    ensures s.sr.m ==> Active(s.(isp := Back(s.isp, 2))) == if s.sr.s then s.msp else s.usp
    ensures (if s.sr.m then Back(s.isp, 2) else s.isp) == s.isp <==> !s.sr.m
  {
    hide Interrupted, Along, IsFrame, SetSR, Packed, Rte, Jumped, Short32, ShortNumber;
    SmallNumber(s, level);
    NotSame(s.isp);
    if s.sr.m {
      WithM(s, level, m, handler);
    } else {
      WithoutM(s, level, m, handler);
    }
    RteOfFrame(SeenFrame(s, level), s, h, mh);
    Lowered(s, h, Along(h.a7, 8));
  }

  lemma NotSame(a: bv32)
    ensures Back(a, 2) != a
  {}

  /** A handler that does nothing but return meets the hypothesis. */
  lemma IdleIrq(s: State, level: bv3, m: Words, handler: bv32)
    ensures var (e, me) := Interrupted(s, level, m, handler); IrqDone(s, level, e, me, e, me)
  {
    if s.sr.m {
      WithM(s, level, m, handler);
    } else {
      WithoutM(s, level, m, handler);
    }
    hide PushShort, Push16, Push32, IsFrame, Throwaway, IrqVector;
  }

  /** An interrupt: the processor when it is taken, and at the RTE of its handler. */
  datatype IrqTrip = IrqTrip(s: State, level: bv3, words: Words, handler: bv32, h: State, mh: Words)

  /** One with M set, and its handler. */
  ghost predicate Mastered(t: IrqTrip) {
    var (e, me) := Interrupted(t.s, t.level, t.words, t.handler);
    t.s.sr.m && IrqDone(t.s, t.level, e, me, t.h, t.mh)
  }

  /** The interrupt stack pointer after the return. */
  function IspAfter(t: IrqTrip): bv32 {
    match Rte(t.h, t.mh)
    case FormatError => t.h.isp
    case r => r.s.isp
  }

  function Drifted(a: bv32, n: nat): bv32
    decreases n
  {
    if n == 0 then a else Drifted(Back(a, 2), n - 1)
  }

  lemma OneDrift(t: IrqTrip)
    requires Mastered(t)
    ensures IspAfter(t) == Back(t.s.isp, 2)
  {
    hide Interrupted, IrqDone, Rte, OddPc, Short32, Active, Back;
    InterruptReturn(t.s, t.level, t.words, t.handler, t.h, t.mh);
  }

  /** However many interrupts are taken with M set, whatever runs between them without touching the
      interrupt stack pointer: each lowers it by two more. */
  lemma {:induction false} InterruptDrift(trips: seq<IrqTrip>)
    requires trips != [] && forall i :: 0 <= i < |trips| ==> Mastered(trips[i])
    requires forall i :: 0 < i < |trips| ==> trips[i].s.isp == IspAfter(trips[i - 1])
    ensures IspAfter(trips[|trips| - 1]) == Drifted(trips[0].s.isp, |trips|)
  {
    hide Mastered, IspAfter, Back;
    OneDrift(trips[0]);
    if |trips| > 1 {
      var rest := trips[1..];
      assert forall i :: 0 < i < |rest| ==> rest[i].s.isp == trips[i + 1].s.isp && rest[i - 1] == trips[i];
      InterruptDrift(rest);
    }
  }

  // ---- Floating point exceptions ----

  function FloatVector(n: bv16): bv16 { 0x3000 | (n << 2) }

  /** EXCEPTION3 is handed oldpc where it takes the status register. */
  function FloatFrame(s: State, n: bv16, k: Stack): Stack {
    Push16(Push32(Push16(Push32(k, s.ea), FloatVector(n)), s.pc), LowHalf(s.oldpc))
  }

  function FloatEntered(s: State, n: bv16, m: Words, handler: bv32): (State, Words) {
    var t := Supervisor(s);
    var k := FloatFrame(s, n, Stack(m, t.a7));
    (t.(a7 := k.a, pc := handler), k.m)
  }

  ghost predicate IsFloat(s: State, n: bv16, m: Words, a: bv32) {
    && Word(m, a, 0) == LowHalf(s.oldpc)
    && Word(m, a, 2) == HighHalf(s.pc) && Word(m, a, 4) == LowHalf(s.pc) && Word(m, a, 6) == FloatVector(n)
  }

  lemma TwelveDown(a: bv32)
    ensures Along(Back(a, 12), 12) == a
  {}

  lemma FloatPushed(s: State, n: bv16, m: Words, handler: bv32)
    ensures var (e, me) := FloatEntered(s, n, m, handler);
            Along(e.a7, 12) == Super(s) && IsFloat(s, n, me, e.a7)
  {
    hide Along, Back, Push16, Push32, Word, HighHalf, LowHalf, FloatVector;
    var k := Stack(m, Super(s));
    var a := Back(Super(s), 12);
    TwelveDown(Super(s));
    PushedLong(k, s.ea, a, 8, 8);
    var k1 := Push32(k, s.ea);
    Pushed(k1, FloatVector(n), a, 6, 6);
    var k2 := Push16(k1, FloatVector(n));
    Below(a, k2, Push32(k2, s.pc), s.pc, LowHalf(s.oldpc));
  }

  ghost predicate FloatDone(s: State, n: bv16, e: State, me: Words, h: State, mh: Words) {
    && h.a7 == e.a7 && h.sr.s && h.sr.m == s.sr.m
    && h.usp == s.usp && (if s.sr.m then h.isp == s.isp else h.msp == s.msp)
    && (IsFloat(s, n, me, e.a7) ==> IsFloat(s, n, mh, e.a7))
  }

  lemma FloatFormat(n: bv16)
    requires n < 0x400
    ensures Format(FloatVector(n)) == 3
  {}

  lemma Then12(a: bv32)
    ensures Along(Along(a, 8), 4) == Along(a, 12)
  {}

  /** RTE on such a frame takes the status register from oldpc. */
  lemma RteFloat(s: State, n: bv16, h: State, m: Words)
    requires n < 0x400 && IsFloat(s, n, m, h.a7)
    ensures Rte(h, m) == Jumped(SetSR(h.(a7 := Along(h.a7, 12)), LowHalf(s.oldpc)), Short32(s.pc))
  {
    hide Along, Word, HighHalf, LowHalf, Joined, Format, Short32, SetSR, Jumped, FloatVector;
    var a := h.a7;
    RteReads(a);
    Then12(a);
    FloatFormat(n);
    WordAlong(m, Along(a, 2), a, 0, 2);
    WordAlong(m, Along(a, 2), a, 2, 4);
    WordAlong(m, Along(a, 6), a, 0, 6);
    JoinHalves(s.pc);
  }

  lemma SetRestored(s: State, h: State, w: bv16)
    requires h.sr.s && h.sr.m == s.sr.m && h.a7 == Super(s)
    requires h.usp == s.usp && (if s.sr.m then h.isp == s.isp else h.msp == s.msp)
    ensures var t := h.(sr := Unpacked(w), usp := s.usp, isp := s.isp, msp := s.msp);
            SetSR(h, w) == t.(a7 := Active(t))
  {
    hide Unpacked, SaveSP, Super;
    ExceptionTheorems.Saved(s, h);
  }

  lemma IdleFloat(s: State, n: bv16, m: Words, handler: bv32)
    ensures var (e, me) := FloatEntered(s, n, m, handler); FloatDone(s, n, e, me, e, me)
  {
    hide FloatFrame, IsFloat;
  }

  /** The banked stack pointers as they were, and a status register taken from oldpc. */
  function FloatBack(s: State, h: State): State {
    var t := h.(sr := Unpacked(LowHalf(s.oldpc)), usp := s.usp, isp := s.isp, msp := s.msp);
    t.(a7 := Active(t))
  }

  lemma FloatRestored(s: State, h: State, end: bv32)
    requires h.sr.s && h.sr.m == s.sr.m && end == Super(s)
    requires h.usp == s.usp && (if s.sr.m then h.isp == s.isp else h.msp == s.msp)
    ensures SetSR(h.(a7 := end), LowHalf(s.oldpc)) == FloatBack(s, h)
  {
    hide SetSR, LowHalf, Unpacked, Active, Super;
    SetRestored(s, h.(a7 := end), LowHalf(s.oldpc));
    ActiveIgnores(h.(sr := Unpacked(LowHalf(s.oldpc)), usp := s.usp, isp := s.isp, msp := s.msp), end);
  }

  /**
   A floating point exception and the RTE that ends its handler: the banked stack pointers come
   back, and the status register is the low half of the address of the instruction; so it comes
   back if and only if that address happens to hold it.
   */
  lemma FloatReturn(s: State, n: bv16, m: Words, handler: bv32, h: State, mh: Words)
    requires n < 0x400
    requires FloatDone(s, n, FloatEntered(s, n, m, handler).0, FloatEntered(s, n, m, handler).1, h, mh)
    ensures Rte(h, mh) == Jumped(FloatBack(s, h), Short32(s.pc))
    ensures !Rte(h, mh).FormatError? && (Rte(h, mh).s.sr == s.sr <==> Unpacked(LowHalf(s.oldpc)) == s.sr)
  {
    hide FloatEntered, Along, IsFloat, SetSR, Rte, Short32, LowHalf, Unpacked, Super, Jumped, Active;
    FloatPushed(s, n, m, handler);
    RteFloat(s, n, h, mh);
    FloatRestored(s, h, Along(h.a7, 12));
    JumpedFields(FloatBack(s, h), Short32(s.pc));
  }

  lemma ActiveIgnores(t: State, a: bv32)
    ensures Active(t.(a7 := a)) == Active(t)
  {}
}
