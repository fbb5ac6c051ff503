/** An exception entered and returned from: what the processor gets back. */
module ExceptionTheorems {
  import opened Addresses
  import opened ByteBus
  import opened Exceptions

  function SizeOf(f: Frame): bv32 {
    match f
    case Short(_, _) => 8
    case Long(_, _, _) => 12
    case Access => 60
  }

  function VecOf(f: Frame): bv16 {
    match f
    case Short(n, _) => Vector(n)
    case Long(n, _, _) => LongVector(n)
    case Access => 0x7008
  }

  function PushedEa(s: State): bv32 { if Continues(PushedSsw(s)) then s.ea else 0 }

  /** The foot of a frame pushed from a on. */
  function Foot(f: Frame, a: bv32): bv32 { Back(a, SizeOf(f)) }

  lemma FootIs(f: Frame, a: bv32)
    ensures Along(Foot(f, a), SizeOf(f)) == a
  {
    hide Along, Back, SizeOf;
    BackIs(a, SizeOf(f));
    BackSame(a, SizeOf(f));
  }

  lemma ShortUpper(n: bv16, next: bv32, s: State, k: Stack, f: bv32)
    requires k.a == Along(f, 8)
    ensures var u := Upper(Short(n, next), s, k);
            u.a == Along(f, 6) && Word(u.m, f, 6) == Vector(n)
  {
    hide Along, Push16, Word, Vector;
    Pushed(k, Vector(n), f, 6, 6);
  }

  lemma LongUpper(n: bv16, addr: bv32, next: bv32, s: State, k: Stack, f: bv32)
    requires k.a == Along(f, 12)
    ensures var u := Upper(Long(n, addr, next), s, k);
            u.a == Along(f, 6) && Word(u.m, f, 6) == LongVector(n)
  {
    hide Along, Push16, Push32, Word, LongVector;
    PushedLong(k, addr, f, 8, 8);
    Pushed(Push32(k, addr), LongVector(n), f, 6, 6);
  }

  lemma AccessUpper(s: State, k: Stack, f: bv32)
    requires k.a == Along(f, 60)
    ensures var u := Upper(Access, s, k);
            && u.a == Along(f, 6) && Word(u.m, f, 6) == 0x7008
            && Word(u.m, f, 8) == HighHalf(PushedEa(s)) && Word(u.m, f, 10) == LowHalf(PushedEa(s))
            && Word(u.m, f, 12) == PushedSsw(s)
  {
    hide Along, Push16, Push32, Word, Back, PushedSsw, Continues, HighHalf, LowHalf;
    Skip36(f);
    Skip6(f);
    var k0 := k.(a := Back(k.a, 36));
    var k1 := Push32(k0, s.exAddr);
    PushedLong(k0, s.exAddr, f, 20, 20);
    var k2 := Push16(k1.(a := Back(k1.a, 6)), PushedSsw(s));
    Pushed(k1.(a := Back(k1.a, 6)), PushedSsw(s), f, 12, 12);
    var k3 := Push32(k2, PushedEa(s));
    PushedLong(k2, PushedEa(s), f, 8, 8);
    PushedLong(k2, PushedEa(s), f, 8, 10);
    PushedLong(k2, PushedEa(s), f, 8, 12);
    Pushed(k3, 0x7008, f, 6, 6);
    Pushed(k3, 0x7008, f, 6, 8);
    Pushed(k3, 0x7008, f, 6, 10);
    Pushed(k3, 0x7008, f, 6, 12);
  }

  lemma UpperAt(f: Frame, s: State, k: Stack, a: bv32)
    requires k.a == Along(a, SizeOf(f))
    ensures var u := Upper(f, s, k);
            && u.a == Along(a, 6) && Word(u.m, a, 6) == VecOf(f)
            && (f.Access? ==> Word(u.m, a, 8) == HighHalf(PushedEa(s)) && Word(u.m, a, 10) == LowHalf(PushedEa(s))
                              && Word(u.m, a, 12) == PushedSsw(s))
  {
    hide Upper, Word, Along, Vector, LongVector, PushedEa, PushedSsw, HighHalf, LowHalf;
    match f
    case Short(n, next) => ShortUpper(n, next, s, k, a);
    case Long(n, addr, next) => LongUpper(n, addr, next, s, k, a);
    case Access => AccessUpper(s, k, a);
  }

  /** Every word of the frame that RTE reads. */
  ghost predicate IsFrame(f: Frame, s: State, m: Words, a: bv32) {
    && Word(m, a, 0) == Packed(s.sr)
    && Word(m, a, 2) == HighHalf(NextPc(f, s)) && Word(m, a, 4) == LowHalf(NextPc(f, s))
    && Word(m, a, 6) == VecOf(f)
    && (f.Access? ==> Word(m, a, 8) == HighHalf(PushedEa(s)) && Word(m, a, 10) == LowHalf(PushedEa(s))
                      && Word(m, a, 12) == PushedSsw(s))
  }

  /** Entry pushes the frame below the supervisor's stack pointer. */
  lemma EntryFrame(f: Frame, s: State, m: Words, handler: bv32)
    ensures var (t, n) := Entered(s, f, m, handler);
            && t.a7 == Foot(f, Supervisor(s).a7) && Along(t.a7, SizeOf(f)) == Supervisor(s).a7
            && IsFrame(f, s, n, t.a7)
  {
    hide Along, Push16, Push32, Word, Upper, Packed, NextPc, VecOf, HighHalf, LowHalf, PushedEa, PushedSsw, SizeOf,
         Supervisor, Foot;
    var p := Supervisor(s).a7;
    var a := Foot(f, p);
    FootIs(f, p);
    UpperAt(f, s, Stack(m, p), a);
    var u := Upper(f, s, Stack(m, p));
    var v := Push32(u, NextPc(f, s));
    Below(a, u, v, NextPc(f, s), Packed(s.sr));
  }

  /** The program counter and the status register go below; what is above stays. */
  lemma Below(a: bv32, u: Stack, v: Stack, pc: bv32, sr: bv16)
    requires u.a == Along(a, 6) && v == Push32(u, pc)
    ensures var w := Push16(v, sr);
            && w.a == a && Word(w.m, a, 0) == sr && Word(w.m, a, 2) == HighHalf(pc) && Word(w.m, a, 4) == LowHalf(pc)
            && Word(w.m, a, 6) == Word(u.m, a, 6) && Word(w.m, a, 8) == Word(u.m, a, 8)
            && Word(w.m, a, 10) == Word(u.m, a, 10) && Word(w.m, a, 12) == Word(u.m, a, 12)
  {
    hide Along, Push16, Push32, Word, HighHalf, LowHalf;
    Above0(a);
    PushedLong(u, pc, a, 2, 2);
    PushedLong(u, pc, a, 2, 4);
    PushedLong(u, pc, a, 2, 6);
    PushedLong(u, pc, a, 2, 8);
    PushedLong(u, pc, a, 2, 10);
    PushedLong(u, pc, a, 2, 12);
    Pushed(v, sr, a, 0, 0);
    Pushed(v, sr, a, 0, 2);
    Pushed(v, sr, a, 0, 4);
    Pushed(v, sr, a, 0, 6);
    Pushed(v, sr, a, 0, 8);
    Pushed(v, sr, a, 0, 10);
    Pushed(v, sr, a, 0, 12);
  }

  // ---- The way back ----

  /** The exception numbers of formats 0 and 2. */
  predicate ShortNumber(f: Frame) {
    match f
    case Short(n, _) => n < 0x400
    case Long(n, _, _) => n < 0x400
    case Access => true
  }

  lemma FormatIs(f: Frame)
    requires ShortNumber(f)
    ensures Format(VecOf(f)) == match f case Short(_, _) => 0 case Long(_, _, _) => 2 case Access => 7
  {}

  /** What RTE reads, whatever the format. */
  lemma RteReads(a: bv32)
    ensures Along(a, 0) == a
    ensures Along(Along(a, 2), 0) == Along(a, 2) && Along(Along(a, 2), 2) == Along(a, 4)
    ensures Along(Along(a, 2), 4) == Along(a, 6) && Along(Along(a, 6), 0) == Along(a, 6)
    ensures Along(Along(a, 6), 2) == Along(a, 8) && Along(Along(a, 8), 0) == Along(a, 8)
    ensures Along(Along(a, 8), 2) == Along(a, 10) && Along(Along(a, 8), 4) == Along(a, 12)
    ensures Along(Along(a, 8), 52) == Along(a, 60)
  {
    hide Along;
    Above0(a);
    Above0(Along(a, 2));
    Above0(Along(a, 6));
    Above0(Along(a, 8));
    Above2(a);
    Above4(a);
    Above6(a);
    Above8(a);
    Above8By4(a);
    Above8By52(a);
  }

  lemma WordAlong(m: Words, a: bv32, b: bv32, j: bv32, k: bv32)
    requires Along(a, j) == Along(b, k)
    ensures Word(m, a, j) == Word(m, b, k)
  {
    hide Along;
  }

  /** EA and movem_run as RTE takes them from the frame of a faulted MOVEM. */
  function WithMovem(f: Frame, s: State, h: State): State {
    if f.Access? && MovemFault(PushedSsw(s)) then h.(ea := PushedEa(s), movemRun := true) else h
  }

  /** The words every frame has. */
  lemma RteHead(f: Frame, s: State, h: State, m: Words)
    requires IsFrame(f, s, m, h.a7)
    ensures Rte(h, m) == RteRest(h, m, Format(VecOf(f)), Along(h.a7, 8), Packed(s.sr), Short32(NextPc(f, s)))
  {
    hide Along, Word, Packed, NextPc, VecOf, HighHalf, LowHalf, Joined, PushedEa, PushedSsw, Format, Short32, RteRest;
    var a := h.a7;
    RteReads(a);
    WordAlong(m, Along(a, 2), a, 0, 2);
    WordAlong(m, Along(a, 2), a, 2, 4);
    WordAlong(m, Along(a, 6), a, 0, 6);
    JoinHalves(NextPc(f, s));
  }

  /** And those of an access fault's frame alone. */
  lemma AccessWords(s: State, m: Words, a: bv32)
    requires IsFrame(Access, s, m, a)
    ensures var b := Along(a, 8);
            && Word(m, b, 4) == PushedSsw(s) && Joined(Word(m, b, 0), Word(m, b, 2)) == PushedEa(s)
            && Along(b, 52) == Along(a, 60)
  {
    hide Along, Word, Packed, NextPc, VecOf, HighHalf, LowHalf, Joined, PushedEa, PushedSsw;
    RteReads(a);
    WordAlong(m, Along(a, 8), a, 0, 8);
    WordAlong(m, Along(a, 8), a, 2, 10);
    WordAlong(m, Along(a, 8), a, 4, 12);
    JoinHalves(PushedEa(s));
  }

  /** The processor with which the return from an access fault goes on. */
  lemma MovemTaken(s: State, h: State, m: Words)
    requires IsFrame(Access, s, m, h.a7)
    ensures var b := Along(h.a7, 8);
            (if MovemFault(Word(m, b, 4)) then h.(ea := Joined(Word(m, b, 0), Word(m, b, 2)), movemRun := true) else h)
            == WithMovem(Access, s, h)
  {
    hide Along, Word, IsFrame, Joined, PushedEa, PushedSsw, MovemFault;
    AccessWords(s, m, h.a7);
  }

  lemma RteAccessFrame(s: State, h: State, m: Words, sr: bv16, pc: bv32)
    requires IsFrame(Access, s, m, h.a7)
    ensures var end := Along(h.a7, 60);
            RteAccess(h, m, Along(h.a7, 8), sr, pc)
            == if Traced(PushedSsw(s)) then TraceTrap(SetSR(h.(a7 := end), sr).(mustTrace := false, pc := pc))
               else Jumped(SetSR(WithMovem(Access, s, h).(a7 := end), sr), pc)
  {
    hide Along, Word, IsFrame, Joined, PushedEa, PushedSsw, SetSR, Jumped, MovemFault, Traced, WithMovem;
    AccessWords(s, m, h.a7);
    MovemTaken(s, h, m);
  }

  /** RTE on a frame: the status register pushed, and the stack past the frame. */
  lemma RteOfFrame(f: Frame, s: State, h: State, m: Words)
    requires ShortNumber(f) && IsFrame(f, s, m, h.a7)
    ensures var sr, pc := Packed(s.sr), Short32(NextPc(f, s));
            var end := Along(h.a7, SizeOf(f));
            Rte(h, m) == if f.Access? && Traced(PushedSsw(s))
                         then TraceTrap(SetSR(h.(a7 := end), sr).(mustTrace := false, pc := pc))
                         else Jumped(SetSR(WithMovem(f, s, h).(a7 := end), sr), pc)
  {
    hide Along, Packed, NextPc, VecOf, PushedSsw, SetSR, Jumped, Format, Traced, Short32, IsFrame, Rte, RteAccess,
         ShortNumber, PushedEa;
    RteHead(f, s, h, m);
    FormatIs(f);
    RteReads(h.a7);
    if f.Access? {
      RteAccessFrame(s, h, m, Packed(s.sr), Short32(NextPc(f, s)));
    }
  }

  /** The handler left the frame, the stack and the other stack pointers as they were on entry. */
  ghost predicate HandlerDone(f: Frame, s: State, e: State, me: Words, h: State, mh: Words) {
    && h.a7 == e.a7 && h.sr.s && h.sr.m == s.sr.m
    && h.usp == s.usp && (if s.sr.m then h.isp == s.isp else h.msp == s.msp)
    && (IsFrame(f, s, me, e.a7) ==> IsFrame(f, s, mh, e.a7))
  }

  /** The supervisor's banked stack pointer. */
  function Super(s: State): bv32 { if s.sr.m then s.msp else s.isp }

  lemma SuperIs(s: State)
    ensures Supervisor(s).a7 == Super(s)
  {}

  /** Status register and stack pointers as they were when the exception was taken. */
  function Back2(s: State, h: State): State {
    h.(sr := s.sr, usp := s.usp, isp := s.isp, msp := s.msp, a7 := Active(s))
  }

  lemma Saved(s: State, h: State)
    requires h.sr.s && h.sr.m == s.sr.m && h.a7 == Super(s)
    requires h.usp == s.usp && (if s.sr.m then h.isp == s.isp else h.msp == s.msp)
    ensures SaveSP(h) == h.(usp := s.usp, isp := s.isp, msp := s.msp)
  {}

  /** What SetSR at the end of RTE does. */
  lemma Restored(s: State, h: State)
    requires h.sr.s && h.sr.m == s.sr.m && h.a7 == Super(s)
    requires h.usp == s.usp && (if s.sr.m then h.isp == s.isp else h.msp == s.msp)
    ensures SetSR(h, Packed(s.sr)) == Back2(s, h)
  {
    hide Packed, Unpacked, SaveSP, Super;
    PackedBack(s.sr);
    Saved(s, h);
  }

  /** The state in which an untraced return jumps. */
  function Continued(f: Frame, s: State, h: State): State {
    if f.Access? && MovemFault(PushedSsw(s)) then Back2(s, h).(ea := s.ea, movemRun := true) else Back2(s, h)
  }

  /** The handler's processor at the frame, with the rest of the stack as it was. */
  predicate AtFrame(f: Frame, s: State, h: State) {
    && h.sr.s && h.sr.m == s.sr.m && h.usp == s.usp && (if s.sr.m then h.isp == s.isp else h.msp == s.msp)
    && Along(h.a7, SizeOf(f)) == Super(s)
  }

  lemma Returning(f: Frame, s: State, h: State)
    requires AtFrame(f, s, h)
    ensures SetSR(h.(a7 := Along(h.a7, SizeOf(f))), Packed(s.sr)) == Back2(s, h)
  {
    hide Along, SizeOf, Packed, SetSR, Super, Back2;
    Restored(s, h.(a7 := Along(h.a7, SizeOf(f))));
    Back2Ignores(s, h, Along(h.a7, SizeOf(f)));
  }

  lemma Back2Ignores(s: State, h: State, a: bv32)
    ensures Back2(s, h.(a7 := a)) == Back2(s, h)
  {
    hide Active;
  }

  lemma MovemAtFrame(f: Frame, s: State, h: State)
    requires AtFrame(f, s, h)
    ensures AtFrame(f, s, WithMovem(f, s, h)) && WithMovem(f, s, h).a7 == h.a7
    ensures Back2(s, WithMovem(f, s, h)) == Continued(f, s, h)
  {
    hide Along, SizeOf, Super, MovemFault, PushedSsw, PushedEa, Active;
    ContinuesEa(s);
  }

  lemma Returns(f: Frame, s: State, h: State, m: Words)
    requires ShortNumber(f) && IsFrame(f, s, m, h.a7) && AtFrame(f, s, h)
    ensures Rte(h, m) == if f.Access? && Traced(PushedSsw(s))
                         then TraceTrap(Back2(s, h).(mustTrace := false, pc := Short32(NextPc(f, s))))
                         else Jumped(Continued(f, s, h), Short32(NextPc(f, s)))
  {
    hide Along, Packed, NextPc, SizeOf, PushedSsw, SetSR, IsFrame, Short32, Traced, Rte, Jumped, AtFrame, Back2,
         Continued, WithMovem, ShortNumber;
    RteOfFrame(f, s, h, m);
    MovemAtFrame(f, s, h);
    Returning(f, s, h);
    Returning(f, s, WithMovem(f, s, h));
  }

  lemma HandlerAtFrame(f: Frame, s: State, m: Words, handler: bv32, h: State, mh: Words)
    requires HandlerDone(f, s, Entered(s, f, m, handler).0, Entered(s, f, m, handler).1, h, mh)
    ensures IsFrame(f, s, mh, h.a7) && AtFrame(f, s, h)
  {
    hide Along, Entered, SizeOf, IsFrame, Supervisor, Super, Foot;
    EntryFrame(f, s, m, handler);
    SuperIs(s);
  }

  lemma ReturnJumps(f: Frame, s: State, m: Words, handler: bv32, h: State, mh: Words)
    requires ShortNumber(f)
    requires HandlerDone(f, s, Entered(s, f, m, handler).0, Entered(s, f, m, handler).1, h, mh)
    ensures Rte(h, mh) == if f.Access? && Traced(PushedSsw(s))
                          then TraceTrap(Back2(s, h).(mustTrace := false, pc := Short32(NextPc(f, s))))
                          else Jumped(Continued(f, s, h), Short32(NextPc(f, s)))
  {
    hide HandlerDone, Entered, IsFrame, AtFrame, ShortNumber, Rte, PushedSsw, Traced, Back2, Short32, NextPc, Jumped,
         Continued;
    HandlerAtFrame(f, s, m, handler, h, mh);
    Returns(f, s, h, mh);
  }

  /** What a return from frame f of state s, with a handler's state h, gives the processor back. */
  ghost predicate GivesBack(f: Frame, s: State, h: State, r: Returned) {
    var pc := Short32(NextPc(f, s));
    && (if OddPc(pc) then r.OddAddress? && r.addr == pc else r.Resumed? && r.s.pc == pc)
    && r.s.sr == s.sr && r.s.usp == s.usp && r.s.isp == s.isp && r.s.msp == s.msp
    && r.s.a7 == Active(s)
    && (if f.Access? && MovemFault(PushedSsw(s)) then r.s.ea == s.ea && r.s.movemRun
        else r.s.ea == h.ea && r.s.movemRun == h.movemRun)
    && r.s.mustTrace == (s.sr.t == 1 || h.mustTrace)
  }

  lemma JumpedFields(t: State, pc: bv32)
    ensures var r := Jumped(t, pc);
            && (if OddPc(pc) then r.OddAddress? && r.addr == pc else r.Resumed? && r.s.pc == pc)
            && r.s.sr == t.sr && r.s.usp == t.usp && r.s.isp == t.isp && r.s.msp == t.msp && r.s.a7 == t.a7
            && r.s.ea == t.ea && r.s.movemRun == t.movemRun && r.s.mustTrace == (t.sr.t == 1 || t.mustTrace)
  {
    hide OddPc;
  }

  lemma ContinuedStack(f: Frame, s: State, h: State)
    ensures var t := Continued(f, s, h);
            t.sr == s.sr && t.usp == s.usp && t.isp == s.isp && t.msp == s.msp && t.a7 == Active(s)
  {
    hide PushedSsw, MovemFault, Active;
  }

  lemma ContinuedMovem(f: Frame, s: State, h: State)
    ensures var t := Continued(f, s, h);
            && t.mustTrace == h.mustTrace
            && (if f.Access? && MovemFault(PushedSsw(s)) then t.ea == s.ea && t.movemRun
                else t.ea == h.ea && t.movemRun == h.movemRun)
  {
    hide PushedSsw, MovemFault, Active;
  }

  lemma JumpGivesBack(f: Frame, s: State, h: State)
    ensures GivesBack(f, s, h, Jumped(Continued(f, s, h), Short32(NextPc(f, s))))
  {
    hide Short32, NextPc, PushedSsw, MovemFault, Active, OddPc, Jumped, Continued;
    JumpedFields(Continued(f, s, h), Short32(NextPc(f, s)));
    ContinuedStack(f, s, h);
    ContinuedMovem(f, s, h);
  }

  /**
   An exception and the RTE that ends its handler, for formats 0, 2 and 7 without a pending
   trace: the status register and the three banked stack pointers are those at the exception,
   A7 is the banked pointer in force then, and the next program counter survives modulo 2^16.
   A frame of a faulted MOVEM brings back EA and movem_run as well.
   */
  lemma EnterAndReturn(f: Frame, s: State, m: Words, handler: bv32, h: State, mh: Words)
    requires ShortNumber(f) && !(f.Access? && Traced(PushedSsw(s)))
    requires HandlerDone(f, s, Entered(s, f, m, handler).0, Entered(s, f, m, handler).1, h, mh)
    ensures GivesBack(f, s, h, Rte(h, mh))
  {
    hide HandlerDone, GivesBack, NextPc, Entered, PushedSsw, Short32, Traced, Rte, ShortNumber, Jumped, Continued;
    ReturnJumps(f, s, m, handler, h, mh);
    JumpGivesBack(f, s, h);
  }

  lemma ContinuesEa(s: State)
    ensures MovemFault(PushedSsw(s)) ==> PushedEa(s) == s.ea
  {}

  /** A7 comes back as it was if and only if the banked pointer in force equalled it. */
  lemma StackRestoredIff(f: Frame, s: State, m: Words, handler: bv32, h: State, mh: Words)
    requires ShortNumber(f) && !(f.Access? && Traced(PushedSsw(s)))
    requires HandlerDone(f, s, Entered(s, f, m, handler).0, Entered(s, f, m, handler).1, h, mh)
    ensures !Rte(h, mh).FormatError?
    ensures Rte(h, mh).s.a7 == s.a7 <==> s.a7 == Active(s)
  {
    hide HandlerDone, Entered, Active, Rte, Short32, OddPc, NextPc, PushedSsw, Traced, MovemFault, ShortNumber;
    EnterAndReturn(f, s, m, handler, h, mh);
  }

  /** With a pending trace, RTE restores the same and raises the trace instead of resuming. */
  lemma EnterAndTrace(s: State, m: Words, handler: bv32, h: State, mh: Words)
    requires Traced(PushedSsw(s))
    requires HandlerDone(Access, s, Entered(s, Access, m, handler).0, Entered(s, Access, m, handler).1, h, mh)
    ensures Rte(h, mh) == TraceTrap(h.(sr := s.sr, usp := s.usp, isp := s.isp, msp := s.msp, a7 := Active(s),
                                       mustTrace := false, pc := Short32(s.oldpc)))
  {
    hide HandlerDone, Entered, PushedSsw, IsFrame, Short32, Traced, Rte, Active, Jumped, Continued;
    ReturnJumps(Access, s, m, handler, h, mh);
  }

  // ---- Inputs ----

  /** A handler that does nothing but return meets the hypothesis, for every exception. */
  lemma IdleHandler(f: Frame, s: State, m: Words, handler: bv32)
    ensures var (e, me) := Entered(s, f, m, handler); HandlerDone(f, s, e, me, e, me)
  {
    hide Pushed2, IsFrame;
  }

  /** In supervisor mode with A7 at 0x2000 and the interrupt stack pointer at 0x1000: after an exception
      and an idle handler A7 is 0x1000. */
  lemma StackMoves(f: Frame, s: State, m: Words, handler: bv32)
    requires ShortNumber(f) && !(f.Access? && Traced(PushedSsw(s)))
    requires s.sr.s && !s.sr.m && s.a7 == 0x2000 && s.isp == 0x1000
    ensures var (e, me) := Entered(s, f, m, handler);
            !Rte(e, me).FormatError? && Rte(e, me).s.a7 == 0x1000
  {
    hide HandlerDone, Entered, Rte, Short32, OddPc, NextPc, PushedSsw, Traced, MovemFault, ShortNumber;
    var (e, me) := Entered(s, f, m, handler);
    IdleHandler(f, s, m, handler);
    EnterAndReturn(f, s, m, handler, e, me);
  }
}
