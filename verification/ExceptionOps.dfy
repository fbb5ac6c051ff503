/** handle_exception and do_rte, changing the processor and its memory step by step. */
module ExceptionOps {
  import opened Addresses
  import opened ByteBus
  import E = Exceptions
  import I = Interrupts
  import X = ExceptionTable

  datatype Entry = Started | DoubleFault | OddVector

  /** How do_rte ends; a word of the frame that cannot be read raises an access fault, and for EA
      of a MOVEM it is a double fault, with which the emulator stops. */
  datatype Exit = Resume | Odd(addr: bv32) | Trace | Again | BadFormat | Fault | Stopped

  predicate LongAt(m: E.Words, a: bv32) { At(Along(a, 0)) in m && At(Along(a, 2)) in m }

  /** The status word of an access fault's frame cannot be read. */
  predicate StatusMissing(m: E.Words, a: bv32) { At(Along(a, 4)) !in m }

  /** It says that a MOVEM is to go on, but EA cannot be read. */
  predicate EaMissing(m: E.Words, a: bv32) {
    var status := E.Word(m, a, 4);
    !StatusMissing(m, a) && !E.Traced(status) && E.MovemFault(status) && !LongAt(m, a)
  }

  /** One of the four words of every frame cannot be read. */
  predicate HeadMissing(m: E.Words, a: bv32) {
    At(Along(a, 0)) !in m || !LongAt(m, Along(a, 2)) || At(Along(Along(Along(a, 2), 4), 0)) !in m
  }

  function FormatAt(m: E.Words, a: bv32): bv16 { E.Format(E.Word(m, Along(Along(a, 2), 4), 0)) }

  /** What follows those four words. */
  function Behind(a: bv32): bv32 { Along(Along(Along(a, 2), 4), 2) }

  /** The exit and the processor after it, as the specification has them. */
  function Result(x: Exit, s: E.State): E.Returned {
    match x
    case Resume => E.Resumed(s)
    case Odd(addr) => E.OddAddress(s, addr)
    case Trace => E.TraceTrap(s)
    case Again => E.Again(s)
    case _ => E.FormatError
  }

  lemma AccessElsewhere(s: E.State, b: bv32, m: E.Words, a: bv32, sr: bv16, pc: bv32)
    ensures E.RteAccess(s.(a7 := b), m, a, sr, pc) == E.RteAccess(s, m, a, sr, pc)
  {
    hide E.SetSR, E.Jumped, Along, E.Word, E.Joined, E.Traced, E.MovemFault;
    var end := Along(a, 52);
    assert s.(a7 := b).(a7 := end) == s.(a7 := end);
    var ea := E.Joined(E.Word(m, a, 0), E.Word(m, a, 2));
    assert s.(a7 := b).(ea := ea, movemRun := true).(a7 := end) == s.(ea := ea, movemRun := true).(a7 := end);
  }

  /** The rest of RTE takes the stack pointer from its argument. */
  lemma RestElsewhere(s: E.State, b: bv32, m: E.Words, format: bv16, a: bv32, sr: bv16, pc: bv32)
    ensures E.RteRest(s.(a7 := b), m, format, a, sr, pc) == E.RteRest(s, m, format, a, sr, pc)
  {
    hide E.SetSR, E.Jumped, Along, E.RteAccess;
    AccessElsewhere(s, b, m, a, sr, pc);
    assert s.(a7 := b).(a7 := a) == s.(a7 := a);
    assert s.(a7 := b).(a7 := Along(a, 4)) == s.(a7 := Along(a, 4));
  }

  // ---- Where a frame goes ----

  /** Can the next word be pushed? */
  predicate Fits16(w: set<Loc>, a: bv32) { At(Back(a, 2)) in w }

  /** Two words further down. */
  function Lower(a: bv32): bv32 { Back(Back(a, 2), 2) }

  predicate Fits32(w: set<Loc>, a: bv32) { Fits16(w, a) && Fits16(w, Back(a, 2)) }

  /** Below the words of an access fault's frame that are skipped or hold its address. */
  function StatusTop(a: bv32): bv32 { Back(Lower(Back(a, 36)), 6) }

  predicate FitsUpper(f: E.Frame, w: set<Loc>, a: bv32) {
    match f
    case Short(_, _) => Fits16(w, a)
    case Long(_, _, _) => Fits32(w, a) && Fits16(w, Lower(a))
    case Access =>
      var d := Back(StatusTop(a), 2);
      Fits32(w, Back(a, 36)) && Fits16(w, StatusTop(a)) && Fits32(w, d) && Fits16(w, Lower(d))
  }

  function UpperFoot(f: E.Frame, a: bv32): bv32 {
    match f
    case Short(_, _) => Back(a, 2)
    case Long(_, _, _) => Back(Lower(a), 2)
    case Access => Back(Lower(Back(StatusTop(a), 2)), 2)
  }

  predicate FitsShort(w: set<Loc>, a: bv32) { Fits32(w, a) && Fits16(w, Lower(a)) }

  /** Can every word of the frame be pushed? */
  predicate FitsFrame(f: E.Frame, w: set<Loc>, a: bv32) {
    FitsUpper(f, w, a) && FitsShort(w, UpperFoot(f, a))
  }

  /** The second frame of an interrupt, from a on. */
  predicate FitsSecond(w: set<Loc>, a: bv32) { Fits32(w, a) && FitsShort(w, Lower(a)) }

  /** The frame of an interrupt's vector. */
  predicate FitsFirst(s: E.State, w: set<Loc>) {
    Fits16(w, E.Supervisor(s).a7) && FitsShort(w, Back(E.Supervisor(s).a7, 2))
  }

  /** Every word that an interrupt pushes; with M, the second frame goes to the interrupt stack. */
  predicate FitsIrq(s: E.State, w: set<Loc>) {
    FitsFirst(s, w) && (s.sr.m ==> FitsSecond(w, s.isp))
  }

  lemma FirstKeeps(s: E.State, level: bv3, m: E.Words)
    ensures var t := I.IrqFirst(s, level, m).0;
            t.sr.m == s.sr.m && t.pc == s.pc && E.Active(t.(sr := t.sr.(m := false))) == s.isp
  {
    hide I.PushShort, E.Push16, I.IrqVector;
  }

  predicate FitsFloat(w: set<Loc>, a: bv32) {
    Fits32(w, a) && Fits16(w, Lower(a)) && FitsShort(w, Back(Lower(a), 2))
  }

  lemma SupervisorKeeps(s: E.State)
    ensures var t := E.Supervisor(s);
            t == s.(sr := t.sr, a7 := t.a7)
  {}

  /** Can every word that exception n pushes be written? */
  predicate FitsNumber(n: bv16, s: E.State, w: set<Loc>) {
    if X.Irq(n) then FitsIrq(s, w)
    else if X.Float(n) then FitsFloat(w, E.Supervisor(s).a7)
    else FitsFrame(X.FrameOf(n, s), w, E.Supervisor(s).a7)
  }

  class Processor {
    var sr: E.Sr
    var a7: bv32
    var usp: bv32
    var isp: bv32
    var msp: bv32
    var pc: bv32
    var oldpc: bv32
    var ea: bv32
    var movemRun: bool
    var mustTrace: bool
    var ssw: bv16
    var exAddr: bv32
    var words: E.Words
    const writable: set<Loc>

    constructor (words: E.Words, writable: set<Loc>)
      ensures this.words == words && this.writable == writable
    {
      sr := E.Sr(false, false, false, false, false, 7, false, true, 0);
      a7, usp, isp, msp, pc, oldpc, ea, exAddr, ssw := 0, 0, 0, 0, 0, 0, 0, 0, 0;
      movemRun, mustTrace := false, false;
      this.words, this.writable := words, writable;
    }

    function Snapshot(): E.State
      reads this
    {
      E.State(sr, a7, usp, isp, msp, pc, oldpc, ea, movemRun, mustTrace, ssw, exAddr)
    }

    function Top(): E.Stack
      reads this
    {
      E.Stack(words, a7)
    }

    method LoadSP()
      modifies `a7
      ensures Snapshot() == E.LoadSP(old(Snapshot()))
    {
      a7 := if sr.s then (if sr.m then msp else isp) else usp;
    }

    method SetSR(w: bv16)
      modifies `sr, `a7, `usp, `isp, `msp
      ensures Snapshot() == E.SetSR(old(Snapshot()), w)
    {
      hide E.Unpacked;
      if sr.s {
        if sr.m { msp := a7; } else { isp := a7; }
      } else {
        usp := a7;
      }
      sr := E.Unpacked(w);
      LoadSP();
    }

    // ---- Pushing ----

    /** A push that cannot be written is a double fault, and the emulator stops. */
    method Push16(w: bv16) returns (ok: bool)
      modifies `a7, `words
      ensures ok ==> Top() == E.Push16(old(Top()), w)
      ensures ok <==> Fits16(writable, old(a7))
      ensures a7 == Back(old(a7), 2)
    {
      hide Back;
      a7 := Back(a7, 2);
      ok := At(a7) in writable;
      if ok {
        words := words[At(a7) := w];
      }
    }

    method Push32(v: bv32) returns (ok: bool)
      modifies `a7, `words
      ensures ok ==> Top() == E.Push32(old(Top()), v)
      ensures ok <==> Fits32(writable, old(a7))
      ensures ok ==> a7 == Lower(old(a7))
    {
      hide Back, E.LowHalf, E.HighHalf, E.Push16;
      ok := Push16(E.LowHalf(v));
      if ok {
        ok := Push16(E.HighHalf(v));
      }
    }

    method PushLong(n: bv16, addr: bv32) returns (ok: bool)
      modifies `a7, `words
      ensures ok ==> Top() == E.Push16(E.Push32(old(Top()), addr), E.LongVector(n))
      ensures ok <==> Fits32(writable, old(a7)) && Fits16(writable, Lower(old(a7)))
      ensures ok ==> a7 == Back(Lower(old(a7)), 2)
    {
      hide Back, E.Push16, E.Push32, E.LongVector, Fits16, Fits32, Lower;
      ok := Push32(addr);
      if ok {
        ok := Push16(E.LongVector(n));
      }
    }

    /** The words of the frame above the next program counter. */
    method PushUpper(f: E.Frame, ghost s: E.State) returns (ok: bool)
      requires s.exAddr == exAddr && s.ea == ea && (f.Access? ==> ssw == E.PushedSsw(s))
      modifies `a7, `words
      ensures ok ==> Top() == E.Upper(f, s, old(Top()))
      ensures ok <==> FitsUpper(f, writable, old(a7))
      ensures ok ==> a7 == UpperFoot(f, old(a7))
    {
      hide Fits16, Fits32, Lower, Back, E.Push16, E.Push32, E.Vector, E.LongVector, E.Continues, E.PushedSsw;
      match f {
        case Short(n, _) => ok := Push16(E.Vector(n));
        case Long(n, addr, _) => ok := PushLong(n, addr);
        case Access => ok := PushAccess(s);
      }
    }

    method PushAccess(ghost s: E.State) returns (ok: bool)
      requires s.exAddr == exAddr && s.ea == ea && ssw == E.PushedSsw(s)
      modifies `a7, `words
      ensures ok ==> Top() == E.Upper(E.Access, s, old(Top()))
      ensures ok <==> FitsUpper(E.Access, writable, old(a7))
      ensures ok ==> a7 == UpperFoot(E.Access, old(a7))
    {
      hide Back, E.Push16, E.Push32, E.PushedSsw, E.Continues, Fits16, Fits32, Lower;
      a7 := Back(a7, 36);
      ok := Push32(exAddr);
      if !ok { return; }
      a7 := Back(a7, 6);
      ok := Push16(ssw);
      if !ok { return; }
      ok := Push32(if E.Continues(ssw) then ea else 0);
      if !ok { return; }
      ok := Push16(0x7008);
    }

    method PushFrame(f: E.Frame, w: bv16, next: bv32, ghost s: E.State) returns (ok: bool)
      requires s.exAddr == exAddr && s.ea == ea && (f.Access? ==> ssw == E.PushedSsw(s))
      requires w == E.Packed(s.sr) && next == E.NextPc(f, s)
      modifies `a7, `words
      ensures ok ==> Top() == E.Pushed2(f, s, old(Top()))
      ensures ok <==> FitsFrame(f, writable, old(a7))
    {
      hide Back, Fits16, Fits32, Lower, FitsUpper, UpperFoot, E.Packed, E.Upper, E.Push16, E.Push32, E.PushedSsw,
           E.NextPc;
      ok := PushUpper(f, s);
      if !ok { return; }
      ok := Push32(next);
      if !ok { return; }
      ok := Push16(w);
    }

    /** S set, its stack pointer loaded, tracing off. */
    method EnterSupervisor()
      modifies `sr, `a7
      ensures Snapshot() == E.Supervisor(old(Snapshot()))
    {
      hide E.Active;
      sr := sr.(s := true);
      LoadSP();
      sr := sr.(t := 0);
    }

    /**
     handle_exception: the status register as it was, supervisor mode, the frame, and a jump
     through the vector.  LoadSP comes without SaveSP, so the stack pointer in use is lost
     unless its banked copy equals it.
     */
    method HandleException(f: E.Frame, handler: bv32) returns (r: Entry)
      modifies this
      ensures r.Started? ==> (Snapshot(), words) == E.Entered(old(Snapshot()), f, old(words), handler)
      ensures var fits := FitsFrame(f, writable, E.Supervisor(old(Snapshot())).a7);
              && (r.Started? <==> fits && !E.OddPc(handler))
              && (r.OddVector? <==> fits && E.OddPc(handler) && f.Access?)
    {
      hide FitsFrame, E.Packed, E.Pushed2, E.WithTrace, E.OddPc;
      ghost var s, m := Snapshot(), words;
      var w := E.Packed(sr);
      var next := if f.Access? then oldpc else f.next;
      EnterSupervisor();
      hide E.Supervisor;
      if f.Access? && mustTrace {
        ssw := E.WithTrace(ssw);
      }
      var ok := PushFrame(f, w, next, s);
      if !ok { return DoubleFault; }
      if E.OddPc(handler) {
        return if f.Access? then OddVector else DoubleFault;
      }
      pc := handler;
      return Started;
    }

    /** The program counter and the status register, below the format word. */
    method PushShort(w: bv16, next: bv32) returns (ok: bool)
      modifies `a7, `words
      ensures ok ==> Top() == E.Push16(E.Push32(old(Top()), next), w)
      ensures ok <==> FitsShort(writable, old(a7))
    {
      hide Back, Fits16, Fits32, Lower, E.Push16, E.Push32;
      ok := Push32(next);
      if !ok { return; }
      ok := Push16(w);
    }

    /** The frame of the interrupt's vector. */
    method PushFirst(level: bv3, w: bv16, ghost s: E.State) returns (ok: bool)
      requires w == E.Packed(s.sr) && pc == s.pc
      modifies `a7, `words
      ensures ok ==> Top() == I.PushShort(E.Push16(old(Top()), I.IrqVector(level)), s)
      ensures ok <==> Fits16(writable, old(a7)) && FitsShort(writable, Back(old(a7), 2))
    {
      hide Back, Fits16, FitsShort, E.Push16, E.Push32, E.Packed, I.IrqVector;
      ok := Push16(I.IrqVector(level));
      if !ok { return; }
      ok := PushShort(w, pc);
    }

    /** The second frame, whose format word is pushed as a long. */
    method PushSecond(level: bv3, w: bv16, ghost s: E.State) returns (ok: bool)
      requires w == E.Packed(s.sr) && pc == s.pc
      modifies `a7, `words
      ensures ok ==> Top() == I.PushShort(E.Push32(old(Top()), I.Throwaway(level)), s)
      ensures ok <==> FitsSecond(writable, old(a7))
    {
      hide Lower, Fits32, FitsShort, E.Push16, E.Push32, E.Packed, I.Throwaway;
      ok := Push32(I.Throwaway(level));
      if !ok { return; }
      ok := PushShort(w, pc);
    }

    method LoadInterruptStack()
      modifies `sr, `a7
      ensures var t := old(Snapshot()); Snapshot() == E.LoadSP(t.(sr := t.sr.(m := false)))
    {
      hide E.Active;
      sr := sr.(m := false);
      LoadSP();
    }

    /** Supervisor mode at the interrupt's level, and its frame. */
    method StartIrq(level: bv3, w: bv16, ghost s: E.State) returns (ok: bool)
      requires s == Snapshot() && w == E.Packed(sr)
      modifies `sr, `a7, `words
      ensures ok ==> (Snapshot(), words) == I.IrqFirst(s, level, old(words))
      ensures ok <==> FitsFirst(s, writable)
    {
      hide E.Supervisor, E.Packed, I.PushShort, E.Push16, I.IrqVector, Back, Fits16, FitsShort;
      SupervisorKeeps(s);
      EnterSupervisor();
      sr := sr.(i := level);
      ok := PushFirst(level, w, s);
    }

    /** M clear, and the second frame. */
    method RestackIrq(level: bv3, w: bv16, ghost s: E.State) returns (ok: bool)
      requires w == E.Packed(s.sr) && pc == s.pc
      modifies `sr, `a7, `words
      ensures ok ==> (Snapshot(), words) == I.IrqSecond(s, level, old(Snapshot()), old(words))
      ensures var t := old(Snapshot()); ok <==> FitsSecond(writable, E.Active(t.(sr := t.sr.(m := false))))
    {
      hide E.Packed, I.PushShort, E.Push32, I.Throwaway, FitsSecond, E.Active;
      LoadInterruptStack();
      ok := PushSecond(level, w, s);
    }

    /** handle_exception for an interrupt of the given level. */
    method HandleInterrupt(level: bv3, handler: bv32) returns (r: Entry)
      modifies this
      ensures r.Started? ==> (Snapshot(), words) == I.Interrupted(old(Snapshot()), level, old(words), handler)
      ensures r.Started? <==> FitsIrq(old(Snapshot()), writable) && !E.OddPc(handler)
      ensures !r.OddVector?
    {
      hide E.Packed, E.OddPc, I.IrqFirst, I.IrqSecond, FitsSecond, FitsFirst, E.Active;
      ghost var s := Snapshot();
      var w := E.Packed(sr);
      FirstKeeps(s, level, words);
      var ok := StartIrq(level, w, s);
      if !ok { return DoubleFault; }
      if sr.m {
        ok := RestackIrq(level, w, s);
        if !ok { return DoubleFault; }
      }
      if E.OddPc(handler) { return DoubleFault; }
      pc := handler;
      return Started;
    }

    /** handle_exception for the floating point exceptions. */
    method HandleFloat(n: bv16, handler: bv32) returns (r: Entry)
      modifies this
      ensures r.Started? ==> (Snapshot(), words) == I.FloatEntered(old(Snapshot()), n, old(words), handler)
      ensures r.Started? <==> FitsFloat(writable, E.Supervisor(old(Snapshot())).a7) && !E.OddPc(handler)
      ensures !r.OddVector?
    {
      hide E.OddPc, E.Push16, E.Push32, E.Supervisor, E.LowHalf, I.FloatVector, Back, Lower, Fits16, Fits32, FitsShort;
      ghost var s := Snapshot();
      SupervisorKeeps(s);
      EnterSupervisor();
      var ok := Push32(ea);
      if !ok { return DoubleFault; }
      ok := Push16(I.FloatVector(n));
      if !ok { return DoubleFault; }
      ok := PushShort(E.LowHalf(oldpc), pc);
      if !ok || E.OddPc(handler) { return DoubleFault; }
      pc := handler;
      return Started;
    }

    /** ACCESS_FAULT, after the code of the translation has been stored in SSW. */
    method AccessFault(addr: bv32, code: bv16, a: X.Touch)
      modifies `exAddr, `ssw
      ensures Snapshot() == X.Faulted(old(Snapshot()), addr, code, a)
    {
      hide X.With;
      X.WithNothing(code);
      var w := if movemRun then X.With(code, 1, 12) else code;
      w := X.With(w, a.tt, 0);
      w := X.With(w, E.Bit16(a.lock), 9);
      w := X.With(w, E.Bit16(a.read), 8);
      w := X.With(w, a.size, 5);
      ssw, exAddr := X.With(w, a.space, 0), addr;
    }

    /** The switch of handle_exception; a vector that is odd is a double fault but for an access fault. */
    method Handle(n: bv16, handler: bv32) returns (r: Entry)
      requires X.Raised(n)
      modifies this
      ensures r.Started? ==> (Snapshot(), words) == X.Handled(n, old(Snapshot()), old(words), handler)
      ensures r.Started? <==> FitsNumber(n, old(Snapshot()), writable) && !E.OddPc(handler)
      ensures r.OddVector? <==> n == 2 && FitsNumber(n, old(Snapshot()), writable) && E.OddPc(handler)
    {
      hide E.OddPc, E.Entered, E.Supervisor, I.Interrupted, I.FloatEntered, FitsIrq, FitsFloat, FitsFrame, X.Even,
           X.Level;
      if X.Irq(n) {
        r := HandleInterrupt(X.Level(n), handler);
      } else if X.Float(n) {
        r := HandleFloat(n, handler);
      } else if n == 2 {
        r := HandleException(E.Access, handler);
      } else if n == 3 {
        r := HandleException(E.Long(3, X.Even(exAddr), oldpc), handler);
      } else if n == 4 || n == 8 || n == 10 || n == 11 || n == 14 {
        r := HandleException(E.Short(n, oldpc), handler);
      } else if 32 <= n <= 47 {
        r := HandleException(E.Short(n, pc), handler);
      } else {
        r := HandleException(E.Long(n, oldpc, pc), handler);
      }
    }

    // ---- RTE ----

    /** The word k bytes above a. */
    method ReadW(a: bv32, k: bv32) returns (ok: bool, w: bv16)
      ensures ok <==> At(Along(a, k)) in words
      ensures ok ==> w == E.Word(words, a, k)
    {
      hide Along;
      ok, w := At(Along(a, k)) in words, 0;
      if ok { w := words[At(Along(a, k))]; }
    }

    method ReadLong(a: bv32) returns (ok: bool, v: bv32)
      ensures ok <==> LongAt(words, a)
      ensures ok ==> v == E.Joined(E.Word(words, a, 0), E.Word(words, a, 2))
    {
      hide E.Word, E.Joined, Along;
      var high, low;
      v := 0;
      ok, high := ReadW(a, 0);
      if !ok { return; }
      ok, low := ReadW(a, 2);
      v := E.Joined(high, low);
    }

    /** SetSR, the trace flag, and JUMP. */
    method Leave(w: bv16, next: bv32) returns (x: Exit)
      modifies this
      ensures words == old(words)
      ensures x.Resume? || x.Odd?
      ensures Result(x, Snapshot()) == E.Jumped(E.SetSR(old(Snapshot()), w), next)
    {
      hide E.SetSR, E.OddPc;
      SetSR(w);
      if sr.t == 1 {
        mustTrace := true;
      }
      if E.OddPc(next) {
        return Odd(next);
      }
      pc := next;
      return Resume;
    }

    /** A pending trace: everything restored, and the trace taken. */
    method LeaveTraced(w: bv16, next: bv32)
      modifies this
      ensures words == old(words)
      ensures Snapshot() == E.SetSR(old(Snapshot()).(a7 := Along(old(a7), 52)), w).(mustTrace := false, pc := next)
    {
      hide E.SetSR, Along;
      a7 := Along(a7, 52);
      SetSR(w);
      mustTrace := false;
      pc := next;
    }

    /** A MOVEM under way: EA from the frame. */
    method ContinueMovem() returns (ok: bool)
      modifies `ea, `movemRun
      ensures ok <==> LongAt(words, a7)
      ensures ok
              ==> Snapshot() == old(Snapshot()).(ea := E.Joined(E.Word(words, a7, 0), E.Word(words, a7, 2)),
                                                 movemRun := true)
    {
      hide E.Word, E.Joined, LongAt;
      var v;
      ok, v := ReadLong(a7);
      if !ok { return; }
      ea := v;
      movemRun := true;
    }

    /** The frame of an access fault: continue a trace or a MOVEM, and drop the rest. */
    method LeaveAccess(w: bv16, next: bv32) returns (x: Exit)
      modifies this
      ensures words == old(words)
      ensures x.Fault? <==> StatusMissing(words, old(a7))
      ensures x.Fault? ==> Snapshot() == old(Snapshot())
      ensures x.Stopped? <==> EaMissing(words, old(a7))
      ensures x.Fault? || x.Stopped? || Result(x, Snapshot()) == E.RteAccess(old(Snapshot()), words, old(a7), w, next)
    {
      hide E.SetSR, E.Word, E.Joined, Along, E.Traced, E.MovemFault, E.Jumped, LongAt;
      var ok, status := ReadW(a7, 4);
      if !ok { return Fault; }
      if E.Traced(status) {
        LeaveTraced(w, next);
        return Trace;
      }
      if E.MovemFault(status) {
        ok := ContinueMovem();
        if !ok { return Stopped; }
      }
      a7 := Along(a7, 52);
      x := Leave(w, next);
    }

    /** What follows the four words of every frame. */
    method LeaveFormat(format: bv16, w: bv16, next: bv32) returns (x: Exit)
      modifies this
      ensures words == old(words)
      ensures x.Fault? <==> format == 7 && StatusMissing(words, old(a7))
      ensures x.Fault? ==> Snapshot() == old(Snapshot())
      ensures x.Stopped? <==> format == 7 && EaMissing(words, old(a7))
      ensures x.Fault? || x.Stopped?
              || Result(x, Snapshot()) == E.RteRest(old(Snapshot()), words, format, old(a7), w, next)
    {
      hide E.SetSR, Along, E.Jumped, E.RteAccess, StatusMissing, EaMissing;
      if format == 0 {
        x := Leave(w, next);
      } else if format == 1 {
        SetSR(w);
        x := Again;
      } else if format == 2 || format == 3 {
        a7 := Along(a7, 4);
        x := Leave(w, next);
      } else if format == 7 {
        x := LeaveAccess(w, next);
      } else {
        x := BadFormat;
      }
    }

    /** POP16, POP32 and POP16: the four words that every frame has. */
    method PopHead() returns (ok: bool, w: bv16, next: bv32, vec: bv16)
      modifies `a7
      ensures ok <==> !HeadMissing(words, old(a7))
      ensures ok ==> var a1 := Along(old(a7), 2);
                     && a7 == Behind(old(a7)) && w == E.Word(words, old(a7), 0)
                     && next == E.Joined(E.Word(words, a1, 0), E.Word(words, a1, 2))
                     && vec == E.Word(words, Along(a1, 4), 0)
    {
      hide E.Word, E.Joined, Along, LongAt;
      next, vec := 0, 0;
      ok, w := ReadW(a7, 0);
      if !ok { return; }
      a7 := Along(a7, 2);
      ok, next := ReadLong(a7);
      if !ok { return; }
      a7 := Along(a7, 4);
      ok, vec := ReadW(a7, 0);
      if !ok { return; }
      a7 := Along(a7, 2);
    }

    /** do_rte up to the recursion for a throwaway frame.  A fault leaves all but A7 as it was. */
    method OneFrame() returns (x: Exit)
      modifies this
      ensures words == old(words)
      ensures var a := old(a7);
              x.Fault? <==> HeadMissing(words, a) || (FormatAt(words, a) == 7 && StatusMissing(words, Behind(a)))
      ensures x.Fault? ==> Snapshot() == old(Snapshot()).(a7 := a7)
      ensures var a := old(a7);
              x.Stopped? <==> !HeadMissing(words, a) && FormatAt(words, a) == 7 && EaMissing(words, Behind(a))
      ensures x.Fault? || x.Stopped? || Result(x, Snapshot()) == E.Rte(old(Snapshot()), words)
    {
      hide E.RteRest, E.Word, E.Joined, Along, E.Format, E.Short32, StatusMissing, EaMissing, HeadMissing;
      ghost var s := Snapshot();
      var ok, w, next, vec := PopHead();
      if !ok { return Fault; }
      RestElsewhere(s, a7, words, E.Format(vec), a7, w, E.Short32(next));
      x := LeaveFormat(E.Format(vec), w, E.Short32(next));
    }

    /** do_rte, which calls itself for a throwaway frame; `limit` bounds how often. */
    method DoRte(limit: nat) returns (x: Exit)
      modifies this
      ensures words == old(words)
      ensures x.Fault? || x.Stopped? || Result(x, Snapshot()) == E.RteAll(old(Snapshot()), words, limit)
      decreases limit
    {
      hide E.Rte, HeadMissing, FormatAt, StatusMissing, EaMissing, Behind;
      x := OneFrame();
      if x.Again? && limit > 0 {
        x := DoRte(limit - 1);
      }
    }
  }
}
