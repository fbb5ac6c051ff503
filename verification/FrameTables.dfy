/**
 What an exception's handler finds: every frame as a table of offsets with the numbers that stand
 there, the processor it starts with, and the memory that is left alone.
 */
module FrameTables {
  import opened Addresses
  import NumberFacts
  import opened Exceptions
  import opened ExceptionTheorems
  import opened Interrupts

  // ---- Words in numbers ----

  function One(b: bool): bv16 { if b then 1 else 0 }

  function Sum(x: bv16, n: bv16, z: bv16, v: bv16, c: bv16, i: bv16, m: bv16, s: bv16, t: bv16): bv16 {
    c + 2 * v + 4 * z + 8 * n + 16 * x + 0x100 * i + 0x1000 * m + 0x2000 * s + 0x4000 * t
  }

  /** The status register in numbers. */
  function StatusNumber(r: Sr): bv16 {
    Sum(One(r.x), One(r.n), One(r.z), One(r.v), One(r.c), r.i as bv16, One(r.m), One(r.s), r.t as bv16)
  }

  lemma OneSmall(b: bool)
    ensures One(b) <= 1 && Bit16(b) == One(b)
  {}

  lemma LevelSmall(i: bv3, t: bv2)
    ensures i as bv16 <= 7 && t as bv16 <= 3
  {}

  lemma SumIs(x: bv16, n: bv16, z: bv16, v: bv16, c: bv16, i: bv16, m: bv16, s: bv16, t: bv16)
    requires x <= 1 && n <= 1 && z <= 1 && v <= 1 && c <= 1 && i <= 7 && m <= 1 && s <= 1 && t <= 3
    ensures StatusWord(x, n, z, v, c, i, m, s, t) == Sum(x, n, z, v, c, i, m, s, t)
  {
    NumberFacts.StatusWord(x, n, z, v, c, i, m, s, t);
  }

  lemma PackedNumber(r: Sr)
    ensures Packed(r) == StatusNumber(r)
  {
    hide One, Bit16, Sum, StatusWord;
    LevelSmall(r.i, r.t);
    forall b: bool ensures One(b) <= 1 && Bit16(b) == One(b) {
      OneSmall(b);
    }
    SumIs(One(r.x), One(r.n), One(r.z), One(r.v), One(r.c), r.i as bv16, One(r.m), One(r.s), r.t as bv16);
  }

  /** The fields that SetSR takes from a word. */
  lemma UnpackedNumbers(w: bv16)
    ensures var r := Unpacked(w);
            && (r.c <==> w % 2 == 1) && (r.v <==> w / 2 % 2 == 1) && (r.z <==> w / 4 % 2 == 1)
            && (r.n <==> w / 8 % 2 == 1) && (r.x <==> w / 0x10 % 2 == 1)
            && (r.m <==> w / 0x1000 % 2 == 1) && (r.s <==> w / 0x2000 % 2 == 1)
    ensures Unpacked(w).i as bv16 == w / 0x100 % 8 && Unpacked(w).t as bv16 == w / 0x4000
  {}

  /** What RTE tests in the words it pops. */
  lemma TestedNumbers(w: bv16, v: bv32)
    ensures Format(w) == w / 0x1000
    ensures Traced(w) <==> w / 0x2000 % 2 == 1
    ensures MovemFault(w) <==> w / 0x1000 % 2 == 1
    ensures Continues(w) <==> w >= 0x1000
    ensures Short32(v) == v % 0x1_0000
    ensures OddPc(v) <==> v % 2 == 1
  {}

  /** The long at offset k of a frame. */
  function LongAt(m: Words, a: bv32, k: bv32): bv32 {
    (Word(m, a, k) as bv32) * 0x1_0000 + (Word(m, a, k + 2) as bv32)
  }

  lemma LongIs(m: Words, a: bv32, k: bv32, v: bv32)
    requires Word(m, a, k) == HighHalf(v) && Word(m, a, k + 2) == LowHalf(v)
    ensures LongAt(m, a, k) == v
  {
    NumberFacts.HighLow(v);
    NumberFacts.HalvesSum(v);
    hide Word;
  }

  lemma VectorNumbers(n: bv16)
    requires n < 0x400
    ensures Vector(n) == 4 * n && LongVector(n) == 0x2000 + 4 * n && FloatVector(n) == 0x3000 + 4 * n
  {
    NumberFacts.ShortVector(n);
  }

  // ---- What is pushed, and what is left alone ----

  /** Nothing but the words at these offsets is changed. */
  ghost predicate OnlyAt(m: Words, n: Words, a: bv32, offsets: set<bv32>) {
    forall k: bv32 :: k !in offsets ==> Word(n, a, k) == Word(m, a, k)
  }

  lemma PushedAt(k: Stack, w: bv16, a: bv32, o: bv32)
    requires k.a == Along(a, o + 2)
    ensures var p := Push16(k, w); p.a == Along(a, o) && Word(p.m, a, o) == w && OnlyAt(k.m, p.m, a, {o})
  {
    hide Along, Push16, Word;
    forall j: bv32 ensures Word(Push16(k, w).m, a, j) == if j == o then w else Word(k.m, a, j) {
      Pushed(k, w, a, o, j);
    }
    Pushed(k, w, a, o, o);
  }

  lemma LongPushedAt(k: Stack, v: bv32, a: bv32, o: bv32)
    requires k.a == Along(a, o + 4)
    ensures var p := Push32(k, v);
            && p.a == Along(a, o) && Word(p.m, a, o) == HighHalf(v) && Word(p.m, a, o + 2) == LowHalf(v)
            && OnlyAt(k.m, p.m, a, {o, o + 2})
  {
    hide Along, Push32, Word, HighHalf, LowHalf;
    ByTwo(o);
    forall j: bv32
      ensures Word(Push32(k, v).m, a, j)
              == if j == o then HighHalf(v) else if j == o + 2 then LowHalf(v) else Word(k.m, a, j)
    {
      PushedLong(k, v, a, o, j);
    }
    PushedLong(k, v, a, o, o);
  }

  /** The three words at the foot of every frame. */
  lemma FootAt(k: Stack, pc: bv32, w: bv16, a: bv32)
    requires k.a == Along(a, 6)
    ensures var p := Push16(Push32(k, pc), w);
            && p.a == a && Word(p.m, a, 0) == w && LongAt(p.m, a, 2) == pc && OnlyAt(k.m, p.m, a, {0, 2, 4})
  {
    hide Along, Push16, Push32, Word, HighHalf, LowHalf, LongAt;
    Above0(a);
    LongPushedAt(k, pc, a, 2);
    PushedAt(Push32(k, pc), w, a, 0);
    LongIs(Push16(Push32(k, pc), w).m, a, 2, pc);
  }

  // ---- The frames ----

  /** Format 0: 8 bytes. */
  ghost predicate ShortTable(m: Words, a: bv32, status: bv16, pc: bv32, vector: bv16) {
    Word(m, a, 0) == status && LongAt(m, a, 2) == pc && Word(m, a, 6) == vector
  }

  /** Formats 2 and 3: 12 bytes, with an address. */
  ghost predicate LongTable(m: Words, a: bv32, status: bv16, pc: bv32, vector: bv16, addr: bv32) {
    ShortTable(m, a, status, pc, vector) && LongAt(m, a, 8) == addr
  }

  /** Format 7: 60 bytes, with EA, the special status word and the fault address. */
  ghost predicate AccessTable(m: Words, a: bv32, status: bv16, pc: bv32, ea: bv32, ssw: bv16, fault: bv32) {
    && ShortTable(m, a, status, pc, 0x7008) && LongAt(m, a, 8) == ea && Word(m, a, 12) == ssw
    && LongAt(m, a, 20) == fault
  }

  lemma ShortPushed(k: Stack, vector: bv16, pc: bv32, w: bv16, a: bv32)
    requires k.a == Along(a, 8)
    ensures var p := Push16(Push32(Push16(k, vector), pc), w);
            p.a == a && ShortTable(p.m, a, w, pc, vector) && OnlyAt(k.m, p.m, a, {0, 2, 4, 6})
  {
    hide Along, Push16, Push32, Word, LongAt;
    PushedAt(k, vector, a, 6);
    FootAt(Push16(k, vector), pc, w, a);
  }

  lemma LongFramePushed(k: Stack, addr: bv32, vector: bv16, pc: bv32, w: bv16, a: bv32)
    requires k.a == Along(a, 12)
    ensures var p := Push16(Push32(Push16(Push32(k, addr), vector), pc), w);
            p.a == a && LongTable(p.m, a, w, pc, vector, addr) && OnlyAt(k.m, p.m, a, {0, 2, 4, 6, 8, 10})
  {
    hide Along, Push16, Push32, Word, LongAt, HighHalf, LowHalf;
    LongPushedAt(k, addr, a, 8);
    var k1 := Push32(k, addr);
    ShortPushed(k1, vector, pc, w, a);
    LongIs(Push16(Push32(Push16(k1, vector), pc), w).m, a, 8, addr);
  }

  lemma AccessPushed(k: Stack, fault: bv32, ssw: bv16, ea: bv32, pc: bv32, w: bv16, a: bv32)
    requires k.a == Along(a, 60)
    ensures var k1 := Push32(k.(a := Back(k.a, 36)), fault);
            var k2 := Push16(k1.(a := Back(k1.a, 6)), ssw);
            var p := Push16(Push32(Push16(Push32(k2, ea), 0x7008), pc), w);
            p.a == a && AccessTable(p.m, a, w, pc, ea, ssw, fault)
            && OnlyAt(k.m, p.m, a, {0, 2, 4, 6, 8, 10, 12, 20, 22})
  {
    hide Along, Back, Push16, Push32, Word, LongAt, HighHalf, LowHalf;
    Skip36(a);
    Skip6(a);
    var k0 := k.(a := Back(k.a, 36));
    LongPushedAt(k0, fault, a, 20);
    var k1 := Push32(k0, fault);
    PushedAt(k1.(a := Back(k1.a, 6)), ssw, a, 12);
    var k2 := Push16(k1.(a := Back(k1.a, 6)), ssw);
    LongFramePushed(k2, ea, 0x7008, pc, w, a);
    LongIs(Push16(Push32(Push16(Push32(k2, ea), 0x7008), pc), w).m, a, 20, fault);
  }

  /** The stack that an exception goes to. */
  function MasterOr(s: State): bv32 { if s.sr.m then s.msp else s.isp }

  /** The processor that a handler starts with: supervisor mode without tracing. */
  predicate Started(s: State, t: State, handler: bv32, level: bv3, m: bool) {
    && t.pc == handler && t.sr == s.sr.(s := true, t := 0, i := level, m := m)
    && t.usp == s.usp && t.isp == s.isp && t.msp == s.msp
    && t.ea == s.ea && t.movemRun == s.movemRun && t.mustTrace == s.mustTrace
  }

  /** The special status word: CT, worth 0x2000, is added for a pending trace. */
  function StatusPushed(s: State): bv16 {
    if s.mustTrace && s.ssw / 0x2000 % 2 == 0 then s.ssw + 0x2000 else s.ssw
  }

  lemma StatusPushedIs(s: State)
    ensures PushedSsw(s) == StatusPushed(s)
  {
    if s.ssw / 0x2000 % 2 == 0 {
      TraceAdds(s.ssw);
    } else {
      TraceThere(s.ssw);
    }
  }

  lemma TraceAdds(ssw: bv16)
    requires ssw / 0x2000 % 2 == 0
    ensures ssw | 0x2000 == ssw + 0x2000
  {}

  lemma TraceThere(ssw: bv16)
    requires ssw / 0x2000 % 2 != 0
    ensures ssw | 0x2000 == ssw
  {}

  lemma DownUp(a: bv32, n: bv32)
    ensures Along(Back(a, n), n) == a
  {
    hide Along, Back;
    BackIs(a, n);
    BackSame(a, n);
  }

  /** Where the stack starts, and the processor but for A7. */
  lemma Supervised(s: State)
    ensures Supervisor(s).a7 == MasterOr(s)
    ensures Started(s, Supervisor(s), s.pc, s.sr.i, s.sr.m)
  {}

  /** The frame of format 0. */
  lemma ShortEntry(n: bv16, next: bv32, s: State, m: Words, handler: bv32)
    requires n < 0x400
    ensures var (t, m') := Entered(s, Short(n, next), m, handler);
            && Along(t.a7, 8) == MasterOr(s)
            && ShortTable(m', t.a7, StatusNumber(s.sr), next, 4 * n) && OnlyAt(m, m', t.a7, {0, 2, 4, 6})
            && Started(s, t, handler, s.sr.i, s.sr.m)
  {
    hide Along, Back, Push16, Push32, Packed, StatusNumber, Vector, ShortTable, OnlyAt, Supervisor, MasterOr;
    Supervised(s);
    DownUp(MasterOr(s), 8);
    PackedNumber(s.sr);
    VectorNumbers(n);
    ShortPushed(Stack(m, MasterOr(s)), Vector(n), next, Packed(s.sr), Back(MasterOr(s), 8));
  }

  /** The frame of format 2, with its address at offset 8. */
  lemma LongEntry(n: bv16, addr: bv32, next: bv32, s: State, m: Words, handler: bv32)
    requires n < 0x400
    ensures var (t, m') := Entered(s, Long(n, addr, next), m, handler);
            && Along(t.a7, 12) == MasterOr(s)
            && LongTable(m', t.a7, StatusNumber(s.sr), next, 0x2000 + 4 * n, addr)
            && OnlyAt(m, m', t.a7, {0, 2, 4, 6, 8, 10})
            && Started(s, t, handler, s.sr.i, s.sr.m)
  {
    hide Along, Back, Push16, Push32, Packed, StatusNumber, LongVector, LongTable, OnlyAt, Supervisor, MasterOr;
    Supervised(s);
    DownUp(MasterOr(s), 12);
    PackedNumber(s.sr);
    VectorNumbers(n);
    LongFramePushed(Stack(m, MasterOr(s)), addr, LongVector(n), next, Packed(s.sr), Back(MasterOr(s), 12));
  }

  /** The frame of an access fault: fault address at 20, special status word at 12, EA at 8, or nothing
      there when neither CP, CU, CT nor CM is set. */
  lemma AccessEntry(s: State, m: Words, handler: bv32)
    ensures var (t, m') := Entered(s, Access, m, handler);
            var ssw := StatusPushed(s);
            && Along(t.a7, 60) == MasterOr(s)
            && AccessTable(m', t.a7, StatusNumber(s.sr), s.oldpc, if ssw >= 0x1000 then s.ea else 0, ssw, s.exAddr)
            && OnlyAt(m, m', t.a7, {0, 2, 4, 6, 8, 10, 12, 20, 22})
            && Started(s, t, handler, s.sr.i, s.sr.m) && t.ssw == ssw
  {
    hide Along, Back, Push16, Push32, Packed, StatusNumber, AccessTable, OnlyAt, Supervisor, MasterOr, PushedSsw,
         StatusPushed, Continues;
    Supervised(s);
    DownUp(MasterOr(s), 60);
    PackedNumber(s.sr);
    StatusPushedIs(s);
    TestedNumbers(StatusPushed(s), 0);
    AccessPushed(Stack(m, MasterOr(s)), s.exAddr, PushedSsw(s), if Continues(PushedSsw(s)) then s.ea else 0, s.oldpc,
                 Packed(s.sr), Back(MasterOr(s), 60));
  }

  // ---- Interrupts and floating point exceptions ----

  lemma IrqNumbers(level: bv3)
    ensures IrqVector(level) == 4 * (24 + level as bv16)
    ensures HighHalf(Throwaway(level)) == 0 && LowHalf(Throwaway(level)) == 0x1000 + 4 * (24 + level as bv16)
  {}

  /** An interrupt's frame of format 0 on the supervisor's stack; its level is in I. */
  lemma IrqFirstEntry(s: State, level: bv3, m: Words)
    ensures var (t, m') := IrqFirst(s, level, m);
            && Along(t.a7, 8) == MasterOr(s)
            && ShortTable(m', t.a7, StatusNumber(s.sr), s.pc, 4 * (24 + level as bv16))
            && OnlyAt(m, m', t.a7, {0, 2, 4, 6})
            && Started(s, t, s.pc, level, s.sr.m)
  {
    hide Along, Back, Push16, Push32, Packed, StatusNumber, IrqVector, ShortTable, OnlyAt, Supervisor, MasterOr;
    Supervised(s);
    DownUp(MasterOr(s), 8);
    PackedNumber(s.sr);
    IrqNumbers(level);
    ShortPushed(Stack(m, MasterOr(s)), IrqVector(level), s.pc, Packed(s.sr), Back(MasterOr(s), 8));
  }

  /** Without M that is all; with M the handler finds ten bytes on the interrupt stack, the format
      word at offset 8 behind a word of zero. */
  lemma IrqEntry(s: State, level: bv3, m: Words, handler: bv32)
    ensures var (t, m') := Interrupted(s, level, m, handler);
            && Started(s, t, handler, level, false)
            && (!s.sr.m ==>
                  && Along(t.a7, 8) == s.isp && OnlyAt(m, m', t.a7, {0, 2, 4, 6})
                  && ShortTable(m', t.a7, StatusNumber(s.sr), s.pc, 4 * (24 + level as bv16)))
            && (s.sr.m ==>
                  && Along(t.a7, 10) == s.isp && OnlyAt(IrqFirst(s, level, m).1, m', t.a7, {0, 2, 4, 6, 8})
                  && ShortTable(m', t.a7, StatusNumber(s.sr), s.pc, 0)
                  && Word(m', t.a7, 8) == 0x1000 + 4 * (24 + level as bv16))
  {
    hide Along, Back, Push16, Push32, Packed, StatusNumber, ShortTable, OnlyAt, Throwaway, IrqFirst, HighHalf, LowHalf,
         Word;
    IrqFirstEntry(s, level, m);
    if s.sr.m {
      DownUp(s.isp, 10);
      PackedNumber(s.sr);
      IrqNumbers(level);
      SecondPushed(Stack(IrqFirst(s, level, m).1, s.isp), level, s.pc, Packed(s.sr), Back(s.isp, 10));
    }
  }

  lemma SecondPushed(k: Stack, level: bv3, pc: bv32, w: bv16, a: bv32)
    requires k.a == Along(a, 10)
    ensures var p := Push16(Push32(Push32(k, Throwaway(level)), pc), w);
            p.a == a && ShortTable(p.m, a, w, pc, HighHalf(Throwaway(level)))
            && Word(p.m, a, 8) == LowHalf(Throwaway(level)) && OnlyAt(k.m, p.m, a, {0, 2, 4, 6, 8})
  {
    hide Along, Push16, Push32, Word, LongAt, HighHalf, LowHalf, Throwaway;
    LongPushedAt(k, Throwaway(level), a, 6);
    FootAt(Push32(k, Throwaway(level)), pc, w, a);
  }

  /** The frame of format 3, with EA at offset 8, and the low half of oldpc where the status register
      belongs. */
  lemma FloatEntry(s: State, n: bv16, m: Words, handler: bv32)
    requires n < 0x400
    ensures var (t, m') := FloatEntered(s, n, m, handler);
            && Along(t.a7, 12) == MasterOr(s)
            && LongTable(m', t.a7, LowWord(s.oldpc), s.pc, 0x3000 + 4 * n, s.ea)
            && OnlyAt(m, m', t.a7, {0, 2, 4, 6, 8, 10})
            && Started(s, t, handler, s.sr.i, s.sr.m)
  {
    hide LowWord, Along, Back, Push16, Push32, LowHalf, FloatVector, LongTable, OnlyAt, Supervisor, MasterOr;
    Supervised(s);
    DownUp(MasterOr(s), 12);
    VectorNumbers(n);
    LowNumber(s.oldpc);
    LongFramePushed(Stack(m, MasterOr(s)), s.ea, FloatVector(n), s.pc, LowHalf(s.oldpc), Back(MasterOr(s), 12));
  }

  function LowWord(v: bv32): bv16 { (v % 0x1_0000) as bv16 }

  lemma LowNumber(v: bv32)
    ensures LowHalf(v) == LowWord(v)
  {
    assert v & 0xFFFF == v % 0x1_0000;
  }

  // ---- The stack pointers ----

  /** SetSR puts A7 away in the bank of the old S and M, and takes it from that of the new: bits 13
      and 12 of the word. */
  lemma StacksSwitched(s: State, w: bv16)
    ensures var t := SetSR(s, w);
            && t.usp == (if s.sr.s then s.usp else s.a7)
            && t.isp == (if s.sr.s && !s.sr.m then s.a7 else s.isp)
            && t.msp == (if s.sr.s && s.sr.m then s.a7 else s.msp)
            && t.a7 == (if w / 0x2000 % 2 == 0 then t.usp else if w / 0x1000 % 2 == 1 then t.msp else t.isp)
  {
    hide Unpacked;
    SpaceBits(w);
  }

  lemma SpaceBits(w: bv16)
    ensures Unpacked(w).s <==> w / 0x2000 % 2 != 0
    ensures Unpacked(w).m <==> w / 0x1000 % 2 == 1
  {}
}
