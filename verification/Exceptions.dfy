/**
 Exception frames and RTE.  All accesses to a frame are to words at even distances from the
 stack pointer, so memory is a map from addresses to words.
 */
module Exceptions {
  import opened Addresses
  import opened ByteBus

  type Words = map<Loc, bv16>

  datatype Sr = Sr(x: bool, n: bool, z: bool, v: bool, c: bool, i: bv3, m: bool, s: bool, t: bv2)

  datatype State = State(sr: Sr, a7: bv32, usp: bv32, isp: bv32, msp: bv32, pc: bv32, oldpc: bv32, ea: bv32,
                         movemRun: bool, mustTrace: bool, ssw: bv16, exAddr: bv32)

  // ---- The status register as a word ----

  function Bit16(b: bool): bv16 { if b then 1 else 0 }

  function StatusWord(x: bv16, n: bv16, z: bv16, v: bv16, c: bv16, i: bv16, m: bv16, s: bv16, t: bv16): bv16 {
    (x << 4) | (n << 3) | (z << 2) | (v << 1) | c | (i << 8) | (m << 12) | (s << 13) | (t << 14)
  }

  /** GetSR. */
  function Packed(r: Sr): bv16 {
    StatusWord(Bit16(r.x), Bit16(r.n), Bit16(r.z), Bit16(r.v), Bit16(r.c), r.i as bv16, Bit16(r.m), Bit16(r.s),
               r.t as bv16)
  }

  /** The assignments of SetSR and SetCCR. */
  function Unpacked(w: bv16): Sr {
    Sr((w >> 4) & 1 == 1, (w >> 3) & 1 == 1, (w >> 2) & 1 == 1, (w >> 1) & 1 == 1, w & 1 == 1,
       ((w >> 8) & 7) as bv3, (w >> 12) & 1 == 1, (w >> 13) & 1 == 1, ((w >> 14) & 3) as bv2)
  }

  lemma PackedBack(r: Sr)
    ensures Unpacked(Packed(r)) == r
  {}

  // ---- The stack ----

  datatype Stack = Stack(m: Words, a: bv32)

  /** ex_PUSH16. */
  function Push16(s: Stack, w: bv16): Stack {
    var a := Back(s.a, 2);
    Stack(s.m[At(a) := w], a)
  }

  function LowHalf(v: bv32): bv16 { (v & 0xFFFF) as bv16 }

  function HighHalf(v: bv32): bv16 { (v >> 16) as bv16 }

  function Joined(high: bv16, low: bv16): bv32 { ((high as bv32) << 16) | (low as bv32) }

  lemma JoinHalves(v: bv32)
    ensures Joined(HighHalf(v), LowHalf(v)) == v
  {}

  /** ex_PUSH32: the low half first. */
  function Push32(s: Stack, v: bv32): Stack { Push16(Push16(s, LowHalf(v)), HighHalf(v)) }

  /** The word k bytes above a. */
  function Word(m: Words, a: bv32, k: bv32): bv16 {
    if At(Along(a, k)) in m then m[At(Along(a, k))] else 0
  }

  // ---- Words on a stack ----

  lemma AlongApart(a: bv32, j: bv32, k: bv32)
    ensures Along(a, j) == Along(a, k) <==> j == k
  {
    hide Along;
    AlongBack(a, j);
    AlongBack(a, k);
  }

  lemma BackInline(a: bv32, k: bv32)
    ensures Back(a + k, a) == k
  {}

  lemma AlongBack(a: bv32, k: bv32)
    ensures Back(Along(a, k), a) == k
  {
    hide Along, Back;
    AlongInline(a, k);
    BackInline(a, k);
  }

  /** One word further down. */
  lemma Down(a: bv32, k: bv32)
    ensures Back(Along(a, k + 2), 2) == Along(a, k)
  {
    assert (a + (k + 2)) - 2 == a + k;
  }

  lemma Above0(a: bv32)
    ensures Along(a, 0) == a
  {}

  lemma Above2(a: bv32)
    ensures Along(Along(a, 2), 2) == Along(a, 4)
  {}

  lemma Above4(a: bv32)
    ensures Along(Along(a, 2), 4) == Along(a, 6)
  {}

  lemma Above6(a: bv32)
    ensures Along(Along(a, 6), 2) == Along(a, 8)
  {}

  lemma Above8(a: bv32)
    ensures Along(Along(a, 8), 2) == Along(a, 10)
  {}

  lemma Above8By4(a: bv32)
    ensures Along(Along(a, 8), 4) == Along(a, 12)
  {}

  lemma Above8By52(a: bv32)
    ensures Along(Along(a, 8), 52) == Along(a, 60)
  {}

  lemma Skip36(a: bv32)
    ensures Back(Along(a, 60), 36) == Along(a, 24)
  {}

  lemma Skip6(a: bv32)
    ensures Back(Along(a, 20), 6) == Along(a, 14)
  {}

  lemma BackSame(a: bv32, n: bv32)
    ensures Along(a - n, n) == a
  {}

  lemma BackIs(a: bv32, n: bv32)
    ensures Back(a, n) == a - n
  {}

  /** A word pushed is read back, and the words above stay. */
  lemma Pushed(s: Stack, w: bv16, f: bv32, k: bv32, j: bv32)
    requires s.a == Along(f, k + 2)
    ensures Push16(s, w).a == Along(f, k)
    ensures Word(Push16(s, w).m, f, j) == if j == k then w else Word(s.m, f, j)
  {
    hide Along, Back;
    Down(f, k);
    AlongApart(f, j, k);
  }

  /** The two words of a long. */
  lemma PushedLong(s: Stack, v: bv32, f: bv32, k: bv32, j: bv32)
    requires s.a == Along(f, k + 4)
    ensures Push32(s, v).a == Along(f, k)
    ensures Word(Push32(s, v).m, f, j)
            == if j == k then HighHalf(v) else if j == k + 2 then LowHalf(v) else Word(s.m, f, j)
  {
    hide Push16, Along, LowHalf, HighHalf, Word;
    ByTwo(k);
    Pushed(s, LowHalf(v), f, k + 2, j);
    Pushed(Push16(s, LowHalf(v)), HighHalf(v), f, k, j);
  }

  lemma ByTwo(k: bv32)
    ensures (k + 2) + 2 == k + 4
    ensures k != k + 2
  {}

  // ---- Stack pointers ----

  /** The stack pointer that S and M select. */
  function Active(s: State): bv32 {
    if s.sr.s then (if s.sr.m then s.msp else s.isp) else s.usp
  }

  function SaveSP(s: State): State {
    if s.sr.s then (if s.sr.m then s.(msp := s.a7) else s.(isp := s.a7)) else s.(usp := s.a7)
  }

  function LoadSP(s: State): State { s.(a7 := Active(s)) }

  function SetSR(s: State, w: bv16): State {
    LoadSP(SaveSP(s).(sr := Unpacked(w)))
  }

  // ---- Entry ----

  /** What handle_exception pushes: format 0, format 2, or the access fault's format 7. */
  datatype Frame = Short(n: bv16, next: bv32) | Long(n: bv16, addr: bv32, next: bv32) | Access

  function Vector(n: bv16): bv16 { n << 2 }

  function LongVector(n: bv16): bv16 { 0x2000 | (n << 2) }

  predicate Traced(ssw: bv16) { ssw & 0x2000 != 0 }

  predicate MovemFault(ssw: bv16) { ssw & 0x1000 != 0 }

  /** CP, CU, CT or CM. */
  predicate Continues(ssw: bv16) { ssw & 0xF000 != 0 }

  /** The special status word pushed: CT is set when a trace is pending. */
  function PushedSsw(s: State): bv16 { if s.mustTrace then WithTrace(s.ssw) else s.ssw }

  function WithTrace(ssw: bv16): bv16 { ssw | 0x2000 }

  /** S set, the supervisor's stack pointer loaded, tracing off. */
  function Supervisor(s: State): State { LoadSP(s.(sr := s.sr.(s := true))).(sr := s.sr.(s := true, t := 0)) }

  function NextPc(f: Frame, s: State): bv32 { if f.Access? then s.oldpc else f.next }

  /** The part of the frame above the next program counter. */
  function Upper(f: Frame, s: State, k: Stack): Stack {
    match f
    case Short(n, _) => Push16(k, Vector(n))
    case Long(n, addr, _) => Push16(Push32(k, addr), LongVector(n))
    case Access =>
      var k1 := Push32(k.(a := Back(k.a, 36)), s.exAddr);
      var k2 := Push16(k1.(a := Back(k1.a, 6)), PushedSsw(s));
      Push16(Push32(k2, if Continues(PushedSsw(s)) then s.ea else 0), 0x7008)
  }

  function Pushed2(f: Frame, s: State, k: Stack): Stack {
    Push16(Push32(Upper(f, s, k), NextPc(f, s)), Packed(s.sr))
  }

  /** The processor and memory when the handler starts; the vector fetched is `handler`. */
  function Entered(s: State, f: Frame, m: Words, handler: bv32): (State, Words) {
    var t := Supervisor(s);
    var k := Pushed2(f, s, Stack(m, t.a7));
    (t.(a7 := k.a, pc := handler, ssw := if f.Access? then PushedSsw(s) else s.ssw), k.m)
  }

  // ---- RTE ----

  datatype Returned = Resumed(s: State) | OddAddress(s: State, addr: bv32) | TraceTrap(s: State)
                    | Again(s: State) | FormatError

  /** POP32 returns a uint16_t. */
  function Short32(v: bv32): bv32 { v & 0xFFFF }

  function Format(vec: bv16): bv16 { vec >> 12 }

  predicate OddPc(v: bv32) { v & 1 == 1 }

  function Jumped(s: State, pc: bv32): Returned {
    var t := if s.sr.t == 1 then s.(mustTrace := true) else s;
    if OddPc(pc) then OddAddress(t, pc) else Resumed(t.(pc := pc))
  }

  /** The frame of an access fault, from the word above its format on. */
  function RteAccess(s: State, m: Words, a: bv32, sr: bv16, pc: bv32): Returned {
    var ssw := Word(m, a, 4);
    if Traced(ssw) then TraceTrap(SetSR(s.(a7 := Along(a, 52)), sr).(mustTrace := false, pc := pc))
    else
      var t := if MovemFault(ssw) then s.(ea := Joined(Word(m, a, 0), Word(m, a, 2)), movemRun := true) else s;
      Jumped(SetSR(t.(a7 := Along(a, 52)), sr), pc)
  }

  /** The rest of a frame of the given format. */
  function RteRest(s: State, m: Words, format: bv16, a: bv32, sr: bv16, pc: bv32): Returned {
    if format == 0 then Jumped(SetSR(s.(a7 := a), sr), pc)
    else if format == 1 then Again(SetSR(s.(a7 := a), sr))
    else if format == 2 || format == 3 then Jumped(SetSR(s.(a7 := Along(a, 4)), sr), pc)
    else if format == 7 then RteAccess(s, m, a, sr, pc)
    else FormatError
  }

  /** do_rte up to the recursion for a throwaway frame. */
  function Rte(s: State, m: Words): Returned {
    var sr := Word(m, s.a7, 0);
    var a1 := Along(s.a7, 2);
    var pc := Short32(Joined(Word(m, a1, 0), Word(m, a1, 2)));
    var a2 := Along(a1, 4);
    RteRest(s, m, Format(Word(m, a2, 0)), Along(a2, 2), sr, pc)
  }

  /** do_rte, through at most n throwaway frames. */
  function RteAll(s: State, m: Words, n: nat): Returned
    decreases n
  {
    match Rte(s, m)
    case Again(t) => if n == 0 then Again(t) else RteAll(t, m, n - 1)
    case r => r
  }
}
