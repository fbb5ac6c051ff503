/**
 Reads and writes in numbers: which byte of which word of memory an address stands for, what a byte,
 word or long access comes to, and what a write leaves.
 */
module BusNumbers {
  import opened Addresses
  import NumberFacts
  import opened MmuTables
  import opened Atc
  import opened AtcTheorems
  import opened AtcLive
  import opened BusAccess
  import opened WalkNumbers

  // ---- Bytes of memory ----

  /** The word that holds the byte at a. */
  function WordLoc(a: bv32): Loc { At(a - a % 4) }

  /** Byte k of a word, the first the most significant. */
  function ByteOf(w: bv32, k: bv32): bv32 {
    if k == 0 then w / 0x100_0000 % 0x100 else if k == 1 then w / 0x1_0000 % 0x100
    else if k == 2 then w / 0x100 % 0x100 else w / 1 % 0x100
  }

  /** The word with the low eight bits of b for its byte k. */
  function Replaced(w: bv32, k: bv32, b: bv32): bv32 {
    if k == 0 then w - w / 0x100_0000 % 0x100 * 0x100_0000 + b % 0x100 * 0x100_0000
    else if k == 1 then w - w / 0x1_0000 % 0x100 * 0x1_0000 + b % 0x100 * 0x1_0000
    else if k == 2 then w - w / 0x100 % 0x100 * 0x100 + b % 0x100 * 0x100
    else w - w / 1 % 0x100 * 1 + b % 0x100 * 1
  }

  function ByteAt(m: Memory, a: bv32): bv32
    requires WordLoc(a) in m
  {
    ByteOf(m[WordLoc(a)], a % 4)
  }

  function Stored(m: Memory, a: bv32, b: bv32): Memory
    requires WordLoc(a) in m
  {
    m[WordLoc(a) := Replaced(m[WordLoc(a)], a % 4, b)]
  }

  lemma PlaceNumbers(a: bv32)
    ensures WordAt(a) == WordLoc(a) && Lane(a) == a % 4 && a % 4 < 4
  {
    NumberFacts.Cut4(a);
    NumberFacts.Lane(a);
  }

  lemma GetNumber(w: bv32, k: bv32)
    ensures GetByte(w, k) == ByteOf(w, k)
  {
    NumberFacts.Lane0(w);
    NumberFacts.Lane1(w);
    NumberFacts.Lane2(w);
    NumberFacts.Lane3(w);
  }

  lemma SetNumber(w: bv32, k: bv32, b: bv32)
    ensures SetByte(w, k, b) == Replaced(w, k, b)
  {
    NumberFacts.Replaces0(w, b);
    NumberFacts.Replaces1(w, b);
    NumberFacts.Replaces2(w, b);
    NumberFacts.Replaces3(w, b);
  }

  lemma ByteNumber(m: Memory, a: bv32)
    ensures Mapped(m, a) <==> WordLoc(a) in m
    ensures Mapped(m, a) ==> MemByte(m, a) == ByteAt(m, a)
  {
    hide WordAt, WordLoc, Lane, GetByte, ByteOf;
    PlaceNumbers(a);
    if Mapped(m, a) {
      GetNumber(m[WordLoc(a)], a % 4);
    }
  }

  lemma StoredNumber(m: Memory, a: bv32, b: bv32)
    requires Mapped(m, a)
    ensures WordLoc(a) in m && StoreByte(m, a, b) == Stored(m, a, b)
  {
    hide WordAt, WordLoc, Lane, SetByte, Replaced;
    PlaceNumbers(a);
    SetNumber(m[WordLoc(a)], a % 4, b);
  }

  /** A byte follows those read before; an error at it carries SSW_MA, bit 11. */
  lemma FollowingByte(acc: bv32, b: bv32, e: bv16)
    requires b < 0x100
    ensures Append(acc, b) == 0x100 * acc + b
    ensures Misaligned(e) == if e / 0x800 % 2 == 1 then e else e + 0x800
  {
    NumberFacts.OneMore(acc, b);
    NumberFacts.Bit11(e);
  }

  lemma FirstByte(v: bv32)
    ensures TopByte(v, 4) == v / 0x100_0000 && TopByte(v, 3) == v / 0x1_0000 % 0x100
    ensures TopByte(v, 2) == v / 0x100 % 0x100 && TopByte(v, 1) == v % 0x100
  {}

  // ---- Words and longs ----

  /** Two and four bytes from a on. */
  predicate HasWord(m: Memory, a: bv32) { WordLoc(a) in m && WordLoc(Along(a, 1)) in m }
  predicate HasLong(m: Memory, a: bv32) { HasWord(m, a) && WordLoc(Along(a, 2)) in m && WordLoc(Along(a, 3)) in m }

  function WordNumber(m: Memory, a: bv32): bv32
    requires HasWord(m, a)
  {
    0x100 * ByteAt(m, a) + ByteAt(m, Along(a, 1))
  }

  function Sum4(b0: bv32, b1: bv32, b2: bv32, b3: bv32): bv32 {
    0x100_0000 * b0 + 0x1_0000 * b1 + 0x100 * b2 + b3
  }

  function LongNumber(m: Memory, a: bv32): bv32
    requires HasLong(m, a)
  {
    Sum4(ByteAt(m, a), ByteAt(m, Along(a, 1)), ByteAt(m, Along(a, 2)), ByteAt(m, Along(a, 3)))
  }

  function StoredWord(m: Memory, a: bv32, v: bv32): Memory
    requires HasWord(m, a)
  {
    Stored(Stored(m, a, v / 0x100 % 0x100), Along(a, 1), v % 0x100)
  }

  function StoredLong(m: Memory, a: bv32, v: bv32): Memory
    requires HasLong(m, a)
  {
    hide WordLoc, Replaced, Along;
    Stored(Stored(Stored(Stored(m, a, v / 0x100_0000), Along(a, 1), v / 0x1_0000 % 0x100), Along(a, 2),
                  v / 0x100 % 0x100), Along(a, 3),
           v % 0x100)
  }

  lemma FirstNext(a: bv32)
    ensures Succ(a) == Along(a, 1)
  {}

  lemma SecondNext(a: bv32)
    ensures Succ(Along(a, 1)) == Along(a, 2)
  {}

  lemma ThirdNext(a: bv32)
    ensures Succ(Along(a, 2)) == Along(a, 3)
  {}

  lemma NextBytes(a: bv32)
    ensures Succ(a) == Along(a, 1) && Succ(Along(a, 1)) == Along(a, 2) && Succ(Along(a, 2)) == Along(a, 3)
  {
    hide Succ, Along;
    FirstNext(a);
    SecondNext(a);
    ThirdNext(a);
  }

  lemma PresentStep(m: Memory, a: bv32, n: nat)
    requires n > 0
    ensures MappedRun(m, a, n) <==> WordLoc(a) in m && (n == 1 || MappedRun(m, Succ(a), n - 1))
  {
    hide Succ, Mapped, WordLoc;
    ByteNumber(m, a);
  }

  lemma RunPresent(m: Memory, a: bv32)
    ensures MappedRun(m, a, 1) <==> WordLoc(a) in m
    ensures MappedRun(m, a, 2) <==> HasWord(m, a)
    ensures MappedRun(m, a, 4) <==> HasLong(m, a)
  {
    hide Succ, Along, WordLoc, MappedRun;
    NextBytes(a);
    PresentStep(m, a, 1);
    PresentStep(m, a, 2);
    PresentStep(m, Along(a, 1), 1);
    PresentStep(m, a, 4);
    PresentStep(m, Along(a, 1), 3);
    PresentStep(m, Along(a, 2), 2);
    PresentStep(m, Along(a, 3), 1);
  }

  lemma ByteSmall(m: Memory, a: bv32)
    requires WordLoc(a) in m
    ensures ByteAt(m, a) < 0x100
  {
    hide WordLoc;
  }

  lemma OneAppended(b0: bv32)
    ensures Append(0, b0) == b0
  {
    NumberFacts.OneByte(b0);
  }

  lemma TwoAppended(b0: bv32, b1: bv32)
    requires b0 < 0x100 && b1 < 0x100
    ensures Append(b0, b1) == 0x100 * b0 + b1
  {
    NumberFacts.TwoBytes(b0, b1);
  }

  lemma FourAppended(b0: bv32, b1: bv32, b2: bv32, b3: bv32)
    requires b0 < 0x100 && b1 < 0x100 && b2 < 0x100 && b3 < 0x100
    ensures Append(Append(Append(b0, b1), b2), b3) == Sum4(b0, b1, b2, b3)
  {
    NumberFacts.FourBytes(b0, b1, b2, b3);
  }

  lemma ReadStep(m: Memory, a: bv32, n: nat, acc: bv32)
    requires n > 0 && MappedRun(m, a, n)
    ensures Mapped(m, a) && MappedRun(m, Succ(a), n - 1)
    ensures LoadRun(m, a, n, acc) == LoadRun(m, Succ(a), n - 1, Append(acc, MemByte(m, a)))
    ensures n == 1 ==> LoadRun(m, a, n, acc) == Append(acc, MemByte(m, a))
  {
    hide Succ, Mapped, Append, MemByte;
  }

  lemma ByteRun(m: Memory, a: bv32)
    requires WordLoc(a) in m
    ensures MappedRun(m, a, 1) && LoadRun(m, a, 1, 0) == ByteAt(m, a)
  {
    RunPresent(m, a);
    hide WordLoc, Append, ByteAt, Succ, MemByte, LoadRun, MappedRun, Mapped, HasWord, HasLong;
    ReadStep(m, a, 1, 0);
    ByteNumber(m, a);
    OneAppended(ByteAt(m, a));
  }

  lemma WordRun(m: Memory, a: bv32)
    requires HasWord(m, a)
    ensures MappedRun(m, a, 2) && LoadRun(m, a, 2, 0) == WordNumber(m, a)
  {
    RunPresent(m, a);
    hide WordLoc, Append, ByteAt, Succ, MemByte, LoadRun, MappedRun, Mapped, Along, HasLong;
    NextBytes(a);
    var b := Along(a, 1);
    ReadStep(m, a, 2, 0);
    ReadStep(m, b, 1, Append(0, MemByte(m, a)));
    ByteNumber(m, a);
    ByteNumber(m, b);
    ByteSmall(m, a);
    ByteSmall(m, b);
    OneAppended(ByteAt(m, a));
    TwoAppended(ByteAt(m, a), ByteAt(m, b));
  }

  lemma LongRun(m: Memory, a: bv32)
    requires HasLong(m, a)
    ensures MappedRun(m, a, 4) && LoadRun(m, a, 4, 0) == LongNumber(m, a)
  {
    RunPresent(m, a);
    hide WordLoc, Append, ByteAt, Succ, MemByte, LoadRun, MappedRun, Mapped, Along, Sum4;
    NextBytes(a);
    var b, c, d := Along(a, 1), Along(a, 2), Along(a, 3);
    ReadStep(m, a, 4, 0);
    var x := Append(0, MemByte(m, a));
    ReadStep(m, b, 3, x);
    var y := Append(x, MemByte(m, b));
    ReadStep(m, c, 2, y);
    ReadStep(m, d, 1, Append(y, MemByte(m, c)));
    LongBytes(m, a, b, c, d);
  }

  lemma LongBytes(m: Memory, a: bv32, b: bv32, c: bv32, d: bv32)
    requires WordLoc(a) in m && WordLoc(b) in m && WordLoc(c) in m && WordLoc(d) in m
    ensures Mapped(m, a) && Mapped(m, b) && Mapped(m, c) && Mapped(m, d)
    ensures Append(Append(Append(Append(0, MemByte(m, a)), MemByte(m, b)), MemByte(m, c)), MemByte(m, d))
            == Sum4(ByteAt(m, a), ByteAt(m, b), ByteAt(m, c), ByteAt(m, d))
  {
    hide WordLoc, Append, ByteAt, MemByte, Mapped, Sum4;
    forall e | e == a || e == b || e == c || e == d
      ensures Mapped(m, e) && MemByte(m, e) == ByteAt(m, e) && ByteAt(m, e) < 0x100
    {
      ByteNumber(m, e);
      ByteSmall(m, e);
    }
    OneAppended(ByteAt(m, a));
    FourAppended(ByteAt(m, a), ByteAt(m, b), ByteAt(m, c), ByteAt(m, d));
  }

  lemma StoreStep(m: Memory, a: bv32, n: nat, v: bv32)
    requires n > 0 && MappedRun(m, a, n)
    ensures WordLoc(a) in m && MappedRun(Stored(m, a, TopByte(v, n)), Succ(a), n - 1)
    ensures StoreRun(m, a, n, v) == StoreRun(Stored(m, a, TopByte(v, n)), Succ(a), n - 1, v)
    ensures n == 1 ==> StoreRun(m, a, n, v) == Stored(m, a, TopByte(v, n))
  {
    hide Succ, Mapped, Stored, StoreByte, WordLoc, TopByte;
    StoredNumber(m, a, TopByte(v, n));
    StoredKeys(m, a, TopByte(v, n));
    MappedKeys(m, Stored(m, a, TopByte(v, n)), Succ(a), n - 1);
  }

  lemma StoredKeys(m: Memory, a: bv32, b: bv32)
    requires WordLoc(a) in m
    ensures Stored(m, a, b).Keys == m.Keys
  {
    hide WordLoc, Replaced;
  }

  lemma ByteStored(m: Memory, a: bv32, v: bv32)
    requires WordLoc(a) in m
    ensures MappedRun(m, a, 1) && StoreRun(m, a, 1, v) == Stored(m, a, v % 0x100)
  {
    RunPresent(m, a);
    hide WordLoc, Stored, TopByte, Succ, StoreRun, MappedRun;
    StoreStep(m, a, 1, v);
    FirstByte(v);
  }

  lemma WordStored(m: Memory, a: bv32, v: bv32)
    requires HasWord(m, a)
    ensures MappedRun(m, a, 2) && StoreRun(m, a, 2, v) == StoredWord(m, a, v)
  {
    RunPresent(m, a);
    hide WordLoc, Stored, TopByte, Succ, StoreRun, MappedRun, Along, HasLong;
    NextBytes(a);
    FirstByte(v);
    StoreStep(m, a, 2, v);
    StoreStep(Stored(m, a, TopByte(v, 2)), Along(a, 1), 1, v);
  }

  lemma LongStored(m: Memory, a: bv32, v: bv32)
    requires HasLong(m, a)
    ensures MappedRun(m, a, 4) && StoreRun(m, a, 4, v) == StoredLong(m, a, v)
  {
    RunPresent(m, a);
    hide WordLoc, Stored, TopByte, Succ, StoreRun, MappedRun, Along;
    NextBytes(a);
    FirstByte(v);
    StoreStep(m, a, 4, v);
    var m1 := Stored(m, a, TopByte(v, 4));
    StoreStep(m1, Along(a, 1), 3, v);
    var m2 := Stored(m1, Along(a, 1), TopByte(v, 3));
    StoreStep(m2, Along(a, 2), 2, v);
    StoreStep(Stored(m2, Along(a, 2), TopByte(v, 2)), Along(a, 3), 1, v);
  }

  // ---- Whole words of memory ----

  lemma OwnWord(a: bv32)
    requires a % 4 == 0
    ensures WordLoc(a) == At(a)
  {}

  lemma SecondByte(a: bv32)
    requires a % 4 == 0
    ensures WordLoc(Along(a, 1)) == At(a) && Along(a, 1) % 4 == 1
  {}

  lemma ThirdByte(a: bv32)
    requires a % 4 == 0
    ensures WordLoc(Along(a, 2)) == At(a) && Along(a, 2) % 4 == 2
  {}

  lemma FourthByte(a: bv32)
    requires a % 4 == 0
    ensures WordLoc(Along(a, 3)) == At(a) && Along(a, 3) % 4 == 3
  {}

  lemma AllBytes(w: bv32)
    ensures Sum4(ByteOf(w, 0), ByteOf(w, 1), ByteOf(w, 2), ByteOf(w, 3)) == w
  {
    NumberFacts.WordSum(w);
  }

  lemma AllSet(w: bv32, v: bv32)
    ensures SetByte(SetByte(SetByte(SetByte(w, 0, TopByte(v, 4)), 1, TopByte(v, 3)), 2, TopByte(v, 2)), 3,
                    TopByte(v, 1)) == v
  {
    NumberFacts.Rewritten(w, v);
  }

  lemma AllReplaced(w: bv32, v: bv32)
    ensures Replaced(Replaced(Replaced(Replaced(w, 0, v / 0x100_0000), 1, v / 0x1_0000 % 0x100), 2, v / 0x100 % 0x100),
                     3, v % 0x100) == v
  {
    hide SetByte, Replaced, TopByte;
    AllSet(w, v);
    FirstByte(v);
    var w1 := Replaced(w, 0, TopByte(v, 4));
    var w2 := Replaced(w1, 1, TopByte(v, 3));
    var w3 := Replaced(w2, 2, TopByte(v, 2));
    SetNumber(w, 0, TopByte(v, 4));
    SetNumber(w1, 1, TopByte(v, 3));
    SetNumber(w2, 2, TopByte(v, 2));
    SetNumber(w3, 3, TopByte(v, 1));
  }

  /** The long at a multiple of four is a word of memory. */
  lemma AlignedLong(m: Memory, a: bv32, v: bv32)
    requires a % 4 == 0 && At(a) in m
    ensures HasLong(m, a) && LongNumber(m, a) == m[At(a)] && StoredLong(m, a, v) == m[At(a) := v]
  {
    hide WordLoc, Along, Sum4, ByteOf, Replaced;
    OwnWord(a);
    SecondByte(a);
    ThirdByte(a);
    FourthByte(a);
    AllBytes(m[At(a)]);
    AllReplaced(m[At(a)], v);
  }

  // ---- What an access comes to ----

  /** Nothing stale is used; transparent and untranslated accesses use nothing. */
  predicate Fresh(r: Registers, st: State, sys: bool, addr: bv32, code: bool)
    requires Shaped(st.atc)
  {
    r.tcrE && !Transparent(r, sys, addr, code) ==> !Stale(r, st, PageOf(addr), sys, code)
  }

  /** A byte: the answer of the numbers of the memory left, and the byte of the word there, or the error
      code 0 where there is no memory.  A locked read needs the right to write. */
  lemma ByteRead(r: Registers, st: State, sys: bool, addr: bv32, lock: bool)
    requires LiveInv(r, st) && Aligned(r) && Fresh(r, st, sys, addr, false)
    ensures var (x, st') := ReadB(r, st, sys, addr, lock);
            x == match Outcome(r, st'.mem, sys, addr, false, lock)
                 case Fail(e) => ReadError(e)
                 case Phys(a) => if WordLoc(a) in st'.mem then Data(ByteAt(st'.mem, a)) else ReadError(0)
  {
    hide LiveInv, Aligned, PtestAndCheck, Outcome, WordLoc, MappedRun, LoadRun, ByteAt, Transparent, Stale, PageOf;
    LiveShape(r, st);
    AccessOutcome(r, st, sys, addr, false, lock);
    var (c, st') := PtestAndCheck(r, st, sys, addr, false, lock);
    if c.Phys? {
      RunPresent(st'.mem, c.a);
      if WordLoc(c.a) in st'.mem {
        ByteRun(st'.mem, c.a);
      }
    }
  }

  /** A word in one cycle: at an even address, or for code. */
  lemma WordRead(r: Registers, st: State, sys: bool, addr: bv32, code: bool, lock: bool)
    requires LiveInv(r, st) && Aligned(r) && Fresh(r, st, sys, addr, code) && (code || addr % 2 == 0)
    ensures var (x, st') := ReadW(r, st, sys, addr, code, lock);
            x == match Outcome(r, st'.mem, sys, addr, code, lock)
                 case Fail(e) => ReadError(e)
                 case Phys(a) => if HasWord(st'.mem, a) then Data(WordNumber(st'.mem, a)) else ReadError(0)
  {
    hide LiveInv, Aligned, PtestAndCheck, Outcome, HasWord, HasLong, WordLoc, MappedRun, LoadRun, WordNumber,
         Transparent, Stale, PageOf, ReadB;
    Halved(addr);
    LiveShape(r, st);
    AccessOutcome(r, st, sys, addr, code, lock);
    var (c, st') := PtestAndCheck(r, st, sys, addr, code, lock);
    if c.Phys? {
      RunPresent(st'.mem, c.a);
      if HasWord(st'.mem, c.a) {
        WordRun(st'.mem, c.a);
      }
    }
  }

  lemma Halved(addr: bv32)
    ensures addr & 1 != 0 <==> addr % 2 != 0
    ensures addr & 2 != 0 <==> addr % 4 >= 2
  {}

  /** A long in one cycle: at the first or second byte of a word of memory. */
  lemma LongRead(r: Registers, st: State, sys: bool, addr: bv32, lock: bool)
    requires LiveInv(r, st) && Aligned(r) && Fresh(r, st, sys, addr, false) && addr % 4 < 2
    ensures var (x, st') := ReadL(r, st, sys, addr, lock);
            x == match Outcome(r, st'.mem, sys, addr, false, lock)
                 case Fail(e) => ReadError(e)
                 case Phys(a) => if HasLong(st'.mem, a) then Data(LongNumber(st'.mem, a)) else ReadError(0)
  {
    hide LiveInv, Aligned, PtestAndCheck, Outcome, HasWord, HasLong, WordLoc, MappedRun, LoadRun, LongNumber,
         Transparent, Stale, PageOf, ReadW;
    Halved(addr);
    LiveShape(r, st);
    AccessOutcome(r, st, sys, addr, false, lock);
    var (c, st') := PtestAndCheck(r, st, sys, addr, false, lock);
    if c.Phys? {
      RunPresent(st'.mem, c.a);
      if HasLong(st'.mem, c.a) {
        LongRun(st'.mem, c.a);
      }
    }
  }

  lemma FrameKeepsLow(large: bool, pg: bv32, addr: bv32)
    ensures FrameAndOffset(large, pg, addr) % 4 == addr % 4
  {}

  /** Addresses keep their low bits. */
  lemma LowBits(r: Registers, m: Memory, sys: bool, addr: bv32, code: bool, write: bool)
    ensures var c := Outcome(r, m, sys, addr, code, write); c.Phys? ==> c.a % 4 == addr % 4
  {
    hide Transparent, TransparentProtected, Walked, FrameAndOffset, Protected, Supervised;
    var w := Walked(r, m, sys, addr).walk;
    if Granted(m, w, sys, write) {
      FrameKeepsLow(r.tcrP, m[w.desc], addr);
    }
  }

  /** A long of data at a multiple of four is the word of memory at the address translated. */
  lemma AlignedRead(r: Registers, st: State, sys: bool, addr: bv32, lock: bool)
    requires LiveInv(r, st) && Aligned(r) && Fresh(r, st, sys, addr, false) && addr % 4 == 0
    ensures var (x, st') := ReadL(r, st, sys, addr, lock);
            var c := Outcome(r, st'.mem, sys, addr, false, lock);
            c.Phys? && At(c.a) in st'.mem ==> x == Data(st'.mem[At(c.a)])
  {
    hide LiveInv, Aligned, ReadL, Outcome, Fresh, HasLong, LongNumber, StoredLong;
    LiveShape(r, st);
    LongRead(r, st, sys, addr, lock);
    var m := ReadL(r, st, sys, addr, lock).1.mem;
    LowBits(r, m, sys, addr, false, lock);
    var c := Outcome(r, m, sys, addr, false, lock);
    if c.Phys? && At(c.a) in m {
      AlignedLong(m, c.a, 0);
    }
  }

  /** Memory with its tables as the translation of a write leaves them. */
  function Translated(r: Registers, st: State, sys: bool, addr: bv32): Memory
    requires Shaped(st.atc)
  {
    Ptest(r, st, PageOf(addr), sys, false, true).1.mem
  }

  /** What the translation of a write comes to, in its numbers. */
  lemma WriteOutcome(r: Registers, st: State, sys: bool, addr: bv32)
    requires LiveInv(r, st) && Aligned(r) && Fresh(r, st, sys, addr, false)
    ensures Shaped(st.atc)
    ensures var (c, st') := PtestAndCheck(r, st, sys, addr, false, true);
            var m := Translated(r, st, sys, addr);
            st'.mem == m && c == Outcome(r, m, sys, addr, false, true)
  {
    hide LiveInv, Aligned, Outcome, Transparent, Stale, PageOf, Ptest, Check;
    LiveShape(r, st);
    AccessOutcome(r, st, sys, addr, false, true);
  }

  /** A byte written: one byte of one word of memory, or nothing but what the translation left. */
  lemma ByteWritten(r: Registers, st: State, sys: bool, addr: bv32, b: bv32)
    requires LiveInv(r, st) && Aligned(r) && Fresh(r, st, sys, addr, false)
    ensures Shaped(st.atc)
    ensures var (x, st') := WriteB(r, st, sys, addr, b);
            var m := Translated(r, st, sys, addr);
            match Outcome(r, m, sys, addr, false, true)
            case Fail(e) => x == WriteError(e) && st'.mem == m
            case Phys(a) =>
              if WordLoc(a) in m then x == Done && st'.mem == Stored(m, a, b % 0x100)
              else x == WriteError(0) && st'.mem == m
  {
    hide LiveInv, Aligned, PtestAndCheck, Outcome, WordLoc, MappedRun, StoreRun, Stored, Fresh, Translated;
    WriteOutcome(r, st, sys, addr);
    var (c, st') := PtestAndCheck(r, st, sys, addr, false, true);
    if c.Phys? {
      RunPresent(st'.mem, c.a);
      if WordLoc(c.a) in st'.mem {
        ByteStored(st'.mem, c.a, b);
      }
    }
  }

  lemma WordWritten(r: Registers, st: State, sys: bool, addr: bv32, w: bv32)
    requires LiveInv(r, st) && Aligned(r) && Fresh(r, st, sys, addr, false) && addr % 2 == 0
    ensures Shaped(st.atc)
    ensures var (x, st') := WriteW(r, st, sys, addr, w);
            var m := Translated(r, st, sys, addr);
            match Outcome(r, m, sys, addr, false, true)
            case Fail(e) => x == WriteError(e) && st'.mem == m
            case Phys(a) =>
              if HasWord(m, a) then x == Done && st'.mem == StoredWord(m, a, w)
              else x == WriteError(0) && st'.mem == m
  {
    hide LiveInv, Aligned, PtestAndCheck, Outcome, WordLoc, HasWord, HasLong, MappedRun, StoreRun, StoredWord, Fresh,
         Translated, WriteB;
    Halved(addr);
    WriteOutcome(r, st, sys, addr);
    var (c, st') := PtestAndCheck(r, st, sys, addr, false, true);
    if c.Phys? {
      RunPresent(st'.mem, c.a);
      if HasWord(st'.mem, c.a) {
        WordStored(st'.mem, c.a, w);
      }
    }
  }

  lemma LongWritten(r: Registers, st: State, sys: bool, addr: bv32, l: bv32)
    requires LiveInv(r, st) && Aligned(r) && Fresh(r, st, sys, addr, false) && addr % 4 < 2
    ensures Shaped(st.atc)
    ensures var (x, st') := WriteL(r, st, sys, addr, l);
            var m := Translated(r, st, sys, addr);
            match Outcome(r, m, sys, addr, false, true)
            case Fail(e) => x == WriteError(e) && st'.mem == m
            case Phys(a) =>
              if HasLong(m, a) then x == Done && st'.mem == StoredLong(m, a, l)
              else x == WriteError(0) && st'.mem == m
  {
    hide LiveInv, Aligned, PtestAndCheck, Outcome, WordLoc, HasWord, HasLong, MappedRun, StoreRun, StoredLong, Fresh,
         Translated, WriteW;
    Halved(addr);
    WriteOutcome(r, st, sys, addr);
    var (c, st') := PtestAndCheck(r, st, sys, addr, false, true);
    if c.Phys? {
      RunPresent(st'.mem, c.a);
      if HasLong(st'.mem, c.a) {
        LongStored(st'.mem, c.a, l);
      }
    }
  }

  /** A long at a multiple of four replaces the word of memory at the address translated. */
  lemma AlignedWrite(r: Registers, st: State, sys: bool, addr: bv32, l: bv32)
    requires LiveInv(r, st) && Aligned(r) && Fresh(r, st, sys, addr, false) && addr % 4 == 0
    ensures Shaped(st.atc)
    ensures var (x, st') := WriteL(r, st, sys, addr, l);
            var m := Translated(r, st, sys, addr);
            var c := Outcome(r, m, sys, addr, false, true);
            c.Phys? && At(c.a) in m ==> x == Done && st'.mem == m[At(c.a) := l]
  {
    hide LiveInv, Aligned, WriteL, Outcome, Fresh, HasLong, LongNumber, StoredLong, Translated;
    LongWritten(r, st, sys, addr, l);
    var m := Translated(r, st, sys, addr);
    LowBits(r, m, sys, addr, false, true);
    var c := Outcome(r, m, sys, addr, false, true);
    if c.Phys? && At(c.a) in m {
      AlignedLong(m, c.a, l);
    }
  }
}
