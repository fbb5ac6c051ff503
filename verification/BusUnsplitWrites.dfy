/**
 Long writes at every address, and reading them back.  The unsplit write stores its last byte
 behind the first three in their frame; four byte writes store it where the next page's
 translation says.
 */
module BusUnsplitWrites {
  import opened Addresses
  import opened MmuTables
  import opened Atc
  import opened AtcInvariant
  import opened AtcTheorems
  import opened AtcData
  import opened AtcMarks
  import opened AtcWrites
  import opened BusAccess
  import opened BusTheorems
  import opened BusWrites
  import opened BusRoundTrip
  import opened BusUnsplitReads
  import opened BusFrames

  // ---- Runs of writes taken apart ----

  /** What is left of a value without its last byte. */
  function Shorter(v: bv32): bv32 { v >> 8 }

  lemma ShorterTop(v: bv32, n: nat)
    requires 1 <= n <= 3
    ensures TopByte(Shorter(v), n) == TopByte(v, n + 1)
  {
    assert (v >> 8) >> 8 == v >> 16;
    assert ((v >> 8) >> 16) & 0xff == v >> 24;
  }

  lemma {:induction false} WriteJoin(r: Registers, st: State, sys: bool, addr: bv32, n: nat, v: bv32, first: bool)
    requires Shaped(st.atc) && n <= 3
    ensures var (x, st') := WriteBytes(r, st, sys, addr, n, Shorter(v), first);
            WriteBytes(r, st, sys, addr, n + 1, v, first)
            == if x.Done? then WriteBytes(r, st', sys, Skip(addr, n), 1, v, first && n == 0) else (x, st')
    decreases n
  {
    hide WriteB, Succ, TopByte, Shorter, Misaligned;
    if n > 0 {
      ShorterTop(v, n);
      var (x, st') := WriteB(r, st, sys, addr, TopByte(v, n + 1));
      if x.Done? {
        WriteJoin(r, st', sys, Succ(addr), n - 1, v, false);
      }
    }
  }

  lemma {:induction false} ApartJoin(r: Registers, st: State, sys: bool, addr: bv32, n: nat, v: bv32, first: bool)
    requires Shaped(st.atc) && n <= 3
    ensures var (x, st') := WriteBytes(r, st, sys, addr, n, Shorter(v), first);
            WriteApart(r, st, sys, addr, n + 1, v)
            == (WriteApart(r, st, sys, addr, n, Shorter(v))
                && (x.Done? ==> WriteApart(r, st', sys, Skip(addr, n), 1, v)))
    decreases n
  {
    hide PtestAndCheck, Succ, TopByte, TableWord, Mapped, StoreByte, WordAt, Shorter, WriteApart, WriteB, Misaligned;
    if n > 0 {
      ShorterTop(v, n);
      ApartStep(r, st, sys, addr, n + 1, v);
      ApartStep(r, st, sys, addr, n, Shorter(v));
      var (x, st') := WriteB(r, st, sys, addr, TopByte(v, n + 1));
      if x.Done? {
        ApartJoin(r, st', sys, Succ(addr), n - 1, v, false);
      }
    } else {
      NoneApart(r, st, sys, addr, Shorter(v));
    }
  }

  lemma NoneApart(r: Registers, st: State, sys: bool, addr: bv32, v: bv32)
    requires Shaped(st.atc)
    ensures WriteApart(r, st, sys, addr, 0, v)
  {}

  lemma {:induction false} StoreJoin(m: Memory, a: bv32, n: nat, v: bv32)
    requires MappedRun(m, a, n) && Mapped(m, Skip(a, n)) && n <= 3
    ensures MappedRun(m, a, n + 1)
    ensures Mapped(StoreRun(m, a, n, Shorter(v)), Skip(a, n))
    ensures StoreRun(m, a, n + 1, v) == StoreByte(StoreRun(m, a, n, Shorter(v)), Skip(a, n), TopByte(v, 1))
    decreases n
  {
    hide Succ, TopByte, Shorter, SetByte, WordAt, Lane;
    MappedJoin(m, a, n);
    if n > 0 {
      ShorterTop(v, n);
      var m' := StoreByte(m, a, TopByte(v, n + 1));
      MappedKeys(m, m', Succ(a), n - 1);
      StoreJoin(m', Succ(a), n - 1, v);
    }
  }

  /** A run of byte writes off the tables keeps invariant and walks. */
  lemma {:induction false} RunInv(r: Registers, st: State, sys: bool, addr: bv32, n: nat, v: bv32, first: bool)
    requires Inv(r, st) && WholePages(st.mem) && WriteApart(r, st, sys, addr, n, v)
    ensures var st' := WriteBytes(r, st, sys, addr, n, v, first).1;
            Inv(r, st') && WholePages(st'.mem) && Kept(r, st.mem, st'.mem)
    decreases n
  {
    hide WriteB, Succ, WholePages, BankOk, IndirectsApart, Misaligned, TopByte, WriteApart, Kept;
    if n > 0 {
      WriteBInv(r, st, sys, addr, n, v);
      var (x, st') := WriteB(r, st, sys, addr, TopByte(v, n));
      if x.Done? {
        RunInv(r, st', sys, Succ(addr), n - 1, v, false);
        KeptTransitive(r, st.mem, st'.mem, WriteBytes(r, st', sys, Succ(addr), n - 1, v, false).1.mem);
      }
    } else {
      KeptReflexive(r, st.mem);
    }
  }

  // ---- The unsplit write ----

  /** Can a byte be written at the address? */
  predicate CanWrite(r: Registers, st: State, sys: bool, addr: bv32)
    requires Shaped(st.atc)
  {
    var (c, st1) := PtestAndCheck(r, st, sys, addr, false, true);
    c.Phys? && Mapped(st1.mem, c.a)
  }

  lemma CanWriteByte(r: Registers, st: State, sys: bool, addr: bv32, b: bv32)
    requires Shaped(st.atc)
    ensures WriteB(r, st, sys, addr, b).0.Done? == CanWrite(r, st, sys, addr)
  {
    hide PtestAndCheck, Mapped;
  }

  /** Where WriteL is not four byte writes: at offset 0xffd, when the first byte can be written. */
  predicate DeviatesWrite(r: Registers, st: State, sys: bool, addr: bv32)
    requires Shaped(st.atc)
  {
    Unsplit(addr) && CanWrite(r, st, sys, addr)
  }

  /** The state of four byte writes after the third. */
  function ThreeStored(r: Registers, st: State, sys: bool, addr: bv32, l: bv32): (st': State)
    requires Shaped(st.atc)
    ensures Shaped(st'.atc)
  {
    WriteBytes(r, st, sys, addr, 3, Shorter(l), true).1
  }

  /** What the next page's translation then says of the fourth byte. */
  function LastCheck(r: Registers, st: State, sys: bool, addr: bv32, l: bv32): (result: (Checked, State))
    requires Shaped(st.atc)
    ensures Shaped(result.1.atc)
  {
    PtestAndCheck(r, ThreeStored(r, st, sys, addr, l), sys, Skip(addr, 3), false, true)
  }

  /** When its first byte cannot be written, an unsplit write is the four byte writes. */
  lemma UnsplitWriteFails(r: Registers, st: State, sys: bool, addr: bv32, l: bv32)
    requires Shaped(st.atc) && Unsplit(addr) && !CanWrite(r, st, sys, addr)
    ensures WriteL(r, st, sys, addr, l) == WriteBytes(r, st, sys, addr, 4, l, true)
    ensures WriteL(r, st, sys, addr, l).0.WriteError? && WriteL(r, st, sys, addr, l).0.ssw & SSW_MA == 0
    ensures WriteL(r, st, sys, addr, l).1 == PtestAndCheck(r, st, sys, addr, false, true).1
  {
    hide Ptest, PhysAddr, Permits, PageOf, Succ, StoreByte, Mapped, WithinPage, TopByte;
    UnsplitWhole(addr);
  }

  /** What the first three byte writes and the unsplit write make of a writable first byte. */
  lemma UnsplitWriteParts(r: Registers, st: State, sys: bool, addr: bv32, l: bv32)
    requires Inv(r, st) && WholePages(st.mem) && DeviatesWrite(r, st, sys, addr)
    requires WriteApart(r, st, sys, addr, 3, Shorter(l))
    ensures var (c, st1) := PtestAndCheck(r, st, sys, addr, false, true);
            && c.Phys? && MappedRun(st1.mem, c.a, 3) && Shaped(st1.atc)
            && var st3 := State(StoreRun(st1.mem, c.a, 3, Shorter(l)), st1.atc);
               && WriteBytes(r, st, sys, addr, 3, Shorter(l), true) == (Done, st3)
               && Mapped(st3.mem, Skip(c.a, 3)) == Mapped(st1.mem, Skip(c.a, 3))
               && WriteL(r, st, sys, addr, l)
                  == if Mapped(st3.mem, Skip(c.a, 3)) then (Done, Stored(st3, Skip(c.a, 3), TopByte(l, 1)))
                     else (WriteError(0), st1)
  {
    hide PtestAndCheck, WithinPage, WholePages, BankOk, IndirectsApart, StoreRun, StoreByte, Mapped, WriteApart,
         WriteBytes, Shorter, TopByte, Skip, Succ;
    UnsplitWhole(addr);
    FirstWriteRun(r, st, sys, addr);
    WritePieceBytes(r, st, sys, addr, 3, Shorter(l));
    var (c, st1) := PtestAndCheck(r, st, sys, addr, false, true);
    MappedJoin(st1.mem, c.a, 3);
    SameMapped(st1.mem, StoreRun(st1.mem, c.a, 3, Shorter(l)), Skip(c.a, 3));
    if Mapped(st1.mem, Skip(c.a, 3)) {
      StoreJoin(st1.mem, c.a, 3, l);
    }
  }

  lemma SameMapped(m: Memory, m': Memory, a: bv32)
    requires m.Keys == m'.Keys
    ensures Mapped(m', a) == Mapped(m, a)
  {
    hide WordAt;
  }

  lemma FirstWriteRun(r: Registers, st: State, sys: bool, addr: bv32)
    requires Inv(r, st) && WholePages(st.mem) && WithinPage(addr, 3) && CanWrite(r, st, sys, addr)
    ensures var (c, st1) := PtestAndCheck(r, st, sys, addr, false, true); c.Phys? && MappedRun(st1.mem, c.a, 3)
  {
    hide Ptest, WithinPage, WholePages, BankOk, IndirectsApart, Mapped, PhysAddr, PageOf, Permits, TrailOf;
    var (res, st1) := Ptest(r, st, PageOf(addr), sys, false, true);
    PtestInv(r, st, PageOf(addr), sys, false, true);
    WholePagesKeys(st.mem, st1.mem);
    PhysWithin(r.tcrP, res.paddr, addr, 3);
    RunMapped(st1.mem, PhysAddr(r.tcrP, res.paddr, addr), 3);
  }

  // ---- Where the last byte goes ----

  lemma PutBack0(word: bv32, b: bv32)
    requires GetByte(word, 0) == b & 0xff
    ensures SetByte(word, 0, b) == word
  {}

  lemma PutBack1(word: bv32, b: bv32)
    requires GetByte(word, 1) == b & 0xff
    ensures SetByte(word, 1, b) == word
  {}

  lemma PutBack2(word: bv32, b: bv32)
    requires GetByte(word, 2) == b & 0xff
    ensures SetByte(word, 2, b) == word
  {}

  lemma LowAgain(word: bv32)
    ensures (word & 0xFFFF_FF00) | (word & 0xff) == word
  {}

  lemma LastLane(word: bv32, b: bv32)
    ensures GetByte(word, 3) == word & 0xff && SetByte(word, 3, b) == (word & 0xFFFF_FF00) | (b & 0xff)
  {}

  lemma PutBack3(word: bv32, b: bv32)
    requires GetByte(word, 3) == b & 0xff
    ensures SetByte(word, 3, b) == word
  {
    hide GetByte, SetByte;
    LastLane(word, b);
    LowAgain(word);
  }

  lemma LaneCases(lane: bv32)
    requires lane < 4
    ensures lane == 0 || lane == 1 || lane == 2 || lane == 3
  {}

  lemma PutBack(word: bv32, lane: bv32, b: bv32)
    requires lane < 4 && GetByte(word, lane) == b & 0xff
    ensures SetByte(word, lane, b) == word
  {
    LaneCases(lane);
    hide GetByte, SetByte;
    if lane == 0 {
      PutBack0(word, b);
    } else if lane == 1 {
      PutBack1(word, b);
    } else if lane == 2 {
      PutBack2(word, b);
    } else {
      PutBack3(word, b);
    }
  }

  lemma StoreInPlace(m: Memory, a: bv32, b: bv32)
    requires Mapped(m, a) && MemByte(m, a) == b & 0xff
    ensures StoreByte(m, a, b) == m
  {
    LaneRange(a);
    hide GetByte, SetByte, WordAt, Lane;
    PutBack(m[WordAt(a)], Lane(a), b);
  }

  /** One byte stored at a in m and at p in m': the data agrees if and only if a and p are one
      place, or both held the byte before. */
  lemma StoresAgree(r: Registers, m0: Memory, m: Memory, m': Memory, a: bv32, p: bv32, b: bv32)
    requires SameData(r, m0, m, m') && Mapped(m, a) && Mapped(m, p) && Mapped(m', p)
    requires !TableWord(r, m0, WordAt(a)) && !TableWord(r, m0, WordAt(p))
    ensures SameData(r, m0, StoreByte(m, a, b), StoreByte(m', p, b))
            <==> p == a || (MemByte(m, a) == b & 0xff && MemByte(m, p) == b & 0xff)
  {
    hide TableWord, SetByte, GetByte, WordAt, Lane;
    SameByte(m, m', a);
    SameByte(m, m', p);
    if p != a && SameData(r, m0, StoreByte(m, a, b), StoreByte(m', p, b)) {
      StoreSame(m, a, b);
      StoreOther(m', p, b, a);
      SameByte(StoreByte(m, a, b), StoreByte(m', p, b), a);
      StoreSame(m', p, b);
      StoreOther(m, a, b, p);
      SameByte(StoreByte(m, a, b), StoreByte(m', p, b), p);
    }
    if p != a && MemByte(m, a) == b & 0xff && MemByte(m, p) == b & 0xff {
      StoreInPlace(m, a, b);
      StoreInPlace(m', p, b);
    }
  }

  // ---- With a late M in between ----

  /** m' is m on data but for an M set in w. */
  ghost predicate LateData(r: Registers, m0: Memory, m: Memory, m': Memory, w: Loc) {
    && w in m && !TableWord(r, m0, w)
    && forall x: Loc :: x in m && !TableWord(r, m0, x) ==> x in m' && m'[x] == if x == w then Modified(m[x]) else m[x]
  }

  lemma MOverwritten(v: bv32, b: bv32)
    ensures SetByte(Modified(v), 3, b) == SetByte(v, 3, b)
  {
    hide Modified, SetByte;
    LastLane(v, b);
    LastLane(Modified(v), b);
    MInLow(v);
  }

  lemma MInLow(v: bv32)
    ensures Modified(v) & 0xFFFF_FF00 == v & 0xFFFF_FF00
  {}

  /** A byte with M written over the low byte does what setting M does. */
  lemma MWritten(v: bv32, b: bv32)
    requires GetByte(Modified(v), 3) == b & 0xff
    ensures SetByte(v, 3, b) == Modified(v)
  {
    hide Modified, SetByte, GetByte;
    MOverwritten(v, b);
    PutBack3(Modified(v), b);
  }

  lemma MStays0(v: bv32, b: bv32)
    ensures MBit(SetByte(v, 0, b)) == MBit(v)
  {}

  lemma MStays1(v: bv32, b: bv32)
    ensures MBit(SetByte(v, 1, b)) == MBit(v)
  {}

  lemma MStays2(v: bv32, b: bv32)
    ensures MBit(SetByte(v, 2, b)) == MBit(v)
  {}

  lemma MStays(v: bv32, lane: bv32, b: bv32)
    requires lane < 4 && lane != 3
    ensures MBit(SetByte(v, lane, b)) == MBit(v)
  {
    LaneCases(lane);
    MStays0(v, b);
    MStays1(v, b);
    MStays2(v, b);
    hide MBit, SetByte;
  }

  lemma MSet(v: bv32)
    ensures MBit(Modified(v))
  {}

  /** A store elsewhere leaves M of w as it is. */
  lemma StoreLeavesM(m: Memory, w: Loc, a: bv32, b: bv32)
    requires Mapped(m, a) && w in m && !HoldsM(w, a)
    ensures w in StoreByte(m, a, b) && MBit(StoreByte(m, a, b)[w]) == MBit(m[w])
  {
    LaneRange(a);
    hide SetByte, MBit, WordAt, Lane;
    if WordAt(a) == w {
      MStays(m[w], Lane(a), b);
    }
  }

  lemma LateDiffers(r: Registers, m0: Memory, m: Memory, m': Memory, w: Loc, a: bv32, p: bv32, b: bv32)
    requires LateData(r, m0, m, m', w) && Mapped(m, a) && Mapped(m', p)
    requires !MBit(m[w]) && !HoldsM(w, a) && !HoldsM(w, p)
    ensures !SameData(r, m0, StoreByte(m, a, b), StoreByte(m', p, b))
  {
    hide TableWord, StoreByte, MBit, Modified, WordAt, HoldsM;
    MSet(m[w]);
    StoreLeavesM(m, w, a, b);
    StoreLeavesM(m', w, p, b);
  }

  lemma LateByte(r: Registers, m0: Memory, m: Memory, m': Memory, w: Loc, a: bv32)
    requires LateData(r, m0, m, m', w) && Mapped(m, a) && !TableWord(r, m0, WordAt(a))
    ensures Mapped(m', a) && (!HoldsM(w, a) ==> MemByte(m', a) == MemByte(m, a))
  {
    LaneRange(a);
    hide TableWord, GetByte, WordAt, Lane, Modified;
    if WordAt(a) == w {
      ModifiedByte(m[w], Lane(a));
    }
  }

  lemma OnePlace(w: Loc, a: bv32, p: bv32)
    requires HoldsM(w, a) && HoldsM(w, p)
    ensures a == p
  {
    hide WordAt, Lane;
    if a != p {
      LanesDiffer(a, p);
    }
  }

  /** The store is the one that M is in: both places the same. */
  lemma LateOver(r: Registers, m0: Memory, m: Memory, m': Memory, w: Loc, a: bv32, b: bv32)
    requires LateData(r, m0, m, m', w) && Mapped(m, a) && Mapped(m', a) && HoldsM(w, a)
    ensures SameData(r, m0, StoreByte(m, a, b), StoreByte(m', a, b))
  {
    hide TableWord, SetByte, WordAt, Lane, Modified;
    MOverwritten(m[w], b);
  }

  /** The first place is that of M, and the second held the byte. */
  lemma LateFirst(r: Registers, m0: Memory, m: Memory, m': Memory, w: Loc, a: bv32, p: bv32, b: bv32)
    requires LateData(r, m0, m, m', w) && Mapped(m, a) && Mapped(m', a) && Mapped(m', p) && HoldsM(w, a)
    requires MemByte(m', a) == b & 0xff && MemByte(m', p) == b & 0xff
    ensures SameData(r, m0, StoreByte(m, a, b), StoreByte(m', p, b))
  {
    hide TableWord, SetByte, GetByte, WordAt, Lane, Modified;
    StoreInPlace(m', p, b);
    MWritten(m[w], b);
  }

  /** The second is, and both held the byte. */
  lemma LateSecond(r: Registers, m0: Memory, m: Memory, m': Memory, w: Loc, a: bv32, p: bv32, b: bv32)
    requires LateData(r, m0, m, m', w) && Mapped(m, a) && Mapped(m, p) && Mapped(m', p) && HoldsM(w, p)
    requires MemByte(m, a) == b & 0xff && MemByte(m, p) == b & 0xff
    ensures SameData(r, m0, StoreByte(m, a, b), StoreByte(m', p, b))
  {
    hide TableWord, SetByte, GetByte, WordAt, Lane, Modified;
    StoreInPlace(m, a, b);
    MOverwritten(m[w], b);
    PutBack3(m[w], b);
  }

  /** What data that agrees says of the two places. */
  lemma AgreeingBytes(r: Registers, m0: Memory, m: Memory, m': Memory, a: bv32, p: bv32, b: bv32)
    requires Mapped(m, a) && Mapped(m, p) && Mapped(m', a) && Mapped(m', p) && a != p
    requires !TableWord(r, m0, WordAt(a)) && !TableWord(r, m0, WordAt(p))
    requires SameData(r, m0, StoreByte(m, a, b), StoreByte(m', p, b))
    ensures MemByte(m', a) == b & 0xff && MemByte(m, p) == b & 0xff
  {
    hide TableWord, SetByte, GetByte, WordAt, Lane;
    StoreSame(m, a, b);
    StoreOther(m', p, b, a);
    SameByte(StoreByte(m, a, b), StoreByte(m', p, b), a);
    StoreSame(m', p, b);
    StoreOther(m, a, b, p);
    SameByte(StoreByte(m, a, b), StoreByte(m', p, b), p);
  }

  /** The late M is no difference: it was set, or one of the two stores wipes it out. */
  predicate LateWiped(m: Memory, w: Loc, a: bv32, p: bv32)
    requires w in m
  {
    MBit(m[w]) || HoldsM(w, a) || HoldsM(w, p)
  }

  /** Both places hold the byte, each in its memory. */
  predicate BothHeld(m: Memory, a: bv32, n: Memory, p: bv32, b: bv32)
    requires Mapped(m, a) && Mapped(n, p)
  {
    MemByte(m, a) == b & 0xff && MemByte(n, p) == b & 0xff
  }

  lemma LateHeld(r: Registers, m0: Memory, m: Memory, m': Memory, w: Loc, a: bv32, p: bv32, b: bv32)
    requires LateData(r, m0, m, m', w) && Mapped(m, a) && Mapped(m, p) && Mapped(m', a) && Mapped(m', p)
    requires !TableWord(r, m0, WordAt(a)) && !TableWord(r, m0, WordAt(p)) && (HoldsM(w, a) || HoldsM(w, p))
    ensures SameData(r, m0, StoreByte(m, a, b), StoreByte(m', p, b))
            <==> p == a || BothHeld(m', a, m, p, b)
  {
    hide MemByte, StoreByte, HoldsM, SameData, LateData, TableWord, Mapped, WordAt;
    LateByte(r, m0, m, m', w, a);
    LateByte(r, m0, m, m', w, p);
    if p == a {
      LateOver(r, m0, m, m', w, a, b);
    } else if SameData(r, m0, StoreByte(m, a, b), StoreByte(m', p, b)) {
      AgreeingBytes(r, m0, m, m', a, p, b);
    } else if MemByte(m', a) == b & 0xff && MemByte(m, p) == b & 0xff {
      if HoldsM(w, a) {
        LateOne(r, m0, m, m', w, a, p, b);
      } else {
        LateSecond(r, m0, m, m', w, a, p, b);
      }
    }
  }

  lemma LateOne(r: Registers, m0: Memory, m: Memory, m': Memory, w: Loc, a: bv32, p: bv32, b: bv32)
    requires LateData(r, m0, m, m', w) && Mapped(m, a) && Mapped(m, p) && Mapped(m', a) && p != a && HoldsM(w, a)
    requires !TableWord(r, m0, WordAt(p))
    requires MemByte(m', a) == b & 0xff && MemByte(m, p) == b & 0xff
    ensures Mapped(m', p) && SameData(r, m0, StoreByte(m, a, b), StoreByte(m', p, b))
  {
    hide MemByte, StoreByte, HoldsM, SameData, LateData, TableWord, Mapped, WordAt;
    LateByte(r, m0, m, m', w, p);
    if HoldsM(w, p) {
      OnePlace(w, a, p);
    }
    LateFirst(r, m0, m, m', w, a, p, b);
  }

  /** M was set: the two memories are alike. */
  lemma LateSet(r: Registers, m0: Memory, m: Memory, m': Memory, w: Loc, a: bv32, p: bv32, b: bv32)
    requires LateData(r, m0, m, m', w) && Mapped(m, a) && Mapped(m, p) && Mapped(m', a) && Mapped(m', p)
    requires !TableWord(r, m0, WordAt(a)) && !TableWord(r, m0, WordAt(p)) && MBit(m[w])
    ensures SameData(r, m0, StoreByte(m, a, b), StoreByte(m', p, b))
            <==> p == a || BothHeld(m', a, m, p, b)
  {
    hide MemByte, StoreByte, MBit, SameData, LateData, TableWord, Mapped, WordAt;
    UnlateData(r, m0, m, m', w);
    StoresAgree(r, m0, m, m', a, p, b);
    SameData1(r, m0, m, m', a);
  }

  lemma LateIn(r: Registers, m0: Memory, m: Memory, m': Memory, w: Loc)
    requires LateData(r, m0, m, m', w)
    ensures w in m
  {}

  /** StoresAgree, when a late M comes between the two. */
  lemma LateStoresAgree(r: Registers, m0: Memory, m: Memory, m': Memory, w: Loc, a: bv32, p: bv32, b: bv32)
    requires LateData(r, m0, m, m', w) && Mapped(m, a) && Mapped(m, p)
    requires !TableWord(r, m0, WordAt(a)) && !TableWord(r, m0, WordAt(p))
    ensures Mapped(m', a) && Mapped(m', p)
    ensures SameData(r, m0, StoreByte(m, a, b), StoreByte(m', p, b))
            <==> LateWiped(m, w, a, p) && (p == a || BothHeld(m', a, m, p, b))
  {
    hide BothHeld, MemByte, StoreByte, MBit, HoldsM, SameData, LateData, TableWord, Mapped, WordAt;
    LateIn(r, m0, m, m', w);
    LateByte(r, m0, m, m', w, a);
    LateByte(r, m0, m, m', w, p);
    if MBit(m[w]) {
      LateSet(r, m0, m, m', w, a, p, b);
    } else if HoldsM(w, a) || HoldsM(w, p) {
      LateHeld(r, m0, m, m', w, a, p, b);
    } else {
      LateDiffers(r, m0, m, m', w, a, p, b);
    }
  }

  lemma UnlateData(r: Registers, m0: Memory, m: Memory, m': Memory, w: Loc)
    requires LateData(r, m0, m, m', w) && MBit(m[w])
    ensures SameData(r, m0, m, m')
  {
    hide TableWord, MBit, Modified;
    ModifiedNot(m[w]);
  }

  lemma SameData1(r: Registers, m0: Memory, m: Memory, m': Memory, a: bv32)
    requires SameData(r, m0, m, m') && Mapped(m, a) && !TableWord(r, m0, WordAt(a))
    ensures Mapped(m', a) && MemByte(m', a) == MemByte(m, a)
  {
    hide TableWord, GetByte, WordAt;
  }

  // ---- WriteL at every address ----

  /** Does WriteL end as four byte writes do, with the same data stored? */
  ghost predicate SameStores(r: Registers, st: State, sys: bool, addr: bv32, l: bv32)
    requires Shaped(st.atc)
  {
    var (x, stL) := WriteL(r, st, sys, addr, l);
    var (y, stB) := WriteBytes(r, st, sys, addr, 4, l, true);
    x == y && SameData(r, st.mem, stL.mem, stB.mem)
  }

  /** Every byte a write of l may store, in whichever way, is data. */
  ghost predicate LongApart(r: Registers, st: State, sys: bool, addr: bv32, l: bv32)
    requires Shaped(st.atc)
  {
    && WriteApart(r, st, sys, addr, 4, l)
    && (DeviatesWrite(r, st, sys, addr) ==>
          var a := BehindPhys(r, st, sys, addr, true); Mapped(st.mem, a) ==> !TableWord(r, st.mem, WordAt(a)))
  }

  /** The word that the last page's slot remembers. */
  function LastWord(r: Registers, st: State, sys: bool, addr: bv32, l: bv32): Loc
    requires Shaped(st.atc)
  {
    Get(ThreeStored(r, st, sys, addr, l).atc, false, sys, PageOf(Skip(addr, 3))).pgAddr
  }

  /** Does the last of the four translations set M in data? */
  ghost predicate LastLate(r: Registers, st: State, sys: bool, addr: bv32, l: bv32)
    requires Shaped(st.atc)
  {
    RemembersData(r, ThreeStored(r, st, sys, addr, l), PageOf(Skip(addr, 3)), sys, false, true)
  }

  /** Can the last byte be written, and is its place the one behind the first three, or did both
      places hold it when it was their turn; and if its translation sets M in data, was M set or is
      it wiped out? */
  ghost predicate LastFits(r: Registers, st: State, sys: bool, addr: bv32, l: bv32)
    requires Shaped(st.atc) && PtestAndCheck(r, st, sys, addr, false, true).0.Phys?
  {
    var m, a := ThreeStored(r, st, sys, addr, l).mem, BehindPhys(r, st, sys, addr, true);
    var (c, st2) := LastCheck(r, st, sys, addr, l);
    var w := LastWord(r, st, sys, addr, l);
    && Mapped(m, a) && Mapped(st2.mem, a) && c.Phys? && Mapped(m, c.a)
    && (c.a == a || (MemByte(st2.mem, a) == TopByte(l, 1) && MemByte(m, c.a) == TopByte(l, 1)))
    && (LastLate(r, st, sys, addr, l) ==> w in m && LateWiped(m, w, a, c.a))
  }

  lemma LowByte(l: bv32)
    ensures TopByte(l, 1) & 0xff == TopByte(l, 1)
  {}

  lemma LowStoresAgree(r: Registers, m0: Memory, m: Memory, m': Memory, a: bv32, p: bv32, l: bv32)
    requires SameData(r, m0, m, m') && Mapped(m, a) && Mapped(m, p) && Mapped(m', p)
    requires !TableWord(r, m0, WordAt(a)) && !TableWord(r, m0, WordAt(p))
    ensures Mapped(m', a)
    ensures SameData(r, m0, StoreByte(m, a, TopByte(l, 1)), StoreByte(m', p, TopByte(l, 1)))
            <==> p == a || (MemByte(m', a) == TopByte(l, 1) && MemByte(m, p) == TopByte(l, 1))
  {
    hide TableWord, StoreByte, WordAt, MemByte, SameData, TopByte, Mapped;
    StoresAgree(r, m0, m, m', a, p, TopByte(l, 1));
    SameData1(r, m0, m, m', a);
    LowByte(l);
  }

  lemma LowLateAgree(r: Registers, m0: Memory, m: Memory, m': Memory, w: Loc, a: bv32, p: bv32, l: bv32)
    requires LateData(r, m0, m, m', w) && Mapped(m, a) && Mapped(m, p)
    requires !TableWord(r, m0, WordAt(a)) && !TableWord(r, m0, WordAt(p))
    ensures w in m && Mapped(m', a) && Mapped(m', p)
    ensures SameData(r, m0, StoreByte(m, a, TopByte(l, 1)), StoreByte(m', p, TopByte(l, 1)))
            <==> LateWiped(m, w, a, p)
                 && (p == a || (MemByte(m', a) == TopByte(l, 1) && MemByte(m, p) == TopByte(l, 1)))
  {
    hide TableWord, StoreByte, WordAt, MemByte, SameData, TopByte, Mapped, LateWiped;
    LateStoresAgree(r, m0, m, m', w, a, p, TopByte(l, 1));
    LowByte(l);
  }

  lemma MisalignedNotZero(e: bv16)
    ensures Misaligned(e) != 0
  {}

  /** Four byte writes, in terms of the last. */
  lemma FourWrites(r: Registers, st: State, sys: bool, addr: bv32, l: bv32)
    requires Shaped(st.atc) && WriteBytes(r, st, sys, addr, 3, Shorter(l), true).0.Done?
    ensures var (c, st2) := LastCheck(r, st, sys, addr, l);
            WriteBytes(r, st, sys, addr, 4, l, true)
            == if c.Fail? then (WriteError(Misaligned(c.ssw)), st2)
               else if Mapped(st2.mem, c.a) then (Done, Stored(st2, c.a, TopByte(l, 1)))
               else (WriteError(Misaligned(0)), st2)
  {
    hide PtestAndCheck, StoreByte, Mapped, TopByte, Shorter, Skip, Misaligned, Succ;
    WriteJoin(r, st, sys, addr, 3, l, true);
    var (c, st2) := LastCheck(r, st, sys, addr, l);
    if c.Phys? && Mapped(st2.mem, c.a) {
      StoreOne(st2.mem, c.a, TopByte(l, 1));
    }
  }

  /** The last translation leaves the data alone but for a late M, and knows the place of its byte. */
  lemma LastStep(r: Registers, st: State, sys: bool, addr: bv32, l: bv32)
    requires Inv(r, st) && WholePages(st.mem) && LongApart(r, st, sys, addr, l) && DeviatesWrite(r, st, sys, addr)
    ensures WriteApart(r, st, sys, addr, 3, Shorter(l))
    ensures var st3 := ThreeStored(r, st, sys, addr, l);
            var (c, st2) := LastCheck(r, st, sys, addr, l);
            && st2.mem.Keys == st3.mem.Keys == st.mem.Keys
            && (if LastLate(r, st, sys, addr, l)
                then LateData(r, st.mem, st3.mem, st2.mem, LastWord(r, st, sys, addr, l))
                else SameData(r, st.mem, st3.mem, st2.mem))
            && (c.Phys? && Mapped(st2.mem, c.a) && WriteBytes(r, st, sys, addr, 3, Shorter(l), true).0.Done?
                ==> !TableWord(r, st.mem, WordAt(c.a)))
  {
    hide PtestAndCheck, BankOk, IndirectsApart, WholePages, WriteApart, WriteBytes, Shorter, Skip, TableWord, Mapped,
         RemembersData, Kept, Unsplit, WordAt, PageOf, LateData, SameData;
    ApartJoin(r, st, sys, addr, 3, l, true);
    RunInv(r, st, sys, addr, 3, Shorter(l), true);
    var st3 := ThreeStored(r, st, sys, addr, l);
    var (c, st2) := LastCheck(r, st, sys, addr, l);
    CheckInv(r, st3, sys, Skip(addr, 3));
    KeptKeys(r, st.mem, st3.mem);
    KeptKeys(r, st3.mem, st2.mem);
    KeptTransitive(r, st.mem, st3.mem, st2.mem);
    CheckData(r, st.mem, st3, sys, Skip(addr, 3));
    if c.Phys? && Mapped(st2.mem, c.a) && WriteBytes(r, st, sys, addr, 3, Shorter(l), true).0.Done? {
      ApartOne(r, st3, sys, Skip(addr, 3), l);
      TableWordKept(r, st.mem, st2.mem, WordAt(c.a));
    }
  }

  /** What a translation makes of the data. */
  lemma CheckData(r: Registers, m0: Memory, st: State, sys: bool, addr: bv32)
    requires Inv(r, st) && Kept(r, m0, st.mem)
    ensures var m' := PtestAndCheck(r, st, sys, addr, false, true).1.mem;
            if RemembersData(r, st, PageOf(addr), sys, false, true)
            then LateData(r, m0, st.mem, m', Get(st.atc, false, sys, PageOf(addr)).pgAddr)
            else SameData(r, m0, st.mem, m')
  {
    hide Ptest, BankOk, IndirectsApart, TableWord, RemembersData, Kept, PageOf, Get, Modified, Check;
    var m' := PtestAndCheck(r, st, sys, addr, false, true).1.mem;
    var late, w := RemembersData(r, st, PageOf(addr), sys, false, true), Get(st.atc, false, sys, PageOf(addr)).pgAddr;
    forall x: Loc | x in st.mem && !TableWord(r, m0, x)
      ensures x in m' && m'[x] == if late && x == w then Modified(st.mem[x]) else st.mem[x]
    {
      TableWordKept(r, m0, st.mem, x);
      DataAfter(r, st, PageOf(addr), sys, false, true, x);
    }
    if late {
      RememberedThere(r, st, sys, PageOf(addr));
      TableWordKept(r, m0, st.mem, w);
    }
  }

  lemma RememberedThere(r: Registers, st: State, sys: bool, page: bv32)
    requires Inv(r, st) && RemembersData(r, st, page, sys, false, true)
    ensures var w := Get(st.atc, false, sys, page).pgAddr; w in st.mem && !TableWord(r, st.mem, w)
  {
    hide BankOk, IndirectsApart, Indirect, TrailOf, Index, TableWord, Get, PtestTtr;
    GetOk(r, st.mem, st.atc, false, sys, page);
  }

  lemma ApartOne(r: Registers, st: State, sys: bool, addr: bv32, v: bv32)
    requires Shaped(st.atc) && WriteApart(r, st, sys, addr, 1, v)
    ensures var (c, st1) := PtestAndCheck(r, st, sys, addr, false, true);
            c.Phys? && Mapped(st1.mem, c.a) ==> !TableWord(r, st1.mem, WordAt(c.a))
  {
    hide PtestAndCheck, TableWord, Mapped, StoreByte, WordAt, TopByte, Succ;
  }

  /** The unsplit write and the four byte writes, when the first byte can be written. */
  lemma UnsplitWriteIff(r: Registers, st: State, sys: bool, addr: bv32, l: bv32)
    requires Inv(r, st) && WholePages(st.mem) && LongApart(r, st, sys, addr, l) && DeviatesWrite(r, st, sys, addr)
    requires PtestAndCheck(r, st, sys, addr, false, true).0.Phys?
    ensures SameStores(r, st, sys, addr, l) <==> LastFits(r, st, sys, addr, l)
  {
    hide PtestAndCheck, BankOk, IndirectsApart, WholePages, WriteApart, WriteBytes, WriteL, Shorter, Skip, TableWord,
         Mapped, LastLate, LastWord, LateData, LateWiped, Unsplit, WordAt, MemByte, StoreByte, StoreRun, TopByte,
         SameData, Misaligned, CanWrite;
    LastStep(r, st, sys, addr, l);
    UnsplitWriteParts(r, st, sys, addr, l);
    FourWrites(r, st, sys, addr, l);
    var (c, st2) := LastCheck(r, st, sys, addr, l);
    var st3, a := ThreeStored(r, st, sys, addr, l), BehindPhys(r, st, sys, addr, true);
    SameMapped(st.mem, st3.mem, a);
    if c.Phys? {
      SameMapped(st3.mem, st2.mem, c.a);
      if Mapped(st3.mem, a) && Mapped(st2.mem, c.a) {
        if LastLate(r, st, sys, addr, l) {
          LowLateAgree(r, st.mem, st3.mem, st2.mem, LastWord(r, st, sys, addr, l), a, c.a, l);
        } else {
          LowStoresAgree(r, st.mem, st3.mem, st2.mem, a, c.a, l);
        }
      }
    } else {
      MisalignedNotZero(c.ssw);
    }
    MisalignedNotZero(0);
  }

  /**
   WriteL at every address.  Anywhere but at offset 0xffd, and there when the first byte cannot be
   written, it is four byte writes: same outcome, same final state.  At offset 0xffd it ends like
   them and stores the same data if and only if the next page's byte can be written and its
   place is the one behind the first three, or both places held the byte before.
   */
  lemma WriteLBytes(r: Registers, st: State, sys: bool, addr: bv32, l: bv32)
    requires Inv(r, st) && WholePages(st.mem) && LongApart(r, st, sys, addr, l)
    ensures !DeviatesWrite(r, st, sys, addr) ==> WriteL(r, st, sys, addr, l) == WriteBytes(r, st, sys, addr, 4, l, true)
    ensures SameStores(r, st, sys, addr, l)
            <==> (DeviatesWrite(r, st, sys, addr) ==> CanWrite(r, st, sys, addr) && LastFits(r, st, sys, addr, l))
  {
    hide WriteL, WriteBytes, WholePages, BankOk, IndirectsApart, Unsplit, LastFits, WriteApart, RemembersData,
         TableWord, SameStores, PtestAndCheck;
    if DeviatesWrite(r, st, sys, addr) {
      UnsplitWriteIff(r, st, sys, addr, l);
    } else {
      if Unsplit(addr) {
        UnsplitWriteFails(r, st, sys, addr, l);
      } else {
        WriteLSplit(r, st, sys, addr, l);
      }
      SameEnds(r, st, sys, addr, l);
    }
  }

  lemma SameEnds(r: Registers, st: State, sys: bool, addr: bv32, l: bv32)
    requires Shaped(st.atc) && WriteL(r, st, sys, addr, l) == WriteBytes(r, st, sys, addr, 4, l, true)
    ensures SameStores(r, st, sys, addr, l)
  {
    hide WriteL, WriteBytes, TableWord;
  }

  /** A faulting WriteL has SSW_MA set exactly when its first byte can be written, if and only if it is
      not the unsplit write of a writable first byte: that one faults without SSW_MA, at the end of RAM. */
  lemma WriteLMisaligned(r: Registers, st: State, sys: bool, addr: bv32, l: bv32)
    requires Inv(r, st) && WholePages(st.mem) && WriteApart(r, st, sys, addr, 4, l)
    requires WriteL(r, st, sys, addr, l).0.WriteError?
    ensures (WriteL(r, st, sys, addr, l).0.ssw & SSW_MA != 0 <==> CanWrite(r, st, sys, addr))
            <==> !DeviatesWrite(r, st, sys, addr)
    ensures DeviatesWrite(r, st, sys, addr) ==> WriteL(r, st, sys, addr, l).0 == WriteError(0)
  {
    hide WriteL, WriteB, WriteBytes, WholePages, BankOk, IndirectsApart, Unsplit, Mapped, StoreRun, StoreByte,
         WriteApart, PtestAndCheck, TopByte, Shorter, CanWrite;
    if DeviatesWrite(r, st, sys, addr) {
      ApartJoin(r, st, sys, addr, 3, l, true);
      UnsplitWriteParts(r, st, sys, addr, l);
      assert (0 as bv16) & SSW_MA == 0;
    } else if Unsplit(addr) {
      UnsplitWriteFails(r, st, sys, addr, l);
    } else {
      WriteLSplitMisaligned(r, st, sys, addr, l);
      CanWriteByte(r, st, sys, addr, TopByte(l, 4));
    }
  }

  // ---- Whatever the last byte ----

  /** l with b as its last byte. */
  function WithLow(l: bv32, b: bv32): bv32 { (l & 0xFFFF_FF00) | (b & 0xff) }

  lemma WithLowParts(l: bv32, b: bv32)
    ensures Shorter(WithLow(l, b)) == Shorter(l) && TopByte(WithLow(l, b), 1) == b & 0xff
  {}

  lemma LowApart(r: Registers, st: State, sys: bool, addr: bv32, v: bv32, v': bv32)
    requires Shaped(st.atc)
    ensures WriteApart(r, st, sys, addr, 1, v') == WriteApart(r, st, sys, addr, 1, v)
  {
    hide PtestAndCheck, TableWord, Mapped, StoreByte, WordAt, TopByte, Succ;
  }

  lemma WithLowApart(r: Registers, st: State, sys: bool, addr: bv32, l: bv32, b: bv32)
    requires Shaped(st.atc) && LongApart(r, st, sys, addr, l)
    ensures LongApart(r, st, sys, addr, WithLow(l, b))
    ensures ThreeStored(r, st, sys, addr, WithLow(l, b)) == ThreeStored(r, st, sys, addr, l)
    ensures LastCheck(r, st, sys, addr, WithLow(l, b)) == LastCheck(r, st, sys, addr, l)
    ensures TopByte(WithLow(l, b), 1) == b & 0xff
  {
    hide PtestAndCheck, TableWord, Mapped, StoreByte, WordAt, TopByte, WriteApart, WriteBytes, Shorter, WithLow,
         RemembersData, Skip, Unsplit, CanWrite;
    WithLowParts(l, b);
    ApartJoin(r, st, sys, addr, 3, l, true);
    ApartJoin(r, st, sys, addr, 3, WithLow(l, b), true);
    LowApart(r, ThreeStored(r, st, sys, addr, l), sys, Skip(addr, 3), l, WithLow(l, b));
  }

  /** A late M of the last translation in data, if any, was set or lies in the byte behind the first
      three. */
  ghost predicate LateBehind(r: Registers, st: State, sys: bool, addr: bv32, l: bv32)
    requires Shaped(st.atc) && PtestAndCheck(r, st, sys, addr, false, true).0.Phys?
  {
    var m, w, a := ThreeStored(r, st, sys, addr, l).mem, LastWord(r, st, sys, addr, l),
        BehindPhys(r, st, sys, addr, true);
    LastLate(r, st, sys, addr, l) ==> w in m && LateWiped(m, w, a, a)
  }

  /**
   Over all data: the unsplit write ends like four byte writes, with the same data stored, whatever
   the last byte is, if and only if the next page's frame is adjacent to the first page's and no
   late M sticks out.
   */
  lemma WriteFrames(r: Registers, st: State, sys: bool, addr: bv32, l: bv32)
    requires Inv(r, st) && WholePages(st.mem) && LongApart(r, st, sys, addr, l) && DeviatesWrite(r, st, sys, addr)
    requires PtestAndCheck(r, st, sys, addr, false, true).0.Phys? && LastCheck(r, st, sys, addr, l).0.Phys?
    requires Mapped(ThreeStored(r, st, sys, addr, l).mem, BehindPhys(r, st, sys, addr, true))
    requires Mapped(ThreeStored(r, st, sys, addr, l).mem, LastCheck(r, st, sys, addr, l).0.a)
    ensures (forall b: bv32 :: SameStores(r, st, sys, addr, WithLow(l, b)))
            <==> LastCheck(r, st, sys, addr, l).0 == Phys(BehindPhys(r, st, sys, addr, true))
                 && LateBehind(r, st, sys, addr, l)
  {
    hide PtestAndCheck, BankOk, IndirectsApart, WholePages, LongApart, Skip, Mapped, WithLow, ThreeStored, TopByte,
         MemByte, DeviatesWrite, SameStores, LastLate, LastWord, LateWiped, LastCheck;
    var m, a, st2 := ThreeStored(r, st, sys, addr, l).mem, BehindPhys(r, st, sys, addr, true),
        LastCheck(r, st, sys, addr, l).1;
    LastMapped(r, st, sys, addr, l, a);
    forall b: bv32
      ensures ThreeStored(r, st, sys, addr, WithLow(l, b)) == ThreeStored(r, st, sys, addr, l)
              && LastCheck(r, st, sys, addr, WithLow(l, b)) == LastCheck(r, st, sys, addr, l)
              && LastWord(r, st, sys, addr, WithLow(l, b)) == LastWord(r, st, sys, addr, l)
              && LastLate(r, st, sys, addr, WithLow(l, b)) == LastLate(r, st, sys, addr, l)
              && TopByte(WithLow(l, b), 1) == b & 0xff
      ensures SameStores(r, st, sys, addr, WithLow(l, b)) <==> LastFits(r, st, sys, addr, WithLow(l, b))
    {
      WithLowApart(r, st, sys, addr, l, b);
      SameLast(r, st, sys, addr, l, WithLow(l, b));
      UnsplitWriteIff(r, st, sys, addr, WithLow(l, b));
    }
    if LastCheck(r, st, sys, addr, l).0 != Phys(a) {
      var b := Flipped(MemByte(st2.mem, a));
      assert !LastFits(r, st, sys, addr, WithLow(l, b));
    } else if !LateBehind(r, st, sys, addr, l) {
      assert !LastFits(r, st, sys, addr, WithLow(l, 0));
    }
  }

  lemma SameLast(r: Registers, st: State, sys: bool, addr: bv32, l: bv32, l': bv32)
    requires Shaped(st.atc) && ThreeStored(r, st, sys, addr, l') == ThreeStored(r, st, sys, addr, l)
    ensures LastWord(r, st, sys, addr, l') == LastWord(r, st, sys, addr, l)
    ensures LastLate(r, st, sys, addr, l') == LastLate(r, st, sys, addr, l)
  {
    hide ThreeStored, RemembersData, Get, PageOf, Skip;
  }

  lemma LastMapped(r: Registers, st: State, sys: bool, addr: bv32, l: bv32, a: bv32)
    requires Inv(r, st) && WholePages(st.mem) && LongApart(r, st, sys, addr, l) && DeviatesWrite(r, st, sys, addr)
    ensures Mapped(LastCheck(r, st, sys, addr, l).1.mem, a) == Mapped(ThreeStored(r, st, sys, addr, l).mem, a)
  {
    hide PtestAndCheck, BankOk, IndirectsApart, WholePages, LongApart, Skip, ThreeStored, DeviatesWrite, LastLate,
         LastWord, LateData, SameData, WriteBytes, Shorter, WordAt, LastCheck, TableWord;
    LastStep(r, st, sys, addr, l);
  }

  function Flipped(x: bv32): (b: bv32)
    ensures b & 0xff != x
  {
    if x & 1 == 0 then 1 else 0
  }
}
