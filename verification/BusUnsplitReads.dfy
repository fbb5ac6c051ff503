/**
 Long reads at every address.  The one long access that is not split although its bytes lie in
 two 4K pages is the one at offset 0xffd; it agrees with four byte reads exactly when the byte
 behind the first three in the first frame is the byte the next page's translation finds.
 */
module BusUnsplitReads {
  import opened Addresses
  import opened MmuTables
  import opened Atc
  import opened AtcInvariant
  import opened AtcTheorems
  import opened AtcMarks
  import opened AtcWrites
  import opened BusAccess
  import opened BusTheorems
  import opened BusWrites
  import opened BusRoundTrip

  // ---- Runs of bytes taken apart ----

  /** The address n bytes on. */
  function Skip(addr: bv32, n: nat): bv32
    decreases n
  {
    if n == 0 then addr else Skip(Succ(addr), n - 1)
  }

  lemma Skip3(addr: bv32)
    ensures Skip(addr, 3) == Succ(Succ(Succ(addr)))
    ensures Skip(addr, 3) == addr + 3
  {
    assert Skip(addr, 3) == Skip(Succ(addr), 2) == Skip(Succ(Succ(addr)), 1);
    assert ((addr + 1) + 1) + 1 == addr + 3;
  }

  lemma {:induction false} ReadJoin(r: Registers, st: State, sys: bool, addr: bv32, n: nat, k: nat, lock: bool,
                                    acc: bv32,
                                    first: bool)
    requires Shaped(st.atc)
    ensures var (x, st') := ReadBytes(r, st, sys, addr, n, lock, acc, first);
            ReadBytes(r, st, sys, addr, n + k, lock, acc, first)
            == if x.Data? then ReadBytes(r, st', sys, Skip(addr, n), k, lock, x.v, first && n == 0) else (x, st')
    decreases n
  {
    hide ReadB, Succ, Append, Misaligned;
    if n > 0 {
      var (x, st') := ReadB(r, st, sys, addr, lock);
      if x.Data? {
        ReadJoin(r, st', sys, Succ(addr), n - 1, k, lock, Append(acc, x.v), false);
      }
    }
  }

  lemma {:induction false} MappedJoin(m: Memory, a: bv32, n: nat)
    ensures MappedRun(m, a, n + 1) == (MappedRun(m, a, n) && Mapped(m, Skip(a, n)))
    decreases n
  {
    hide Mapped, Succ;
    if n > 0 {
      MappedJoin(m, Succ(a), n - 1);
    }
  }

  lemma {:induction false} LoadJoin(m: Memory, a: bv32, n: nat, acc: bv32)
    requires MappedRun(m, a, n) && Mapped(m, Skip(a, n))
    ensures MappedRun(m, a, n + 1)
    ensures LoadRun(m, a, n + 1, acc) == Append(LoadRun(m, a, n, acc), MemByte(m, Skip(a, n)))
    decreases n
  {
    hide Mapped, Succ, Append, MemByte;
    MappedJoin(m, a, n);
    if n > 0 {
      LoadJoin(m, Succ(a), n - 1, Append(acc, MemByte(m, a)));
    }
  }

  // ---- The unsplit read ----

  /** Where a read of the first byte ends up, if it may go ahead. */
  function FirstPhys(r: Registers, st: State, sys: bool, addr: bv32, write: bool): bv32
    requires Shaped(st.atc) && PtestAndCheck(r, st, sys, addr, false, write).0.Phys?
  {
    PtestAndCheck(r, st, sys, addr, false, write).0.a
  }

  lemma UnsplitWhole(addr: bv32)
    requires Unsplit(addr)
    ensures addr & 2 == 0 && WithinPage(addr, 3)
  {
    assert !LastOfPage(addr) && !LastOfPage(addr + 1);
    SuccSucc(addr);
  }

  lemma ByteLess(m: Memory, a: bv32)
    requires Mapped(m, a)
    ensures MemByte(m, a) < 0x100
  {}

  lemma SameAppend(x: bv32, b: bv32, c: bv32)
    requires b < 0x100 && c < 0x100
    ensures Append(x, b) == Append(x, c) <==> b == c
  {}

  lemma AlwaysMisaligned(e: bv16)
    ensures Misaligned(e) != 0 && Misaligned(e) & SSW_MA != 0
  {}

  /** When its first byte cannot be read, an unsplit read is the four byte reads. */
  lemma UnsplitFails(r: Registers, st: State, sys: bool, addr: bv32, lock: bool)
    requires Shaped(st.atc) && Unsplit(addr) && !ReadB(r, st, sys, addr, lock).0.Data?
    ensures ReadL(r, st, sys, addr, lock) == ReadBytes(r, st, sys, addr, 4, lock, 0, true)
    ensures ReadL(r, st, sys, addr, lock).0.ReadError? && ReadL(r, st, sys, addr, lock).0.ssw & SSW_MA == 0
  {
    hide Ptest, PhysAddr, Permits, PageOf, Append, Succ, MemByte, Mapped, WithinPage;
    UnsplitWhole(addr);
  }

  /** What the four byte reads and the unsplit read make of a readable first byte. */
  lemma UnsplitParts(r: Registers, st: State, sys: bool, addr: bv32, lock: bool)
    requires Inv(r, st) && WholePages(st.mem) && Unsplit(addr) && ReadB(r, st, sys, addr, lock).0.Data?
    ensures var a, st1 := FirstPhys(r, st, sys, addr, lock), ReadB(r, st, sys, addr, lock).1;
            && MappedRun(st1.mem, a, 3)
            && st1 == PtestAndCheck(r, st, sys, addr, false, lock).1
            && ReadBytes(r, st, sys, addr, 3, lock, 0, true) == (Data(LoadRun(st1.mem, a, 3, 0)), st1)
            && ReadL(r, st, sys, addr, lock)
               == ((if Mapped(st1.mem, Skip(a, 3)) then Data(LoadRun(st1.mem, a, 4, 0)) else ReadError(0)), st1)
  {
    hide PtestAndCheck, WithinPage, WholePages, BankOk, IndirectsApart, LoadRun, Mapped;
    UnsplitWhole(addr);
    ReadPieceBytes(r, st, sys, addr, 3, lock);
    var a, st1 := FirstPhys(r, st, sys, addr, lock), ReadB(r, st, sys, addr, lock).1;
    MappedJoin(st1.mem, a, 0);
    FirstRun(r, st, sys, addr, lock);
    MappedJoin(st1.mem, a, 3);
  }

  lemma FirstRun(r: Registers, st: State, sys: bool, addr: bv32, lock: bool)
    requires Inv(r, st) && WholePages(st.mem) && WithinPage(addr, 3) && ReadB(r, st, sys, addr, lock).0.Data?
    ensures var st1 := ReadB(r, st, sys, addr, lock).1; MappedRun(st1.mem, FirstPhys(r, st, sys, addr, lock), 3)
  {
    hide Ptest, WithinPage, WholePages, BankOk, IndirectsApart, Mapped, PhysAddr, PageOf, Permits, TrailOf;
    var (res, st1) := Ptest(r, st, PageOf(addr), sys, false, lock);
    PtestInv(r, st, PageOf(addr), sys, false, lock);
    WholePagesKeys(st.mem, st1.mem);
    PhysWithin(r.tcrP, res.paddr, addr, 3);
    RunMapped(st1.mem, PhysAddr(r.tcrP, res.paddr, addr), 3);
  }

  /** The last of the four byte reads, in the state the first three leave. */
  function LastRead(r: Registers, st: State, sys: bool, addr: bv32, lock: bool): (result: (Read, State))
    requires Shaped(st.atc)
    ensures Shaped(result.1.atc)
  {
    ReadB(r, ReadB(r, st, sys, addr, lock).1, sys, Skip(addr, 3), lock)
  }

  /** Does the next page's translation find the byte that lies behind the first three? */
  predicate NextByteSame(r: Registers, st: State, sys: bool, addr: bv32, lock: bool)
    requires Shaped(st.atc) && ReadB(r, st, sys, addr, lock).0.Data?
  {
    var m, a3 := ReadB(r, st, sys, addr, lock).1.mem, Skip(FirstPhys(r, st, sys, addr, lock), 3);
    var y := LastRead(r, st, sys, addr, lock).0;
    y.Data? && Mapped(m, a3) && y.v == MemByte(m, a3)
  }

  lemma ReadByteLess(r: Registers, st: State, sys: bool, addr: bv32, lock: bool)
    requires Shaped(st.atc) && ReadB(r, st, sys, addr, lock).0.Data?
    ensures ReadB(r, st, sys, addr, lock).0.v < 0x100
  {
    hide PtestAndCheck, Mapped, MemByte;
    var (c, st1) := PtestAndCheck(r, st, sys, addr, false, lock);
    OneByte(st1.mem, c.a);
    ByteLess(st1.mem, c.a);
  }

  lemma LastOfFour(r: Registers, st1: State, sys: bool, a: bv32, lock: bool, x: bv32)
    requires Shaped(st1.atc)
    ensures var (y, st2) := ReadB(r, st1, sys, a, lock);
            ReadBytes(r, st1, sys, a, 1, lock, x, false)
            == ((if y.Data? then Data(Append(x, y.v)) else ReadError(Misaligned(y.ssw))), st2)
  {
    hide ReadB, Append, Misaligned, Succ;
  }

  lemma ReadablePhys(r: Registers, st: State, sys: bool, addr: bv32, lock: bool)
    requires Shaped(st.atc) && ReadB(r, st, sys, addr, lock).0.Data?
    ensures PtestAndCheck(r, st, sys, addr, false, lock).0.Phys?
  {
    hide PtestAndCheck, Mapped;
  }

  /** The four byte reads of a readable first byte, in terms of the last. */
  lemma FourReads(r: Registers, st: State, sys: bool, addr: bv32, lock: bool, x: bv32)
    requires Shaped(st.atc)
    requires ReadBytes(r, st, sys, addr, 3, lock, 0, true) == (Data(x), ReadB(r, st, sys, addr, lock).1)
    ensures var (y, st2) := LastRead(r, st, sys, addr, lock);
            ReadBytes(r, st, sys, addr, 4, lock, 0, true)
            == ((if y.Data? then Data(Append(x, y.v)) else ReadError(Misaligned(y.ssw))), st2)
  {
    hide ReadB, Append, Misaligned, Skip, ReadBytes;
    ReadJoin(r, st, sys, addr, 3, 1, lock, 0, true);
    LastOfFour(r, ReadB(r, st, sys, addr, lock).1, sys, Skip(addr, 3), lock, x);
  }

  /** The unsplit read and the four byte reads, when the first byte can be read: the same value if
      and only if the next byte is the same, and the same state if the next translation is idle. */
  lemma UnsplitReadIff(r: Registers, st: State, sys: bool, addr: bv32, lock: bool)
    requires Inv(r, st) && WholePages(st.mem) && Unsplit(addr) && ReadB(r, st, sys, addr, lock).0.Data?
    ensures ReadL(r, st, sys, addr, lock).0 == ReadBytes(r, st, sys, addr, 4, lock, 0, true).0
            <==> NextByteSame(r, st, sys, addr, lock)
    ensures ReadBytes(r, st, sys, addr, 4, lock, 0, true).1 == LastRead(r, st, sys, addr, lock).1
    ensures ReadL(r, st, sys, addr, lock).1 == ReadB(r, st, sys, addr, lock).1
  {
    ReadablePhys(r, st, sys, addr, lock);
    hide ReadB, ReadL, ReadBytes, WholePages, BankOk, IndirectsApart, LoadRun, Mapped, Append, MemByte, Misaligned,
         Unsplit, Skip, PtestAndCheck;
    UnsplitParts(r, st, sys, addr, lock);
    var a, st1 := FirstPhys(r, st, sys, addr, lock), ReadB(r, st, sys, addr, lock).1;
    var x := LoadRun(st1.mem, a, 3, 0);
    FourReads(r, st, sys, addr, lock, x);
    var y := LastRead(r, st, sys, addr, lock).0;
    if y.ReadError? {
      AlwaysMisaligned(y.ssw);
    } else if Mapped(st1.mem, Skip(a, 3)) {
      LoadJoin(st1.mem, a, 3, 0);
      ByteLess(st1.mem, Skip(a, 3));
      ReadByteLess(r, st1, sys, Skip(addr, 3), lock);
      SameAppend(x, y.v, MemByte(st1.mem, Skip(a, 3)));
    }
  }

  /** Where ReadL is not four byte reads: at offset 0xffd, when the first byte can be read. */
  predicate Deviates(r: Registers, st: State, sys: bool, addr: bv32, lock: bool)
    requires Shaped(st.atc)
  {
    Unsplit(addr) && ReadB(r, st, sys, addr, lock).0.Data?
  }

  /**
   ReadL at every address.  Anywhere but at offset 0xffd, and there when the first byte cannot be
   read, it is four byte reads, each translated on its own: same value, same error code, same
   final state.  At offset 0xffd it has their value if and only if the next page can be read
   and its byte is the one behind the first three in the first frame.
   */
  lemma ReadLBytes(r: Registers, st: State, sys: bool, addr: bv32, lock: bool)
    requires Inv(r, st) && WholePages(st.mem)
    ensures !Deviates(r, st, sys, addr, lock)
            ==> ReadL(r, st, sys, addr, lock) == ReadBytes(r, st, sys, addr, 4, lock, 0, true)
    ensures ReadL(r, st, sys, addr, lock).0 == ReadBytes(r, st, sys, addr, 4, lock, 0, true).0
            <==> (Deviates(r, st, sys, addr, lock) ==> NextByteSame(r, st, sys, addr, lock))
  {
    hide ReadB, ReadL, ReadBytes, WholePages, BankOk, IndirectsApart, Unsplit, NextByteSame;
    if Deviates(r, st, sys, addr, lock) {
      UnsplitReadIff(r, st, sys, addr, lock);
    } else if Unsplit(addr) {
      UnsplitFails(r, st, sys, addr, lock);
    } else {
      ReadLSplit(r, st, sys, addr, lock);
    }
  }

  /** A faulting ReadL has SSW_MA set exactly when its first byte can be read, if and only if it is
      not the unsplit read of a readable first byte: that one faults without SSW_MA, at the end of RAM. */
  lemma ReadLMisaligned(r: Registers, st: State, sys: bool, addr: bv32, lock: bool)
    requires Inv(r, st) && WholePages(st.mem) && ReadL(r, st, sys, addr, lock).0.ReadError?
    ensures (ReadL(r, st, sys, addr, lock).0.ssw & SSW_MA != 0 <==> ReadB(r, st, sys, addr, lock).0.Data?)
            <==> !Deviates(r, st, sys, addr, lock)
    ensures Deviates(r, st, sys, addr, lock) ==> ReadL(r, st, sys, addr, lock).0 == ReadError(0)
  {
    hide ReadB, ReadL, ReadBytes, WholePages, BankOk, IndirectsApart, Unsplit, Mapped, LoadRun, PtestAndCheck;
    if Deviates(r, st, sys, addr, lock) {
      ReadablePhys(r, st, sys, addr, lock);
      UnsplitParts(r, st, sys, addr, lock);
      assert (0 as bv16) & SSW_MA == 0;
    } else if Unsplit(addr) {
      UnsplitFails(r, st, sys, addr, lock);
    } else {
      ReadLSplitMisaligned(r, st, sys, addr, lock);
    }
  }
}
