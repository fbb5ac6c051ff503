/**
 Misaligned writes against one translated byte write after the other, and reading
 back what was written.
 */
module BusWrites {
  import opened Addresses
  import opened MmuTables
  import opened Atc
  import opened AtcInvariant
  import opened AtcTheorems
  import opened AtcMarks
  import opened BusAccess
  import opened BusTheorems

  /** Every byte that a run of byte writes stores lies outside the translation tables. */
  ghost predicate WriteApart(r: Registers, st: State, sys: bool, addr: bv32, n: nat, v: bv32)
    requires Shaped(st.atc)
    decreases n
  {
    n > 0 ==>
      var (c, st') := PtestAndCheck(r, st, sys, addr, false, true);
      c.Phys? && Mapped(st'.mem, c.a) ==>
        && !TableWord(r, st'.mem, WordAt(c.a))
        && WriteApart(r, State(StoreByte(st'.mem, c.a, TopByte(v, n)), st'.atc), sys, Succ(addr), n - 1, v)
  }

  lemma SetByteLow(word: bv32, lane: bv32, b: bv32)
    ensures SetByte(word, lane, b & 0xff) == SetByte(word, lane, b)
  {}

  lemma TopByteLow(b: bv32)
    ensures TopByte(b, 1) == b & 0xff && TopByte(b & 0xff, 1) == b & 0xff
  {}

  lemma StoreOne(m: Memory, a: bv32, b: bv32)
    requires Mapped(m, a)
    ensures MappedRun(m, a, 1) && StoreRun(m, a, 1, b) == StoreByte(m, a, b)
  {
    hide SetByte, TopByte;
    TopByteLow(b);
    SetByteLow(m[WordAt(a)], Lane(a), b);
  }

  /** A store outside the tables agrees with every trail. */
  lemma StoreTrailWords(r: Registers, m0: Memory, m: Memory, sys: bool, page: bv32, a: bv32, b: bv32)
    requires SameTrailWords(r, m0, m, sys, page) && Mapped(m, a) && !TableWord(r, m, WordAt(a))
    ensures SameTrailWords(r, m0, StoreByte(m, a, b), sys, page)
  {
    hide TrailOf, Reads, SetByte, WordAt;
    TrailAgrees(r, m0, m, sys, page);
    var m' := StoreByte(m, a, b);
    assert m'.Keys == m.Keys;
    assert !Reads(TrailOf(r, m, sys, page), WordAt(a));
  }

  /** The bytes of a piece: after the first, every further translation is idle. */
  lemma {:induction false} WriteRun(r: Registers, st: State, sys: bool, page: bv32, m: Memory, addr: bv32, n: nat,
                                    v: bv32, first: bool)
    requires Inv(r, st)
    requires var (res, st1) := Ptest(r, st, page, sys, false, true);
             && Permits(res, sys, true) && SameTrailWords(r, st1.mem, m, sys, page)
             && MappedRun(m, PhysAddr(r.tcrP, res.paddr, addr), n)
             && WriteApart(r, State(m, st1.atc), sys, addr, n, v)
    requires WithinPage(addr, n) && (n > 0 ==> PageOf(addr) == page)
    ensures var (res, st1) := Ptest(r, st, page, sys, false, true);
            WriteBytes(r, State(m, st1.atc), sys, addr, n, v, first)
            == (Done, State(StoreRun(m, PhysAddr(r.tcrP, res.paddr, addr), n, v), st1.atc))
    decreases n
  {
    hide Ptest, PhysAddr, LastOfPage, StoreByte, Mapped, Permits, Succ, PageOf, BankOk, IndirectsApart, SameTrailWords,
         TopByte, TrailOf, TableWord;
    if n > 0 {
      var (res, st1) := Ptest(r, st, page, sys, false, true);
      PtestAgain(r, st, page, sys, false, true, m);
      var a := PhysAddr(r.tcrP, res.paddr, addr);
      StoreOne(m, a, TopByte(v, n));
      var m' := StoreByte(m, a, TopByte(v, n));
      StoreKeys(m, a, TopByte(v, n));
      assert WriteB(r, State(m, st1.atc), sys, addr, TopByte(v, n)) == (Done, State(m', st1.atc));
      if n > 1 {
        PageStep(addr);
        PhysStep(r.tcrP, res.paddr, addr);
        MappedKeys(m, m', Succ(a), n - 1);
        StoreTrailWords(r, st1.mem, m, sys, page, a, TopByte(v, n));
        WriteRun(r, st, sys, page, m', Succ(addr), n - 1, v, false);
      }
    }
  }

  lemma StoreKeys(m: Memory, a: bv32, b: bv32)
    requires Mapped(m, a)
    ensures StoreByte(m, a, b).Keys == m.Keys
  {
    hide SetByte;
  }

  /** One translated bus cycle within a page writes what byte after byte writes. */
  lemma WritePieceBytes(r: Registers, st: State, sys: bool, addr: bv32, n: nat, v: bv32)
    requires Inv(r, st) && WholePages(st.mem) && WithinPage(addr, n) && n > 0
    requires WriteApart(r, st, sys, addr, n, v)
    ensures WritePiece(r, st, sys, addr, n, v) == WriteBytes(r, st, sys, addr, n, v, true)
  {
    hide Ptest, PhysAddr, LastOfPage, StoreByte, Mapped, Permits, Succ, PageOf, BankOk, IndirectsApart, WholePages,
         TopByte, TableWord, TrailOf, SameTrailWords;
    var (res, st1) := Ptest(r, st, PageOf(addr), sys, false, true);
    if Permits(res, sys, true) {
      PtestInv(r, st, PageOf(addr), sys, false, true);
      var a := PhysAddr(r.tcrP, res.paddr, addr);
      WholePagesKeys(st.mem, st1.mem);
      PhysWithin(r.tcrP, res.paddr, addr, n);
      RunMapped(st1.mem, a, n);
      if Mapped(st1.mem, a) {
        WriteRest(r, st, sys, addr, n, v);
      }
    }
  }

  lemma WriteRest(r: Registers, st: State, sys: bool, addr: bv32, n: nat, v: bv32)
    requires Inv(r, st) && WithinPage(addr, n) && n > 0 && WriteApart(r, st, sys, addr, n, v)
    requires var (res, st1) := Ptest(r, st, PageOf(addr), sys, false, true);
             Permits(res, sys, true) && MappedRun(st1.mem, PhysAddr(r.tcrP, res.paddr, addr), n)
    ensures var (res, st1) := Ptest(r, st, PageOf(addr), sys, false, true);
            WriteBytes(r, st, sys, addr, n, v, true)
            == (Done, State(StoreRun(st1.mem, PhysAddr(r.tcrP, res.paddr, addr), n, v), st1.atc))
  {
    hide Ptest, PhysAddr, LastOfPage, StoreByte, Mapped, Permits, Succ, PageOf, BankOk, IndirectsApart, TopByte,
         TableWord, TrailOf;
    var (res, st1) := Ptest(r, st, PageOf(addr), sys, false, true);
    var a := PhysAddr(r.tcrP, res.paddr, addr);
    StoreOne(st1.mem, a, TopByte(v, n));
    StoreKeys(st1.mem, a, TopByte(v, n));
    MappedKeys(st1.mem, StoreByte(st1.mem, a, TopByte(v, n)), Succ(a), n - 1);
    if n > 1 {
      PageStep(addr);
      PhysStep(r.tcrP, res.paddr, addr);
      StoreTrailWords(r, st1.mem, st1.mem, sys, PageOf(addr), a, TopByte(v, n));
      WriteRun(r, st, sys, PageOf(addr), StoreByte(st1.mem, a, TopByte(v, n)), Succ(addr), n - 1, v, false);
    }
  }

  /** A byte write outside the tables keeps the invariant. */
  lemma WriteBInv(r: Registers, st: State, sys: bool, addr: bv32, n: nat, v: bv32)
    requires Inv(r, st) && WholePages(st.mem) && n > 0 && WriteApart(r, st, sys, addr, n, v)
    ensures var (x, st') := WriteB(r, st, sys, addr, TopByte(v, n));
            Inv(r, st') && WholePages(st'.mem) && Kept(r, st.mem, st'.mem) &&
            (x.Done? ==> WriteApart(r, st', sys, Succ(addr), n - 1, v))
  {
    hide Ptest, PhysAddr, StoreByte, Mapped, Permits, Succ, PageOf, BankOk, IndirectsApart, WholePages, TopByte,
         TableWord, Kept;
    var (res, st1) := Ptest(r, st, PageOf(addr), sys, false, true);
    PtestInv(r, st, PageOf(addr), sys, false, true);
    KeptKeys(r, st.mem, st1.mem);
    WholePagesKeys(st.mem, st1.mem);
    var a := PhysAddr(r.tcrP, res.paddr, addr);
    if Permits(res, sys, true) && Mapped(st1.mem, a) {
      StoreOne(st1.mem, a, TopByte(v, n));
      StoreKeys(st1.mem, a, TopByte(v, n));
      StoreByteInv(r, st1, a, TopByte(v, n));
      KeptTransitive(r, st.mem, st1.mem, StoreByte(st1.mem, a, TopByte(v, n)));
      WholePagesKeys(st1.mem, StoreByte(st1.mem, a, TopByte(v, n)));
    }
  }

  lemma KeptKeys(r: Registers, m: Memory, m': Memory)
    requires Kept(r, m, m')
    ensures m'.Keys == m.Keys
  {}

  lemma StoreByteInv(r: Registers, st: State, a: bv32, b: bv32)
    requires Inv(r, st) && Mapped(st.mem, a) && !TableWord(r, st.mem, WordAt(a))
    ensures Inv(r, State(StoreByte(st.mem, a, b), st.atc)) && Kept(r, st.mem, StoreByte(st.mem, a, b))
  {
    hide SetByte, TableWord, BankOk, IndirectsApart, WordAt, Kept;
    StoreOk(r, st, WordAt(a), SetByte(st.mem[WordAt(a)], Lane(a), b));
  }

  lemma WriteBLow(r: Registers, st: State, sys: bool, addr: bv32, b: bv32)
    requires Shaped(st.atc)
    ensures WriteB(r, st, sys, addr, b) == WriteB(r, st, sys, addr, b & 0xff)
  {
    hide PtestAndCheck, SetByte, Mapped, Succ;
    TopByteLow(b);
  }

  lemma TopBytes(w: bv32)
    ensures (w >> 8) & 0xff == TopByte(w, 2) && w & 0xff == TopByte(w, 1)
  {}

  lemma WriteBUpper(r: Registers, st: State, sys: bool, addr: bv32, w: bv32)
    requires Shaped(st.atc)
    ensures WriteB(r, st, sys, addr, UpperByte(w)) == WriteB(r, st, sys, addr, TopByte(w, 2))
  {
    WriteBLow(r, st, sys, addr, w >> 8);
    TopBytes(w);
    hide WriteB, TopByte;
  }

  lemma WriteBLower(r: Registers, st: State, sys: bool, addr: bv32, w: bv32)
    requires Shaped(st.atc)
    ensures WriteB(r, st, sys, addr, w) == WriteB(r, st, sys, addr, TopByte(w, 1))
  {
    WriteBLow(r, st, sys, addr, w);
    TopBytes(w);
    hide WriteB, TopByte;
  }

  lemma OddWriteW(r: Registers, st: State, sys: bool, addr: bv32, w: bv32)
    requires Shaped(st.atc) && addr & 1 != 0
    ensures WriteW(r, st, sys, addr, w) == WriteBytes(r, st, sys, addr, 2, w, true)
  {
    hide WriteB, Succ, Misaligned, TopByte, UpperByte;
    WriteBUpper(r, st, sys, addr, w);
    WriteBLower(r, WriteB(r, st, sys, addr, TopByte(w, 2)).1, sys, Succ(addr), w);
  }

  lemma TwoBytesInv(r: Registers, st: State, sys: bool, addr: bv32, w: bv32)
    requires Inv(r, st) && WholePages(st.mem) && WriteApart(r, st, sys, addr, 2, w)
    ensures var st' := WriteBytes(r, st, sys, addr, 2, w, true).1; Inv(r, st') && WholePages(st'.mem)
  {
    hide WriteB, Succ, WholePages, BankOk, IndirectsApart, Misaligned, TopByte, WriteApart;
    WriteBInv(r, st, sys, addr, 2, w);
    var (x1, st1) := WriteB(r, st, sys, addr, TopByte(w, 2));
    if x1.Done? {
      WriteBInv(r, st1, sys, Succ(addr), 1, w);
    }
  }

  /** A word write is two byte writes. */
  lemma WriteWBytes(r: Registers, st: State, sys: bool, addr: bv32, w: bv32)
    requires Inv(r, st) && WholePages(st.mem) && WriteApart(r, st, sys, addr, 2, w)
    ensures WriteW(r, st, sys, addr, w) == WriteBytes(r, st, sys, addr, 2, w, true)
    ensures var st' := WriteBytes(r, st, sys, addr, 2, w, true).1; Inv(r, st') && WholePages(st'.mem)
  {
    hide WriteB, WriteBytes, WritePiece, Succ, WholePages, BankOk, IndirectsApart, WithinPage, WriteApart;
    TwoBytesInv(r, st, sys, addr, w);
    if addr & 1 != 0 {
      OddWriteW(r, st, sys, addr, w);
    } else {
      EvenWithinPage(addr);
      WritePieceBytes(r, st, sys, addr, 2, w);
    }
  }

  lemma HighHalf(l: bv32)
    ensures TopByte(l >> 16, 2) == TopByte(l, 4) && TopByte(l >> 16, 1) == TopByte(l, 3)
  {}

  /** The first two of four bytes are the bytes of the high half. */
  lemma WriteFour(r: Registers, st: State, sys: bool, addr: bv32, l: bv32)
    requires Shaped(st.atc)
    ensures var (x, st') := WriteBytes(r, st, sys, addr, 2, l >> 16, true);
            WriteBytes(r, st, sys, addr, 4, l, true)
            == if x.Done? then
                 var (y, st2) := WriteBytes(r, st', sys, addr + 2, 2, l, true); (Later(y), st2)
               else (x, st')
  {
    hide WriteB, Succ, Misaligned, TopByte;
    HighHalf(l);
    SuccSucc(addr);
    var (x1, st1) := WriteB(r, st, sys, addr, TopByte(l, 4));
    if x1.Done? {
      var (x2, st2) := WriteB(r, st1, sys, Succ(addr), TopByte(l, 3));
      if x2.Done? {
        assert WriteBytes(r, st, sys, addr, 2, l >> 16, true) == (Done, st2);
        WriteTwoMore(r, st2, sys, addr + 2, l);
        assert WriteBytes(r, st, sys, addr, 4, l, true) == WriteBytes(r, st2, sys, addr + 2, 2, l, false);
      }
    }
  }

  lemma WriteTwoMore(r: Registers, st: State, sys: bool, addr: bv32, l: bv32)
    requires Shaped(st.atc)
    ensures var (y, st') := WriteBytes(r, st, sys, addr, 2, l, true);
            WriteBytes(r, st, sys, addr, 2, l, false) == (Later(y), st')
  {
    hide WriteB, Succ, Misaligned, TopByte;
    var (x1, st1) := WriteB(r, st, sys, addr, TopByte(l, 2));
    if x1.Done? {
      var (x2, st2) := WriteB(r, st1, sys, Succ(addr), TopByte(l, 1));
      if x2.WriteError? {
        MisalignedTwice(x2.ssw);
      }
    }
  }

  lemma ApartHalves(r: Registers, st: State, sys: bool, addr: bv32, l: bv32)
    requires Shaped(st.atc) && WriteApart(r, st, sys, addr, 4, l)
    ensures WriteApart(r, st, sys, addr, 2, l >> 16)
    ensures var (x, st') := WriteBytes(r, st, sys, addr, 2, l >> 16, true);
            x.Done? ==> WriteApart(r, st', sys, addr + 2, 2, l)
  {
    hide PtestAndCheck, Succ, TopByte, TableWord, Mapped, StoreByte;
    HighHalf(l);
    SuccSucc(addr);
    ApartStep(r, st, sys, addr, 4, l);
    ApartStep(r, st, sys, addr, 2, l >> 16);
    var (x1, st1) := WriteB(r, st, sys, addr, TopByte(l, 4));
    if x1.Done? {
      ApartStep(r, st1, sys, Succ(addr), 3, l);
      ApartStep(r, st1, sys, Succ(addr), 1, l >> 16);
    }
  }

  /** One step of WriteApart, in terms of the byte write itself. */
  lemma ApartStep(r: Registers, st: State, sys: bool, addr: bv32, n: nat, v: bv32)
    requires Shaped(st.atc) && n > 0
    ensures WriteApart(r, st, sys, addr, n, v) <==>
              var (c, st1) := PtestAndCheck(r, st, sys, addr, false, true);
              var (x, st') := WriteB(r, st, sys, addr, TopByte(v, n));
              (x.Done? ==> !TableWord(r, st1.mem, WordAt(c.a)) && WriteApart(r, st', sys, Succ(addr), n - 1, v))
  {
    hide PtestAndCheck, Succ, TopByte, TableWord, Mapped, StoreByte;
    var (c, st1) := PtestAndCheck(r, st, sys, addr, false, true);
    if c.Phys? && Mapped(st1.mem, c.a) {
      StoreOne(st1.mem, c.a, TopByte(v, n));
    }
  }

  /** WriteL is four byte writes, each translated on its own: same final state, same
      fault; on a fault exactly the bytes before the faulting one are stored. */
  lemma WriteLSplit(r: Registers, st: State, sys: bool, addr: bv32, l: bv32)
    requires Inv(r, st) && WholePages(st.mem) && !Unsplit(addr) && WriteApart(r, st, sys, addr, 4, l)
    ensures WriteL(r, st, sys, addr, l) == WriteBytes(r, st, sys, addr, 4, l, true)
  {
    hide WriteW, WritePiece, WriteBytes, Unsplit, WholePages, BankOk, IndirectsApart, WithinPage, WriteApart;
    if addr & 2 != 0 {
      ApartHalves(r, st, sys, addr, l);
      WriteWBytes(r, st, sys, addr, l >> 16);
      WriteFour(r, st, sys, addr, l);
      var (x1, st1) := WriteW(r, st, sys, addr, l >> 16);
      if x1.Done? {
        WriteWBytes(r, st1, sys, addr + 2, l);
      }
    } else {
      LongWithinPage(addr);
      WritePieceBytes(r, st, sys, addr, 4, l);
    }
  }

  /** A faulting WriteL has SSW_MA set exactly when its first byte has been written. */
  lemma WriteLSplitMisaligned(r: Registers, st: State, sys: bool, addr: bv32, l: bv32)
    requires Inv(r, st) && WholePages(st.mem) && !Unsplit(addr) && WriteApart(r, st, sys, addr, 4, l)
    requires WriteL(r, st, sys, addr, l).0.WriteError?
    ensures WriteL(r, st, sys, addr, l).0.ssw & SSW_MA != 0 <==> WriteB(r, st, sys, addr, TopByte(l, 4)).0.Done?
  {
    hide WriteL, Unsplit, WholePages, BankOk, IndirectsApart, WriteApart, TopByte;
    WriteLSplit(r, st, sys, addr, l);
    WriteBytesMisaligned(r, st, sys, addr, 4, l);
  }

  lemma WriteBytesMisaligned(r: Registers, st: State, sys: bool, addr: bv32, n: nat, v: bv32)
    requires Shaped(st.atc) && n > 0 && WriteBytes(r, st, sys, addr, n, v, true).0.WriteError?
    ensures WriteBytes(r, st, sys, addr, n, v, true).0.ssw & SSW_MA != 0
            <==> WriteB(r, st, sys, addr, TopByte(v, n)).0.Done?
  {
    hide Ptest, PhysAddr, Permits, PageOf, Succ, StoreRun, TopByte;
    var (x, st') := WriteB(r, st, sys, addr, TopByte(v, n));
    if x.Done? {
      LaterWriteMisaligned(r, st', sys, Succ(addr), n - 1, v);
    }
  }

  lemma {:induction false} LaterWriteMisaligned(r: Registers, st: State, sys: bool, addr: bv32, n: nat, v: bv32)
    requires Shaped(st.atc) && WriteBytes(r, st, sys, addr, n, v, false).0.WriteError?
    ensures WriteBytes(r, st, sys, addr, n, v, false).0.ssw & SSW_MA != 0
    decreases n
  {
    hide WriteB, Succ, TopByte;
    var (x, st') := WriteB(r, st, sys, addr, TopByte(v, n));
    if x.Done? {
      LaterWriteMisaligned(r, st', sys, Succ(addr), n - 1, v);
    }
  }
}
