/**
 WriteL at every address: what it keeps, and that ReadL reads back what it has written.
 */
module BusReadBack {
  import opened Addresses
  import opened MmuTables
  import opened Atc
  import opened AtcInvariant
  import opened AtcTheorems
  import opened AtcData
  import opened AtcMarks
  import opened BusAccess
  import opened BusTheorems
  import opened BusWrites
  import opened BusRoundTrip
  import opened BusUnsplitReads
  import opened BusFrames
  import opened BusUnsplitWrites

  // ---- The invariant ----

  /** The n bytes from a on are data. */
  ghost predicate DataRun(r: Registers, m: Memory, a: bv32, n: nat)
    decreases n
  {
    n > 0 ==> !TableWord(r, m, WordAt(a)) && DataRun(r, m, Succ(a), n - 1)
  }

  lemma {:induction false} DataRunKept(r: Registers, m: Memory, m': Memory, a: bv32, n: nat)
    requires Kept(r, m, m')
    ensures DataRun(r, m', a, n) == DataRun(r, m, a, n)
    decreases n
  {
    hide Kept, TableWord, WordAt, Succ;
    if n > 0 {
      TableWordKept(r, m, m', WordAt(a));
      DataRunKept(r, m, m', Succ(a), n - 1);
    }
  }

  lemma {:induction false} StoreRunInv(r: Registers, st: State, a: bv32, n: nat, v: bv32)
    requires Inv(r, st) && MappedRun(st.mem, a, n) && DataRun(r, st.mem, a, n)
    ensures Inv(r, State(StoreRun(st.mem, a, n, v), st.atc))
    decreases n
  {
    hide BankOk, IndirectsApart, TableWord, WordAt, Succ, StoreByte, TopByte, Kept;
    if n > 0 {
      var m' := StoreByte(st.mem, a, TopByte(v, n));
      StoreByteInv(r, st, a, TopByte(v, n));
      KeptKeys(r, st.mem, m');
      MappedKeys(st.mem, m', Succ(a), n - 1);
      DataRunKept(r, st.mem, m', Succ(a), n - 1);
      StoreRunInv(r, State(m', st.atc), Succ(a), n - 1, v);
    }
  }

  /** The bytes that WriteL itself stores are data. */
  ghost predicate StoredApart(r: Registers, st: State, sys: bool, addr: bv32, l: bv32)
    requires Shaped(st.atc)
  {
    if Unsplit(addr) then
      var (c, st1) := PtestAndCheck(r, st, sys, addr, false, true);
      c.Phys? && MappedRun(st1.mem, c.a, 4) ==> DataRun(r, st1.mem, c.a, 4)
    else WriteApart(r, st, sys, addr, 4, l)
  }

  /** A long write off the tables keeps the invariant, at every address. */
  lemma WriteLInv(r: Registers, st: State, sys: bool, addr: bv32, l: bv32)
    requires Inv(r, st) && WholePages(st.mem) && StoredApart(r, st, sys, addr, l)
    ensures var st' := WriteL(r, st, sys, addr, l).1; Inv(r, st') && WholePages(st'.mem)
  {
    hide PtestAndCheck, BankOk, IndirectsApart, WholePages, WriteApart, DataRun, MappedRun, StoreRun, WithinPage,
         WriteW, Kept;
    if Unsplit(addr) {
      UnsplitWhole(addr);
      CheckInv(r, st, sys, addr);
      var (c, st1) := PtestAndCheck(r, st, sys, addr, false, true);
      KeptKeys(r, st.mem, st1.mem);
      WholePagesKeys(st.mem, st1.mem);
      if c.Phys? && MappedRun(st1.mem, c.a, 4) {
        StoreRunInv(r, st1, c.a, 4, l);
        WholePagesKeys(st1.mem, StoreRun(st1.mem, c.a, 4, l));
      }
    } else {
      SplitInv(r, st, sys, addr, l);
    }
  }

  // ---- Reading back ----

  lemma FourDiffer(a: bv32)
    ensures a + 1 != a && a + 2 != a && a + 3 != a && a + 2 != a + 1 && a + 3 != a + 1 && a + 3 != a + 2
  {}

  lemma RunDiffers(a: bv32)
    ensures var b := Succ(a); var c := Succ(b); var d := Succ(c);
            a != b && a != c && a != d && b != c && b != d && c != d
  {
    FourDiffer(a);
  }

  /** Is a none of the n addresses from p on? */
  predicate NotAmong(a: bv32, p: bv32, n: nat)
    decreases n
  {
    n > 0 ==> a != p && NotAmong(a, Succ(p), n - 1)
  }

  lemma AllBehind(a: bv32, n: nat)
    requires n <= 3
    ensures NotAmong(a, Succ(a), n)
  {
    hide Succ;
    RunDiffers(a);
    var b, c, d := Succ(a), Succ(Succ(a)), Succ(Succ(Succ(a)));
    assert NotAmong(a, Succ(d), 0);
    assert NotAmong(a, d, 0) && NotAmong(a, d, 1);
    assert NotAmong(a, c, 0) && NotAmong(a, c, 1) && NotAmong(a, c, 2);
  }

  lemma {:induction false} OthersStored(m: Memory, p: bv32, n: nat, v: bv32, a: bv32)
    requires MappedRun(m, p, n) && Mapped(m, a) && NotAmong(a, p, n)
    ensures Mapped(StoreRun(m, p, n, v), a) && MemByte(StoreRun(m, p, n, v), a) == MemByte(m, a)
    decreases n
  {
    hide StoreByte, MemByte, TopByte, Succ, WordAt;
    if n > 0 {
      var m' := StoreByte(m, p, TopByte(v, n));
      StoreOther(m, p, TopByte(v, n), a);
      StoreKeys(m, p, TopByte(v, n));
      MappedKeys(m, m', Succ(p), n - 1);
      OthersStored(m', Succ(p), n - 1, v, a);
    }
  }

  /** A byte stored before others are. */
  lemma StoredFirst(m: Memory, a: bv32, b: bv32, n: nat, v: bv32)
    requires Mapped(m, a) && MappedRun(StoreByte(m, a, b), Succ(a), n) && n <= 3
    ensures var m' := StoreRun(StoreByte(m, a, b), Succ(a), n, v);
            Mapped(m', a) && MemByte(m', a) == b & 0xff
  {
    hide StoreByte, MemByte, Mapped, TopByte, NotAmong, Succ, StoreRun;
    StoreSame(m, a, b);
    AllBehind(a, n);
    OthersStored(StoreByte(m, a, b), Succ(a), n, v, a);
  }

  /** The first n bytes of v behind those in acc. */
  function AppendTop(acc: bv32, v: bv32, n: nat): bv32
    decreases n
  {
    if n == 0 then acc else AppendTop(Append(acc, TopByte(v, n) & 0xff), v, n - 1)
  }

  lemma {:induction false} LoadStored(m: Memory, a: bv32, n: nat, v: bv32, acc: bv32)
    requires MappedRun(m, a, n) && n <= 4
    ensures MappedRun(StoreRun(m, a, n, v), a, n)
    ensures LoadRun(StoreRun(m, a, n, v), a, n, acc) == AppendTop(acc, v, n)
    decreases n
  {
    hide StoreByte, MemByte, TopByte, Succ, WordAt, Append;
    if n > 0 {
      var m' := StoreByte(m, a, TopByte(v, n));
      StoreKeys(m, a, TopByte(v, n));
      MappedKeys(m, m', Succ(a), n - 1);
      StoredFirst(m, a, TopByte(v, n), n - 1, v);
      LoadStored(m', Succ(a), n - 1, v, Append(acc, TopByte(v, n) & 0xff));
    }
  }

  lemma LongLoaded(m: Memory, a: bv32, l: bv32)
    requires MappedRun(m, a, 4)
    ensures MappedRun(StoreRun(m, a, 4, l), a, 4) && LoadRun(StoreRun(m, a, 4, l), a, 4, 0) == l
  {
    hide StoreRun, LoadRun, MappedRun, TopByte, Append;
    LoadStored(m, a, 4, l, 0);
    FourBytes(l);
  }

  lemma UnsplitReadBack(r: Registers, st: State, sys: bool, addr: bv32, l: bv32, lock: bool)
    requires Inv(r, st) && WholePages(st.mem) && Unsplit(addr)
    requires StoredApart(r, st, sys, addr, l) || Present(r, st.mem, sys, addr)
    requires WriteL(r, st, sys, addr, l).0.Done?
    ensures var st' := WriteL(r, st, sys, addr, l).1;
            ReadL(r, st', sys, addr, lock) == (Data(l), st')
  {
    hide PtestAndCheck, BankOk, IndirectsApart, MappedRun, StoreRun, LoadRun, WithinPage, Served, PhysOf, PageOf, ReadW,
         WriteW, DataRun, WholePages, Kept, Present;
    UnsplitWhole(addr);
    WriteServes(r, st, sys, addr);
    var (c, st1) := PtestAndCheck(r, st, sys, addr, false, true);
    CheckInv(r, st, sys, addr);
    LongLoaded(st1.mem, c.a, l);
    if Present(r, st.mem, sys, addr) {
      PresentKept(r, st.mem, st1.mem, sys, addr);
      HitServed(r, st1, StoreRun(st1.mem, c.a, 4, l), sys, addr);
    } else {
      RunServed(r, st1, sys, PageOf(addr), c.a, 4, l);
    }
    ServedPure(r, WriteL(r, st, sys, addr, l).1, sys, addr, lock);
  }

  /** A page that is served by no stale slot is served whatever memory holds. */
  lemma HitServed(r: Registers, st: State, m': Memory, sys: bool, addr: bv32)
    requires Shaped(st.atc) && Served(r, st, sys, PageOf(addr)) && Present(r, st.mem, sys, addr)
    ensures Served(r, State(m', st.atc), sys, PageOf(addr))
  {
    hide TrailOf, LevelsUsed, Get, PtestTtr, PageOf;
  }

  /** A run of data stores leaves a served page served. */
  lemma {:induction false} RunServed(r: Registers, st: State, sys: bool, page: bv32, a: bv32, n: nat, v: bv32)
    requires Inv(r, st) && MappedRun(st.mem, a, n) && DataRun(r, st.mem, a, n) && Served(r, st, sys, page)
    ensures Served(r, State(StoreRun(st.mem, a, n, v), st.atc), sys, page)
    decreases n
  {
    hide BankOk, IndirectsApart, TableWord, WordAt, Succ, StoreByte, TopByte, Kept, Served;
    if n > 0 {
      var m' := StoreByte(st.mem, a, TopByte(v, n));
      StoreByteInv(r, st, a, TopByte(v, n));
      StoreServed(r, st, sys, page, a, TopByte(v, n));
      KeptKeys(r, st.mem, m');
      MappedKeys(st.mem, m', Succ(a), n - 1);
      DataRunKept(r, st.mem, m', Succ(a), n - 1);
      RunServed(r, State(m', st.atc), sys, page, Succ(a), n - 1, v);
    }
  }

  /**
   What WriteL has written off the tables ReadL reads, locked or not, for every address, whatever
   the frames are: always where the write is not split, and else if and only if no late M hits
   a byte just written.  The read changes nothing.  An unsplit write is read back even over the
   tables, unless a stale slot let it through.
   */
  lemma WriteReadBack(r: Registers, st: State, sys: bool, addr: bv32, l: bv32, lock: bool)
    requires Inv(r, st) && WholePages(st.mem)
    requires StoredApart(r, st, sys, addr, l) || (Unsplit(addr) && Present(r, st.mem, sys, addr))
    requires WriteL(r, st, sys, addr, l).0.Done?
    ensures var st' := WriteL(r, st, sys, addr, l).1;
            var (x, st'') := ReadL(r, st', sys, addr, lock);
            st'' == st' && (x == Data(l) <==> (Unsplit(addr) || Unspoiled(r, st, sys, addr, 4, l)))
  {
    hide WriteL, ReadL, WriteApart, BankOk, IndirectsApart, WholePages, Unsplit, Unspoiled, PtestAndCheck, DataRun,
         MappedRun, Present;
    if Unsplit(addr) {
      UnsplitReadBack(r, st, sys, addr, l, lock);
    } else {
      SplitReadBack(r, st, sys, addr, l, lock);
    }
  }

  // ---- Writes inside one 8K page ----

  /** The bytes a run of byte writes within a page stores are data one behind the other. */
  lemma {:induction false} ApartRun(r: Registers, st: State, sys: bool, page: bv32, m: Memory, addr: bv32, n: nat,
                                    v: bv32)
    requires Inv(r, st)
    requires var (res, st1) := Ptest(r, st, page, sys, false, true);
             && Permits(res, sys, true) && SameTrailWords(r, st1.mem, m, sys, page)
             && MappedRun(m, PhysAddr(r.tcrP, res.paddr, addr), n)
             && WriteApart(r, State(m, st1.atc), sys, addr, n, v)
    requires WithinPage(addr, n) && (n > 0 ==> PageOf(addr) == page)
    ensures DataRun(r, m, PhysAddr(r.tcrP, Ptest(r, st, page, sys, false, true).0.paddr, addr), n)
    decreases n
  {
    hide Ptest, PhysAddr, LastOfPage, StoreByte, Mapped, Permits, Succ, PageOf, BankOk, IndirectsApart, SameTrailWords,
         TopByte, TrailOf, TableWord, WordAt, Kept;
    if n > 0 {
      var (res, st1) := Ptest(r, st, page, sys, false, true);
      PtestAgain(r, st, page, sys, false, true, m);
      var a := PhysAddr(r.tcrP, res.paddr, addr);
      var m' := StoreByte(m, a, TopByte(v, n));
      StoreKeys(m, a, TopByte(v, n));
      StoreByteKept(r, m, a, TopByte(v, n));
      if n > 1 {
        PageStep(addr);
        PhysStep(r.tcrP, res.paddr, addr);
        MappedKeys(m, m', Succ(a), n - 1);
        StoreTrailWords(r, st1.mem, m, sys, page, a, TopByte(v, n));
        ApartRun(r, st, sys, page, m', Succ(addr), n - 1, v);
        DataRunKept(r, m, m', Succ(a), n - 1);
      }
    }
  }

  lemma StoreByteKept(r: Registers, m: Memory, a: bv32, b: bv32)
    requires Mapped(m, a) && !TableWord(r, m, WordAt(a))
    ensures Kept(r, m, StoreByte(m, a, b))
  {
    hide SetByte, TableWord, WordAt, Kept;
    StoreKept(r, m, WordAt(a), SetByte(m[WordAt(a)], Lane(a), b));
  }

  lemma {:induction false} RunTrailWords(r: Registers, m0: Memory, m: Memory, sys: bool, page: bv32, a: bv32, n: nat,
                                         v: bv32)
    requires SameTrailWords(r, m0, m, sys, page) && MappedRun(m, a, n) && DataRun(r, m, a, n)
    ensures SameTrailWords(r, m0, StoreRun(m, a, n, v), sys, page)
    decreases n
  {
    hide SameTrailWords, StoreByte, TableWord, WordAt, Succ, TopByte, Kept;
    if n > 0 {
      var m' := StoreByte(m, a, TopByte(v, n));
      StoreTrailWords(r, m0, m, sys, page, a, TopByte(v, n));
      StoreByteKept(r, m, a, TopByte(v, n));
      StoreKeys(m, a, TopByte(v, n));
      MappedKeys(m, m', Succ(a), n - 1);
      DataRunKept(r, m, m', Succ(a), n - 1);
      RunTrailWords(r, m0, m', sys, page, Succ(a), n - 1, v);
    }
  }

  /** The first three byte writes take no part in the next page's translation. */
  lemma NextUnmoved(r: Registers, st: State, sys: bool, addr: bv32, l: bv32)
    requires Inv(r, st) && WholePages(st.mem) && DeviatesWrite(r, st, sys, addr) && LongApart(r, st, sys, addr, l)
    ensures LastCheck(r, st, sys, addr, l).0 == NextCheck(r, st, sys, addr, true).0
  {
    hide Ptest, PageOf, Check, BankOk, IndirectsApart, WholePages, TableWord, StoreRun, Mapped, TrailOf, SameAccess,
         Shorter, Skip, WriteApart, WriteBytes, Unsplit, PhysAddr, Kept, DataRun, MappedRun, Permits, WriteL,
         WithinPage;
    ApartJoin(r, st, sys, addr, 3, l, true);
    UnsplitWhole(addr);
    UnsplitWriteParts(r, st, sys, addr, l);
    RunInv(r, st, sys, addr, 3, Shorter(l), true);
    PtestInv(r, st, PageOf(addr), sys, false, true);
    var (c, st1) := PtestAndCheck(r, st, sys, addr, false, true);
    var page := PageOf(Skip(addr, 3));
    FirstThreeData(r, st, sys, addr, Shorter(l));
    SameReflexive(r, st1.mem, sys, page);
    RunTrailWords(r, st1.mem, st1.mem, sys, page, c.a, 3, Shorter(l));
    var m3 := StoreRun(st1.mem, c.a, 3, Shorter(l));
    ResultAlike(r, st1, m3, page, sys, true);
    CheckAlike(r, Ptest(r, st1, page, sys, false, true).0, Ptest(r, State(m3, st1.atc), page, sys, false, true).0,
               sys, true, Skip(addr, 3));
  }

  lemma FirstThreeData(r: Registers, st: State, sys: bool, addr: bv32, v: bv32)
    requires Inv(r, st) && WithinPage(addr, 3) && WriteApart(r, st, sys, addr, 3, v)
    requires var (c, st1) := PtestAndCheck(r, st, sys, addr, false, true); c.Phys? && MappedRun(st1.mem, c.a, 3)
    ensures var (c, st1) := PtestAndCheck(r, st, sys, addr, false, true); DataRun(r, st1.mem, c.a, 3)
  {
    hide Ptest, PageOf, BankOk, IndirectsApart, TableWord, TrailOf, WriteApart, PhysAddr, DataRun, MappedRun, Permits,
         WithinPage;
    var (res, st1) := Ptest(r, st, PageOf(addr), sys, false, true);
    SameReflexive(r, st1.mem, sys, PageOf(addr));
    AfterCheck(r, st, sys, addr, 3, v);
    ApartRun(r, st, sys, PageOf(addr), st1.mem, addr, 3, v);
  }

  /** What a run of byte writes stores is the same once its first page has been translated. */
  lemma AfterCheck(r: Registers, st: State, sys: bool, addr: bv32, n: nat, v: bv32)
    requires Inv(r, st) && WriteApart(r, st, sys, addr, n, v)
    ensures WriteApart(r, PtestAndCheck(r, st, sys, addr, false, true).1, sys, addr, n, v)
  {
    hide Ptest, Check, PageOf, BankOk, IndirectsApart, TableWord, TrailOf, Mapped, StoreByte, TopByte, Succ;
    PtestSettles(r, st, sys, PageOf(addr), true);
  }

  /** A long write inside one 8K page with an even frame stores what its four byte writes store, if
      and only if RAM does not end between the halves of the page. */
  lemma MidPageWrite(r: Registers, st: State, sys: bool, addr: bv32, l: bv32)
    requires Inv(r, st) && WholePages(st.mem) && r.tcrP && MidPage(addr) && HalvesFresh(r, st, sys, addr, true)
    requires LongApart(r, st, sys, addr, l) && CanWrite(r, st, sys, addr)
    requires Even(Ptest(r, st, PageOf(addr), sys, false, true).0.paddr)
    ensures SameStores(r, st, sys, addr, l) <==> Mapped(st.mem, BehindPhys(r, st, sys, addr, true))
  {
    hide PtestAndCheck, BankOk, IndirectsApart, WholePages, LongApart, Skip, Mapped, TopByte, MemByte, SameStores,
         HalvesFresh, Ptest, Even, MidPage, Unsplit, PageOf;
    MidPages(addr);
    WritablePhys(r, st, sys, addr);
    MidPageIff(r, st, sys, addr, true);
    NextUnmoved(r, st, sys, addr, l);
    ThreeKeys(r, st, sys, addr, l);
    SameMapped(st.mem, ThreeStored(r, st, sys, addr, l).mem, BehindPhys(r, st, sys, addr, true));
    HalvesNotLate(r, st, sys, addr, l);
    LastMapped(r, st, sys, addr, l, BehindPhys(r, st, sys, addr, true));
    UnsplitWriteIff(r, st, sys, addr, l);
  }

  /** A fresh half sets no late M. */
  lemma HalvesNotLate(r: Registers, st: State, sys: bool, addr: bv32, l: bv32)
    requires Inv(r, st) && WholePages(st.mem) && r.tcrP && MidPage(addr) && HalvesFresh(r, st, sys, addr, true)
    requires LongApart(r, st, sys, addr, l) && DeviatesWrite(r, st, sys, addr)
    ensures !LastLate(r, st, sys, addr, l)
  {
    hide PtestAndCheck, BankOk, IndirectsApart, WholePages, WriteApart, WriteBytes, Shorter, Skip, TableWord, Mapped,
         Kept, Unsplit, PageOf, ByTables, MustModify, MidPage, StoreRun, MappedRun, TrailOf, Succ, TopByte, WriteL, Get;
    MidPages(addr);
    PairByTables(r, PageOf(addr), sys);
    ApartJoin(r, st, sys, addr, 3, l, true);
    UnsplitWriteParts(r, st, sys, addr, l);
    RunInv(r, st, sys, addr, 3, Shorter(l), true);
    CheckInv(r, st, sys, addr);
    var st1, st3 := PtestAndCheck(r, st, sys, addr, false, true).1, ThreeStored(r, st, sys, addr, l);
    WalkStable(r, st.mem, st1.mem, sys, PageOf(Skip(addr, 3)));
    WalkStable(r, st.mem, st3.mem, sys, PageOf(Skip(addr, 3)));
  }

  lemma WritablePhys(r: Registers, st: State, sys: bool, addr: bv32)
    requires Shaped(st.atc) && CanWrite(r, st, sys, addr)
    ensures PtestAndCheck(r, st, sys, addr, false, true).0.Phys?
  {
    hide PtestAndCheck, Mapped;
  }

  lemma ThreeKeys(r: Registers, st: State, sys: bool, addr: bv32, l: bv32)
    requires Inv(r, st) && WholePages(st.mem) && LongApart(r, st, sys, addr, l) && DeviatesWrite(r, st, sys, addr)
    ensures ThreeStored(r, st, sys, addr, l).mem.Keys == st.mem.Keys
  {
    hide PtestAndCheck, BankOk, IndirectsApart, WholePages, LongApart, Skip, Mapped, SameData, TableWord, WriteBytes,
         DeviatesWrite, Shorter;
    LastStep(r, st, sys, addr, l);
  }
}
