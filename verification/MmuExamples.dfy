/**
 Inputs on which the properties fail when their conditions are dropped.
 */
module MmuExamples {
  import opened Addresses
  import opened MmuTables
  import opened Atc
  import opened AtcInvariant
  import opened AtcTheorems
  import opened BusAccess
  import opened BusTheorems
  import opened BusWrites
  import opened AtcLive
  import opened AtcRuns
  import opened AtcWrites

  const OFF := Ttr(0, 0, false, 0, false)

  /** 4K pages, the user root table at 0x1000, no transparent translation. */
  const REGS := Registers(true, false, 0x1000, 0x8000, OFF, OFF, OFF, OFF)

  /** Page 0 is frame 5; pages 1 and 0x10 have invalid descriptors; the last word of
      frame 5 and the word after it are data. */
  const TABLES: Memory := map[
    At(0x1000) := 0x2002, At(0x2000) := 0x3002,
    At(0x3000) := 0x5001, At(0x3004) := 0, At(0x3040) := 0,
    At(0x5FFC) := 0x11223344, At(0x6000) := 0x55667788
  ]

  const MARKED: Memory := TABLES[At(0x1000) := 0x200a][At(0x2000) := 0x300a][At(0x3000) := 0x5009]

  const SLOT0 := Slot(0, true, false, 5, At(0x3000), 0, false, 0, false, false, true)

  function Slots(): seq<Slot> {
    seq(16, _ => Slot(0, false, false, 0, At(0), 0, false, 0, false, false, false))
  }

  function Empties(): (c: Caches)
    ensures Shaped(c)
  {
    Caches(Slots(), Slots(), Slots(), Slots())
  }

  const START: State := State(TABLES, Empties())

  /** The state after a read of page 0. */
  const AFTER: State := State(MARKED, Put(Empties(), false, false, 0, SLOT0))

  lemma Page0()
    ensures Ptest(REGS, START, 0, false, false, false) == (SlotResult(SLOT0), AFTER)
  {
    var e := Get(Empties(), false, false, 0);
    assert RootEntry(REGS, false, 0) == At(0x1000);
    assert PointerEntry(0x200a, 0) == At(0x2000);
    assert PageEntry(REGS, 0x300a, 0) == At(0x3000);
    var m1 := TABLES[At(0x1000) := 0x200a];
    var m2 := m1[At(0x2000) := 0x300a];
    assert AtcSet(m2, e, 0, At(0x3000), false, false, false) == Search(true, m2[At(0x3000) := 0x5009], SLOT0);
    assert SearchPointer(REGS, m1, e, 0, false, false, 0x200a) == AtcSet(m2, e, 0, At(0x3000), false, false, false);
    assert AtcSearch(REGS, TABLES, e, 0, false, false) == SearchPointer(REGS, m1, e, 0, false, false, 0x200a);
    assert Get(AFTER.atc, false, false, 0) == SLOT0;
  }

  /** The search for page 1 or page 0x10 stops at the invalid descriptor. */
  lemma InvalidPage(page: bv32, e: Slot)
    requires page == 1 || page == 0x10
    ensures AtcSearch(REGS, MARKED, e, page, false, false) == Search(true, MARKED, e)
    ensures WalkOf(REGS, MARKED, false, page) == NoPage
  {
    assert RootEntry(REGS, false, page) == At(0x1000);
    assert PointerEntry(0x200a, page) == At(0x2000);
    assert PageEntry(REGS, 0x300a, page) == if page == 1 then At(0x3004) else At(0x3040);
    assert MARKED[At(0x1000) := 0x200a] == MARKED && MARKED[At(0x2000) := 0x300a] == MARKED;
    assert AtcSet(MARKED, e, page, PageEntry(REGS, 0x300a, page), false, false, false) == Search(true, MARKED, e);
    assert SearchPointer(REGS, MARKED, e, page, false, false, 0x200a)
        == AtcSet(MARKED, e, page, PageEntry(REGS, 0x300a, page), false, false, false);
  }

  /** A stale answer: after page 0, page 0x10 is answered with frame 5 although its
      descriptor is invalid. */
  lemma StaleAnswer()
    ensures var (res, st') := Ptest(REGS, AFTER, 0x10, false, false, false);
            res.R && res.paddr == 5 && WalkOf(REGS, st'.mem, false, 0x10) == NoPage
  {
    InvalidPage(0x10, SLOT0);
    assert Index(0x10) == 0;
    assert Get(AFTER.atc, false, false, 0x10) == SLOT0;
    assert Put(AFTER.atc, false, false, 0x10, SLOT0) == AFTER.atc;
  }

  /** Bytes of page 0 are read from the slot. */
  lemma ByteOfPage0(addr: bv32)
    requires addr == 0xffd || addr == 0xffe || addr == 0xfff
    ensures ReadB(REGS, AFTER, false, addr, false).0.Data? && ReadB(REGS, AFTER, false, addr, false).1 == AFTER
  {
    assert PageOf(addr) == 0;
    assert Get(AFTER.atc, false, false, 0) == SLOT0;
    assert Ptest(REGS, AFTER, 0, false, false, false) == (SlotResult(SLOT0), AFTER);
    assert WordAt(PhysAddr(false, 5, addr)) == At(0x5FFC);
    OneByte(MARKED, PhysAddr(false, 5, addr));
  }

  lemma ByteOfPage1()
    ensures ReadB(REGS, AFTER, false, 0x1000, false).0.ReadError?
  {
    assert PageOf(0x1000) == 1 && Index(1) == 1;
    var e := Get(AFTER.atc, false, false, 1);
    assert !e.R;
    InvalidPage(1, e);
    assert Put(AFTER.atc, false, false, 1, e) == AFTER.atc;
  }

  /** A long read at offset 0xffd of a page is not split: it takes its last byte from the
      frame that happens to follow, while a byte read of that address faults. */
  lemma UnsplitDiffers()
    ensures Unsplit(0xffd)
    ensures ReadL(REGS, AFTER, false, 0xffd, false).0.Data?
    ensures ReadBytes(REGS, AFTER, false, 0xffd, 4, false, 0, true).0.ReadError?
  {
    ByteOfPage0(0xffd);
    ByteOfPage0(0xffe);
    ByteOfPage0(0xfff);
    ByteOfPage1();
    FourReads();
    assert PageOf(0xffd) == 0;
    assert Ptest(REGS, AFTER, 0, false, false, false) == (SlotResult(SLOT0), AFTER);
    assert PhysAddr(false, 5, 0xffd) == 0x5ffd;
    assert Mapped(MARKED, 0x5ffd) && Mapped(MARKED, 0x5ffe) && Mapped(MARKED, 0x5fff) && Mapped(MARKED, 0x6000);
    assert MappedRun(MARKED, 0x5ffe, 3);
  }

  lemma FourReads()
    requires ReadB(REGS, AFTER, false, 0xffd, false).0.Data? && ReadB(REGS, AFTER, false, 0xffd, false).1 == AFTER
    requires ReadB(REGS, AFTER, false, 0xffe, false).0.Data? && ReadB(REGS, AFTER, false, 0xffe, false).1 == AFTER
    requires ReadB(REGS, AFTER, false, 0xfff, false).0.Data? && ReadB(REGS, AFTER, false, 0xfff, false).1 == AFTER
    requires ReadB(REGS, AFTER, false, 0x1000, false).0.ReadError?
    ensures ReadBytes(REGS, AFTER, false, 0xffd, 4, false, 0, true).0.ReadError?
  {
    hide ReadB, Append, Misaligned;
    assert Succ(0xffd) == 0xffe && Succ(0xffe) == 0xfff && Succ(0xfff) == 0x1000;
    forall acc: bv32 ensures ReadBytes(REGS, AFTER, false, 0xfff, 2, false, acc, false).0.ReadError? {
      assert forall acc': bv32 :: ReadBytes(REGS, AFTER, false, 0x1000, 1, false, acc', false).0.ReadError?;
    }
    forall acc: bv32 ensures ReadBytes(REGS, AFTER, false, 0xffe, 3, false, acc, false).0.ReadError? {
    }
  }

  // ---- The same for a write ----

  /** Page 0 after a write to it. */
  const WRITABLE: State :=
    State(MARKED[At(0x3000) := 0x5019], Put(Empties(), false, false, 0, SLOT0.(M := true)))

  lemma ByteTo0(m: Memory, addr: bv32, b: bv32)
    requires (addr == 0xffd || addr == 0xffe || addr == 0xfff) && At(0x5FFC) in m
    ensures Mapped(m, PhysAddr(false, 5, addr))
    ensures WriteB(REGS, State(m, WRITABLE.atc), false, addr, b)
            == (Done, State(StoreByte(m, PhysAddr(false, 5, addr), b), WRITABLE.atc))
  {
    assert PageOf(addr) == 0;
    assert Get(WRITABLE.atc, false, false, 0) == SLOT0.(M := true);
    assert Ptest(REGS, State(m, WRITABLE.atc), 0, false, false, true)
           == (SlotResult(SLOT0.(M := true)), State(m, WRITABLE.atc));
    assert WordAt(PhysAddr(false, 5, addr)) == At(0x5FFC);
    StoreOne(m, PhysAddr(false, 5, addr), b);
  }

  /** Data stores leave the tables as they are. */
  predicate TablesIn(m: Memory) {
    && At(0x1000) in m && m[At(0x1000)] == 0x200a && At(0x2000) in m && m[At(0x2000)] == 0x300a
    && At(0x3004) in m && m[At(0x3004)] == 0 && At(0x5FFC) in m
  }

  lemma ByteTo1(m: Memory, b: bv32)
    requires TablesIn(m)
    ensures WriteB(REGS, State(m, WRITABLE.atc), false, 0x1000, b).0.WriteError?
  {
    assert PageOf(0x1000) == 1 && Index(1) == 1;
    var e := Get(WRITABLE.atc, false, false, 1);
    assert !e.R;
    assert RootEntry(REGS, false, 1) == At(0x1000);
    assert PointerEntry(0x200a, 1) == At(0x2000);
    assert PageEntry(REGS, 0x300a, 1) == At(0x3004);
    assert m[At(0x1000) := 0x200a] == m && m[At(0x2000) := 0x300a] == m;
    assert AtcSet(m, e, 1, At(0x3004), true, false, false) == Search(true, m, e);
    assert SearchPointer(REGS, m, e, 1, false, true, 0x200a) == AtcSet(m, e, 1, At(0x3004), true, false, false);
    assert AtcSearch(REGS, m, e, 1, false, true) == SearchPointer(REGS, m, e, 1, false, true, 0x200a);
    assert Put(WRITABLE.atc, false, false, 1, e) == WRITABLE.atc;
  }

  lemma StoresIn(m: Memory, addr: bv32, b: bv32)
    requires TablesIn(m) && (addr == 0xffd || addr == 0xffe || addr == 0xfff)
    ensures Mapped(m, PhysAddr(false, 5, addr)) && TablesIn(StoreByte(m, PhysAddr(false, 5, addr), b))
  {
    assert WordAt(PhysAddr(false, 5, addr)) == At(0x5FFC);
  }

  lemma FourWrites(m: Memory, l: bv32)
    requires TablesIn(m)
    ensures WriteBytes(REGS, State(m, WRITABLE.atc), false, 0xffd, 4, l, true).0.WriteError?
  {
    assert Succ(0xffd) == 0xffe && Succ(0xffe) == 0xfff && Succ(0xfff) == 0x1000;
    hide WriteB, TablesIn, StoreByte, PhysAddr, Succ, TopByte, Misaligned, Mapped;
    ByteTo0(m, 0xffd, TopByte(l, 4));
    StoresIn(m, 0xffd, TopByte(l, 4));
    var m1 := StoreByte(m, PhysAddr(false, 5, 0xffd), TopByte(l, 4));
    TablesHold(m);
    TablesHold(m1);
    ByteTo0(m1, 0xffe, TopByte(l, 3));
    StoresIn(m1, 0xffe, TopByte(l, 3));
    var m2 := StoreByte(m1, PhysAddr(false, 5, 0xffe), TopByte(l, 3));
    TablesHold(m2);
    ByteTo0(m2, 0xfff, TopByte(l, 2));
    StoresIn(m2, 0xfff, TopByte(l, 2));
    var m3 := StoreByte(m2, PhysAddr(false, 5, 0xfff), TopByte(l, 2));
    ByteTo1(m3, TopByte(l, 1));
    assert WriteBytes(REGS, State(m3, WRITABLE.atc), false, 0x1000, 1, l, false).0.WriteError?;
    assert WriteBytes(REGS, State(m2, WRITABLE.atc), false, 0xfff, 2, l, false).0.WriteError?;
    assert WriteBytes(REGS, State(m1, WRITABLE.atc), false, 0xffe, 3, l, false).0.WriteError?;
  }

  lemma TablesHold(m: Memory)
    requires TablesIn(m)
    ensures At(0x5FFC) in m
  {}

  /** A long write at offset 0xffd stores all its bytes, the last one in the frame that happens to
      follow, while a byte write of that address faults: the next page has no valid descriptor. */
  lemma UnsplitWriteDiffers(l: bv32)
    ensures WriteL(REGS, WRITABLE, false, 0xffd, l).0.Done?
    ensures WriteBytes(REGS, WRITABLE, false, 0xffd, 4, l, true).0.WriteError?
  {
    FourWrites(WRITABLE.mem, l);
    assert PageOf(0xffd) == 0;
    assert Ptest(REGS, WRITABLE, 0, false, false, true) == (SlotResult(SLOT0.(M := true)), WRITABLE);
    assert PhysAddr(false, 5, 0xffd) == 0x5ffd;
    assert Mapped(WRITABLE.mem, 0x5ffd) && Mapped(WRITABLE.mem, 0x5ffe) && Mapped(WRITABLE.mem, 0x5fff)
           && Mapped(WRITABLE.mem, 0x6000);
    assert MappedRun(WRITABLE.mem, 0x5ffe, 3);
  }

  // ---- A late M in a byte just written ----

  /** A flushed entry of page 1, whose descriptor has since become a data word at 0x5FFC. */
  const FLUSHED1 := Slot(1, false, false, 6, At(0x5FFC), 0, false, 0, false, false, true)

  const SPOILING: State := State(WRITABLE.mem, Put(WRITABLE.atc, false, false, 1, FLUSHED1))

  const SPOILED: Caches := Put(WRITABLE.atc, false, false, 1, FLUSHED1.(M := true))

  lemma SearchOf1(m: Memory, e: Slot, write: bool)
    requires TablesIn(m)
    ensures AtcSearch(REGS, m, e, 1, false, write) == Search(true, m, e)
  {
    assert RootEntry(REGS, false, 1) == At(0x1000);
    assert PointerEntry(0x200a, 1) == At(0x2000);
    assert PageEntry(REGS, 0x300a, 1) == At(0x3004);
    assert m[At(0x1000) := 0x200a] == m && m[At(0x2000) := 0x300a] == m;
    assert AtcSet(m, e, 1, At(0x3004), write, false, false) == Search(true, m, e);
    assert SearchPointer(REGS, m, e, 1, false, write, 0x200a) == AtcSet(m, e, 1, At(0x3004), write, false, false);
  }

  lemma Slots1()
    ensures Get(SPOILING.atc, false, false, 1) == FLUSHED1 && Get(SPOILED, false, false, 1) == FLUSHED1.(M := true)
    ensures Put(SPOILING.atc, false, false, 1, FLUSHED1.(M := true)) == SPOILED
    ensures Get(SPOILING.atc, false, false, 0) == SLOT0.(M := true)
            && Get(SPOILED, false, false, 0) == SLOT0.(M := true)
  {
    assert Index(0) == 0 && Index(1) == 1;
  }

  /** The write to page 1 goes to frame 6 and sets M in the data word. */
  lemma SpoilingCheck(m: Memory)
    requires TablesIn(m)
    ensures PtestAndCheck(REGS, State(m, SPOILING.atc), false, 0x1000, false, true)
            == (Phys(0x6000), State(m[At(0x5FFC) := Modified(m[At(0x5FFC)])], SPOILED))
  {
    hide AtcSearch, Put, Get, TablesIn;
    assert At(0x5FFC) in m by { TablesHold(m); }
    Slots1();
    SearchOf1(m, FLUSHED1, true);
    PutSame(SPOILING.atc, false, false, 1);
    assert PageOf(0x1000) == 1 && PhysAddr(false, 6, 0x1000) == 0x6000;
  }

  lemma SpoiledCheck(m: Memory)
    requires TablesIn(m)
    ensures PtestAndCheck(REGS, State(m, SPOILED), false, 0x1000, false, false) == (Phys(0x6000), State(m, SPOILED))
  {
    hide AtcSearch, Put, Get, TablesIn;
    Slots1();
    SearchOf1(m, FLUSHED1.(M := true), false);
    PutSame(SPOILED, false, false, 1);
    assert PageOf(0x1000) == 1 && PhysAddr(false, 6, 0x1000) == 0x6000;
  }

  lemma CheckOf0(m: Memory, c: Caches, write: bool)
    requires c == SPOILING.atc || c == SPOILED
    ensures PtestAndCheck(REGS, State(m, c), false, 0xffe, false, write) == (Phys(0x5ffe), State(m, c))
  {
    hide AtcSearch, Put, Get;
    Slots1();
    assert PageOf(0xffe) == 0 && PhysAddr(false, 5, 0xffe) == 0x5ffe;
  }

  lemma ZeroHalves()
    ensures SetByte(SetByte(0x1122_3344, 2, 0), 3, 0) == 0x1122_0000
    ensures SetByte(SetByte(0x5566_7788, 0, 0), 1, 0) == 0x7788
  {}

  lemma TopZero()
    ensures TopByte(0, 2) == 0 && TopByte(0, 1) == 0
  {}

  lemma TwoStored(m: Memory, a: bv32, at: Loc)
    requires WordAt(a) == at && WordAt(Succ(a)) == at && at in m
    ensures MappedRun(m, a, 2)
    ensures StoreRun(m, a, 2, 0) == m[at := SetByte(SetByte(m[at], Lane(a), 0), Lane(Succ(a)), 0)]
  {
    hide SetByte, WordAt, Succ, Lane, TopByte;
    TopZero();
    var m1 := StoreByte(m, a, 0);
    assert StoreRun(m1, Succ(a), 1, 0) == StoreByte(m1, Succ(a), 0);
  }

  lemma LowPlaces()
    ensures WordAt(0x5ffe) == At(0x5FFC) && WordAt(Succ(0x5ffe)) == At(0x5FFC)
    ensures Lane(0x5ffe) == 2 && Lane(Succ(0x5ffe)) == 3
  {}

  lemma HighPlaces()
    ensures WordAt(0x6000) == At(0x6000) && WordAt(Succ(0x6000)) == At(0x6000)
    ensures Lane(0x6000) == 0 && Lane(Succ(0x6000)) == 1
  {}

  lemma LowHalf(m: Memory)
    requires At(0x5FFC) in m && m[At(0x5FFC)] == 0x1122_3344
    ensures MappedRun(m, 0x5ffe, 2)
    ensures StoreRun(m, 0x5ffe, 2, 0) == m[At(0x5FFC) := 0x1122_0000]
  {
    hide SetByte, WordAt, Succ, Lane, TopByte, MappedRun, StoreRun;
    LowPlaces();
    TwoStored(m, 0x5ffe, At(0x5FFC));
    ZeroHalves();
  }

  lemma HighHalf(m: Memory)
    requires At(0x6000) in m && m[At(0x6000)] == 0x5566_7788
    ensures MappedRun(m, 0x6000, 2)
    ensures StoreRun(m, 0x6000, 2, 0) == m[At(0x6000) := 0x7788]
  {
    hide SetByte, WordAt, Succ, Lane, TopByte, MappedRun, StoreRun;
    HighPlaces();
    TwoStored(m, 0x6000, At(0x6000));
    ZeroHalves();
  }

  lemma HalfLoaded(m: Memory, a: bv32)
    requires (a == 0x5ffe && At(0x5FFC) in m) || (a == 0x6000 && At(0x6000) in m)
    ensures MappedRun(m, a, 2)
    ensures a == 0x5ffe ==> LoadRun(m, a, 2, 0) == m[At(0x5FFC)] & 0xFFFF
    ensures a == 0x6000 ==> LoadRun(m, a, 2, 0) == m[At(0x6000)] >> 16
  {
    assert Succ(0x5ffe) == 0x5fff && Succ(0x6000) == 0x6001;
    assert WordAt(0x5ffe) == At(0x5FFC) && WordAt(0x5fff) == At(0x5FFC);
    assert WordAt(0x6000) == At(0x6000) && WordAt(0x6001) == At(0x6000);
  }

  /** Zero written over the end of page 0 reads back with a bit set: the write of the second half,
      which a stale slot lets through, has set M in the word just written. */
  lemma LateMarkSpoils()
    ensures WriteL(REGS, SPOILING, false, 0xffe, 0).0.Done?
    ensures ReadL(REGS, WriteL(REGS, SPOILING, false, 0xffe, 0).1, false, 0xffe, false).0 == Data(0x0010_0000)
  {
    var m := WRITABLE.mem;
    var m1 := m[At(0x5FFC) := 0x1122_0000];
    var m2 := m1[At(0x5FFC) := 0x1122_0010];
    var m3 := m2[At(0x6000) := 0x7788];
    hide PtestAndCheck, Put, StoreRun, LoadRun, MappedRun;
    CheckOf0(m, SPOILING.atc, true);
    LowHalf(m);
    SpoilingCheck(m1);
    HighHalf(m2);
    assert 0xffe + 2 == 0x1000 as bv32;
    assert WriteL(REGS, SPOILING, false, 0xffe, 0) == (Done, State(m3, SPOILED));
    CheckOf0(m3, SPOILED, false);
    HalfLoaded(m3, 0x5ffe);
    SpoiledCheck(m3);
    HalfLoaded(m3, 0x6000);
  }

  lemma RootArea(sys: bool, page: bv32)
    ensures RootEntry(REGS, sys, page).bits & 0xFFFF_FE00 == if sys then 0x8000 else 0x1000
  {}

  lemma PointerArea(page: bv32)
    ensures PointerEntry(0x2002, page).bits & 0xFFFF_FE00 == 0x2000
  {}

  lemma PageArea(page: bv32)
    ensures PageEntry(REGS, 0x3002, page).bits & 0xFFFF_FF00 == 0x3000
  {}

  /** Only two words have the type of a resident table. */
  lemma ResidentWords(a: Loc)
    requires a in TABLES && TableResident(TABLES[a])
    ensures a == At(0x1000) || a == At(0x2000)
  {}

  lemma IndirectWords(a: Loc)
    requires a in TABLES && PageIndirect(TABLES[a])
    ensures a == At(0x1000) || a == At(0x2000)
  {}

  /** The tables of this example keep indirect descriptors apart: there are none. */
  lemma ExampleApart()
    ensures IndirectsApart(REGS, TABLES)
  {
    hide TableResident, PageIndirect, PageInvalid, RootEntry, PointerEntry, PageEntry, Marks, WBit, IndirectTarget;
    forall sys: bool, page: bv32, w: Loc ensures !IndirectAt(TrailOf(REGS, TABLES, sys, page), TABLES, w) {
      var t := TrailOf(REGS, TABLES, sys, page);
      if IndirectAt(t, TABLES, w) {
        RootArea(sys, page);
        ResidentWords(t.root);
        PointerArea(page);
        ResidentWords(t.pointer);
        PageArea(page);
        IndirectWords(w);
        assert false;
      }
    }
  }

  // ---- Indirect descriptors that double as table descriptors ----

  /** The word at 0x3000 is the indirect descriptor of page 0 and the pointer descriptor
      of page 0x2000. */
  const DOUBLED: Memory := map[
    At(0x1000) := 0x2002, At(0x1004) := 0x3002, At(0x2000) := 0x3002,
    At(0x3000) := 0x4002, At(0x4000) := 0x5001
  ]

  /** Reading page 0x2000 sets Used in that word and so moves the walk of page 0. */
  lemma DoubledMoves()
    ensures WalkOf(REGS, DOUBLED, false, 0) == Page(At(0x4000), false)
    ensures var st' := Ptest(REGS, State(DOUBLED, Empties()), 0x2000, false, false, false).1;
            WalkOf(REGS, st'.mem, false, 0) == Fault(At(0x4008))
  {
    var e := Get(Empties(), false, false, 0x2000);
    assert RootEntry(REGS, false, 0) == At(0x1000) && RootEntry(REGS, false, 0x2000) == At(0x1004);
    assert PointerEntry(0x2002, 0) == At(0x2000) && PointerEntry(0x300a, 0x2000) == At(0x3000);
    assert PageEntry(REGS, 0x3002, 0) == At(0x3000) && PageEntry(REGS, 0x400a, 0x2000) == At(0x4000);
    var m1 := DOUBLED[At(0x1004) := 0x300a];
    var m2 := m1[At(0x3000) := 0x400a];
    var m3 := m2[At(0x4000) := 0x5009];
    assert AtcSet(m2, e, 0x2000, At(0x4000), false, false, false).mem == m3;
    assert SearchPointer(REGS, m1, e, 0x2000, false, false, 0x300a)
           == AtcSet(m2, e, 0x2000, At(0x4000), false, false, false);
    assert AtcSearch(REGS, DOUBLED, e, 0x2000, false, false)
           == SearchPointer(REGS, m1, e, 0x2000, false, false, 0x300a);
    assert PointerEntry(m3[At(0x1000)], 0) == At(0x2000) && PageEntry(REGS, m3[At(0x2000)], 0) == At(0x3000);
  }

  // ---- A late M that hits an indirect descriptor ----

  /** As MARKED, with a second descriptor of frame 5. */
  const BOTH: Memory := MARKED[At(0x4000) := 0x5001]

  /** Software has made page 0's descriptor an indirect one and has flushed the page. */
  const EDITED: Memory := BOTH[At(0x3000) := 0x4002]

  const FLUSHED: State := State(EDITED, FlushPages(AFTER.atc, 1, [0]))

  lemma RootPages(sys: bool, page: bv32)
    requires RealPage(page) && RootEntry(REGS, sys, page) == At(0x1000)
    ensures !sys && page < 0x2000
  {}

  lemma PointerPages(page: bv32)
    requires page < 0x2000 && PointerEntry(0x200a, page) == At(0x2000)
    ensures page < 0x40
  {}

  lemma EntryPages(page: bv32)
    requires page < 0x40 && PageEntry(REGS, 0x300a, page) == At(0x3000)
    ensures page == 0
  {}

  lemma TypesOf(a: Loc)
    requires a in BOTH && (TableResident(BOTH[a]) || PageIndirect(BOTH[a]))
    ensures a == At(0x1000) || a == At(0x2000)
  {}

  lemma MarkedAreas(sys: bool, page: bv32)
    ensures RootEntry(REGS, sys, page).bits & 0xFFFF_FE00 == if sys then 0x8000 else 0x1000
    ensures PointerEntry(0x200a, page).bits & 0xFFFF_FE00 == 0x2000
    ensures PageEntry(REGS, 0x300a, page).bits & 0xFFFF_FF00 == 0x3000
  {}

  /** Where the walks on these tables go, whatever is in the words of the page level. */
  lemma TrailAreas(m: Memory, sys: bool, page: bv32)
    requires m == BOTH || m == EDITED
    ensures var t := TrailOf(REGS, m, sys, page);
            && t.root == RootEntry(REGS, sys, page)
            && (!t.AtRoot? ==> t.root == At(0x1000) && t.pointer == PointerEntry(0x200a, page))
            && (t.AtPage? ==> t.pointer == At(0x2000) && t.entry == PageEntry(REGS, 0x300a, page))
  {
    hide PageLevel, RootEntry, PointerEntry, PageEntry, PageIndirect;
    var t := TrailOf(REGS, m, sys, page);
    MarkedAreas(sys, page);
    if !t.AtRoot? {
      Residents(m, t.root);
    }
    if t.AtPage? {
      Residents(m, t.pointer);
    }
  }

  lemma Residents(m: Memory, a: Loc)
    requires (m == BOTH || m == EDITED) && a in m && TableResident(m[a])
    ensures a == At(0x1000) || a == At(0x2000) || a == At(0x3000)
    ensures a == At(0x1000) ==> m[a] == 0x200a
    ensures a == At(0x2000) ==> m[a] == 0x300a
  {}

  /** The flush of page 0 is all that this edit asks for. */
  lemma EditComplete()
    ensures ReadersFlushed(REGS, BOTH, At(0x3000), 1, [0])
  {
    hide RootEntry, PointerEntry, PageEntry, TableResident, RealPage, TrailOf;
    forall sys: bool, page: bv32 | RealPage(page) && Reads(TrailOf(REGS, BOTH, sys, page), At(0x3000))
      ensures page in [0] && (sys || FlushesUser(1))
    {
      var t := TrailOf(REGS, BOTH, sys, page);
      TrailAreas(BOTH, sys, page);
      MarkedAreas(sys, page);
      assert t.root != At(0x3000) && (!t.AtRoot? ==> t.pointer != At(0x3000));
      DirectDescriptor(sys, page);
      RootPages(sys, page);
      PointerPages(page);
      EntryPages(page);
    }
  }

  lemma DirectDescriptor(sys: bool, page: bv32)
    ensures var t := TrailOf(REGS, BOTH, sys, page); t.walk.Page? ==> t.AtPage? && t.walk.desc == t.entry
  {
    hide RootEntry, PointerEntry, PageEntry, TableResident, PageInvalid, PageIndirect, IndirectTarget, WBit;
    var t := TrailOf(REGS, BOTH, sys, page);
    if t.walk.Page? {
      TrailAreas(BOTH, sys, page);
      MarkedAreas(sys, page);
      if PageIndirect(BOTH[t.entry]) {
        TypesOf(t.entry);
      }
    }
  }

  lemma EditedIndirect(a: Loc)
    requires a in EDITED && PageIndirect(EDITED[a])
    ensures a == At(0x1000) || a == At(0x2000) || a == At(0x3000)
    ensures a == At(0x3000) ==> IndirectTarget(EDITED[a]) == At(0x4000)
  {}

  /** Tables with an indirect descriptor that keep it apart. */
  lemma EditedApart()
    ensures IndirectsApart(REGS, EDITED)
  {
    hide RootEntry, PointerEntry, PageEntry, TableResident, PageInvalid, PageIndirect, IndirectTarget, WBit, TrailOf,
         Marks;
    forall sys: bool, page: bv32, w: Loc | Marks(TrailOf(REGS, EDITED, sys, page), w)
      ensures !Indirect(REGS, EDITED, w)
    {
      if Indirect(REGS, EDITED, w) {
        EditedOnly(w);
        EditedMarks(sys, page);
      }
    }
  }

  /** The only indirect descriptor is the edited word. */
  lemma EditedOnly(w: Loc)
    requires Indirect(REGS, EDITED, w)
    ensures w == At(0x3000)
  {
    hide RootEntry, PointerEntry, PageEntry, TableResident, PageInvalid, PageIndirect, IndirectTarget, WBit, TrailOf;
    var sys: bool, page: bv32 :| IndirectAt(TrailOf(REGS, EDITED, sys, page), EDITED, w);
    TrailAreas(EDITED, sys, page);
    MarkedAreas(sys, page);
    EditedIndirect(w);
  }

  lemma EditedMarks(sys: bool, page: bv32)
    ensures !Marks(TrailOf(REGS, EDITED, sys, page), At(0x3000))
  {
    hide RootEntry, PointerEntry, PageEntry, TableResident, PageInvalid, PageIndirect, IndirectTarget, WBit;
    var t := TrailOf(REGS, EDITED, sys, page);
    TrailAreas(EDITED, sys, page);
    MarkedAreas(sys, page);
    EditedType();
    if t.walk.Page? && PageIndirect(EDITED[t.entry]) {
      EditedIndirect(t.entry);
    }
  }

  lemma EditedType()
    ensures PageIndirect(EDITED[At(0x3000)])
  {}

  /** Its search for page 0x10 stops at the invalid descriptor and marks nothing. */
  lemma EditedInvalid(e: Slot)
    ensures AtcSearch(REGS, EDITED, e, 0x10, false, true) == Search(true, EDITED, e)
    ensures WalkOf(REGS, EDITED, false, 0x10) == NoPage
  {
    assert RootEntry(REGS, false, 0x10) == At(0x1000);
    assert PointerEntry(0x200a, 0x10) == At(0x2000);
    assert PageEntry(REGS, 0x300a, 0x10) == At(0x3040);
    assert EDITED[At(0x1000) := 0x200a] == EDITED && EDITED[At(0x2000) := 0x300a] == EDITED;
    assert AtcSet(EDITED, e, 0x10, At(0x3040), true, false, false) == Search(true, EDITED, e);
    assert SearchPointer(REGS, EDITED, e, 0x10, false, true, 0x200a)
           == AtcSet(EDITED, e, 0x10, At(0x3040), true, false, false);
  }

  lemma EditedWalk()
    ensures TrailOf(REGS, EDITED, false, 0) == AtPage(At(0x1000), At(0x2000), At(0x3000), Page(At(0x4000), false))
    ensures WalkOf(REGS, EDITED[At(0x3000) := 0x4012], false, 0) == Fault(At(0x4010))
  {
    assert RootEntry(REGS, false, 0) == At(0x1000);
    assert PointerEntry(0x200a, 0) == At(0x2000);
    assert PageEntry(REGS, 0x300a, 0) == At(0x3000);
  }

  lemma FlushedSlot0()
    ensures Get(FLUSHED.atc, false, false, 0x10) == SLOT0.(V := false)
    ensures Shaped(FLUSHED.atc)
  {
    assert Index(0) == 0 && Index(0x10) == 0;
    assert FlushPages(AFTER.atc, 1, [0]) == FlushCaches(OnePage(0), 1, AFTER.atc);
    assert Get(AFTER.atc, false, false, 0) == SLOT0;
  }

  /**
   The edit is flushed and the new tables keep indirect descriptors apart, and still a write to
   page 0x10, whose descriptor is invalid, sets M in the word that page 0's entry remembers, now
   an indirect descriptor, and so moves the walk of page 0.
   */
  lemma LateMoves()
    ensures LateHits(REGS, FLUSHED, 0x10, false, false, true)
    ensures WalkOf(REGS, FLUSHED.mem, false, 0) == Page(At(0x4000), false)
    ensures var st' := Ptest(REGS, FLUSHED, 0x10, false, false, true).1;
            WalkOf(REGS, st'.mem, false, 0) == Fault(At(0x4010))
  {
    hide AtcSearch, TrailOf, Put, FlushPages;
    var e := SLOT0.(V := false);
    FlushedSlot0();
    EditedInvalid(e);
    EditedWalk();
    EditedType();
    assert IndirectAt(TrailOf(REGS, EDITED, false, 0), EDITED, At(0x3000));
    PutSame(FLUSHED.atc, false, false, 0x10);
    assert Modified(EDITED[At(0x3000)]) == 0x4012;
  }

  lemma Slot0Live()
    ensures LiveOk(REGS, BOTH, false, 0, SLOT0)
  {
    assert RootEntry(REGS, false, 0) == At(0x1000);
    assert PointerEntry(0x200a, 0) == At(0x2000);
    assert PageEntry(REGS, 0x300a, 0) == At(0x3000);
    assert WalkOf(REGS, BOTH, false, 0) == Page(At(0x3000), false);
  }

  lemma OnlySlot0(code: bool, sys: bool, j: nat)
    requires j < 16 && Bank(AFTER.atc, code, sys)[j].V
    ensures Bank(AFTER.atc, code, sys)[j] == SLOT0 && !sys && j == 0
  {
    assert Index(0) == 0;
  }

  /** The state before that write is one the invariant of runs allows. */
  lemma FlushedLive()
    ensures RunInv(REGS, FLUSHED)
  {
    hide LiveOk, LiveBank, TaggedBank, FlushPages, ReadersFlushed, IndirectsApart, Put;
    forall code: bool, sys: bool, j: nat | j < 16 ensures LiveOk(REGS, BOTH, sys, j, Bank(AFTER.atc, code, sys)[j]) {
      if Bank(AFTER.atc, code, sys)[j].V {
        OnlySlot0(code, sys, j);
        Slot0Live();
      } else {
        NotValidLive(BOTH, sys, j, Bank(AFTER.atc, code, sys)[j]);
      }
    }
    LiveByBanks(REGS, BOTH, AFTER.atc);
    AfterTagged();
    EditComplete();
    EditLive(REGS, BOTH, AFTER.atc, At(0x3000), 0x4002, 1, [0]);
    FlushPagesTagged(AFTER.atc, 1, [0]);
    EditedApart();
  }

  lemma NotValidLive(m: Memory, sys: bool, j: nat, e: Slot)
    requires !e.V
    ensures LiveOk(REGS, m, sys, j, e)
  {}

  lemma AfterTagged()
    ensures Tagged(AFTER.atc)
  {
    assert Index(0) == 0;
  }

  /** Frame 1 with 8K pages: bit 12 of the result is set although it is clear in the address. */
  lemma OddLargeFrame()
    ensures PhysAddr(true, 1, 0x20) == 0x1020
  {}

  /** A write that a stale slot lets through: no descriptor says Modified. */
  lemma StaleWrite()
    ensures var st' := Ptest(REGS, FLUSHED, 0x10, false, false, true);
            Permits(st'.0, false, true) && !WalkOf(REGS, EDITED, false, 0x10).Page?
  {
    hide AtcSearch, TrailOf, Put, FlushPages;
    FlushedSlot0();
    EditedInvalid(SLOT0.(V := false));
    PutSame(FLUSHED.atc, false, false, 0x10);
  }
}
