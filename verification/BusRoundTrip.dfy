/**
 WriteL followed by ReadL: the value comes back, also when the bytes lie in two pages
 with unrelated frames.
 */
module BusRoundTrip {
  import opened Addresses
  import opened MmuTables
  import opened Atc
  import opened AtcInvariant
  import opened AtcTheorems
  import opened AtcData
  import opened AtcMarks
  import opened AtcWrites
  import opened BusAccess
  import opened BusTheorems
  import opened BusWrites

  // ---- Pages that translations leave alone ----

  /** A slot that answers every access, reads and writes, without a change. */
  predicate SlotAnswers(e: Slot, sys: bool) {
    e.R && e.M && !e.W && !(e.S && !sys)
  }

  /** A walk that stops at an invalid page descriptor, behind tables that bear their U bits. */
  predicate StopsMarked(r: Registers, m: Memory, sys: bool, page: bv32) {
    WalkOf(r, m, sys, page) == NoPage && LevelsUsed(TrailOf(r, m, sys, page), m)
  }

  /** Is every access to the page answered without a change, be it from a stale slot? */
  predicate Served(r: Registers, st: State, sys: bool, page: bv32)
    requires Shaped(st.atc)
  {
    var t := PtestTtr(r, page, sys, false);
    var e := Get(st.atc, false, sys, page);
    if t.R then !t.W && !t.B && !t.S
    else !r.tcrE || (SlotAnswers(e, sys) && (Hit(e, page) || StopsMarked(r, st.mem, sys, page)))
  }

  function FrameOf(r: Registers, c: Caches, sys: bool, page: bv32): bv32
    requires Shaped(c)
  {
    if PtestTtr(r, page, sys, false).R then PtestTtr(r, page, sys, false).paddr
    else if !r.tcrE then page
    else Get(c, false, sys, page).paddr
  }

  function PhysOf(r: Registers, c: Caches, sys: bool, addr: bv32): bv32
    requires Shaped(c)
  {
    PhysAddr(r.tcrP, FrameOf(r, c, sys, PageOf(addr)), addr)
  }

  lemma TablesPure(r: Registers, st: State, sys: bool, page: bv32, write: bool)
    requires Shaped(st.atc)
    requires var e := Get(st.atc, false, sys, page);
             SlotAnswers(e, sys) && (Hit(e, page) || StopsMarked(r, st.mem, sys, page))
    ensures PtestTables(r, st, page, sys, false, write) == (SlotResult(Get(st.atc, false, sys, page)), st)
  {
    hide AtcSearch, TrailOf, Get, Put, LevelsUsed;
    var e := Get(st.atc, false, sys, page);
    if !Hit(e, page) {
      ShortAgain(r, st.mem, e, page, sys, write);
      PutSame(st.atc, false, sys, page);
    }
  }

  lemma ServedPure(r: Registers, st: State, sys: bool, addr: bv32, write: bool)
    requires Shaped(st.atc) && Served(r, st, sys, PageOf(addr))
    ensures PtestAndCheck(r, st, sys, addr, false, write) == (Phys(PhysOf(r, st.atc, sys, addr)), st)
  {
    hide PtestTtr, Index, PhysAddr, PageOf, Get, PtestTables, StopsMarked;
    if ByTables(r, PageOf(addr), sys, false) {
      TablesPure(r, st, sys, PageOf(addr), write);
    }
  }

  /** A write that went through leaves its page served. */
  lemma WriteServes(r: Registers, st: State, sys: bool, addr: bv32)
    requires Inv(r, st) && PtestAndCheck(r, st, sys, addr, false, true).0.Phys?
    ensures var (c, st1) := PtestAndCheck(r, st, sys, addr, false, true);
            Served(r, st1, sys, PageOf(addr)) && c.a == PhysOf(r, st1.atc, sys, addr)
  {
    hide TestTtr, Index, PhysAddr, PageOf, Get, Put, BankOk, IndirectsApart, TrailOf, AtcSearch, Finish, StopsMarked,
         Hit;
    var page := PageOf(addr);
    if !ByTables(r, page, sys, false) {
      TtrPlain(page, r, sys);
    } else if Hit(Get(st.atc, false, sys, page), page) || WalkOf(r, st.mem, sys, page) != NoPage {
      TablesServe(r, st, sys, page);
    } else {
      StaleServes(r, st, sys, page);
    }
  }

  lemma TtrPlain(page: bv32, r: Registers, sys: bool)
    ensures !PtestTtr(r, page, sys, false).B && !PtestTtr(r, page, sys, false).S
  {}

  lemma TablesServe(r: Registers, st: State, sys: bool, page: bv32)
    requires Inv(r, st) && ByTables(r, page, sys, false)
    requires Hit(Get(st.atc, false, sys, page), page) || WalkOf(r, st.mem, sys, page) != NoPage
    requires Permits(Ptest(r, st, page, sys, false, true).0, sys, true)
    ensures var (res, st1) := Ptest(r, st, page, sys, false, true);
            var e := Get(st1.atc, false, sys, page);
            SlotAnswers(e, sys) && Hit(e, page) && res == SlotResult(e)
  {
    hide PtestTtr, Index, Get, Put, BankOk, IndirectsApart, TrailOf, AtcSearch, Finish, Kept, SlotOk;
    var e := Get(st.atc, false, sys, page);
    if Hit(e, page) {
      FinishModified(r, st.mem, st.atc, false, sys, page);
      FinishOk(r, st.mem, st.atc, false, sys, page, true);
    } else {
      SearchedCachesOk(r, st, page, sys, false, true);
      var s := AtcSearch(r, st.mem, e, page, sys, true);
      if s.ok {
        var c := Put(st.atc, false, sys, page, s.slot);
        PutGet(st.atc, false, sys, page, s.slot);
        FillHits(r, st.mem, e, page, sys, s);
        FinishModified(r, s.mem, c, false, sys, page);
        FinishOk(r, s.mem, c, false, sys, page, true);
      }
    }
  }

  /** So does one that a stale slot let through. */
  lemma StaleServes(r: Registers, st: State, sys: bool, page: bv32)
    requires Inv(r, st) && ByTables(r, page, sys, false)
    requires !Hit(Get(st.atc, false, sys, page), page) && WalkOf(r, st.mem, sys, page) == NoPage
    requires Permits(Ptest(r, st, page, sys, false, true).0, sys, true)
    ensures var (res, st1) := Ptest(r, st, page, sys, false, true);
            var e := Get(st1.atc, false, sys, page);
            SlotAnswers(e, sys) && StopsMarked(r, st1.mem, sys, page) && res == SlotResult(e)
  {
    hide PtestTtr, Index, Get, Put, BankOk, IndirectsApart, TrailOf, AtcSearch, Finish, Kept, SlotOk, OnlyMarks,
         LevelsUsed;
    var e := Get(st.atc, false, sys, page);
    var s := AtcSearch(r, st.mem, e, page, sys, true);
    var st1 := Ptest(r, st, page, sys, false, true).1;
    AtcSearchWalk(r, st.mem, e, page, sys, true);
    PutSame(st.atc, false, sys, page);
    StaleModified(s.mem, st.atc, sys, page);
    ShortMarks(r, st.mem, e, page, sys, true);
    FinishMarks(s.mem, st.atc, false, sys, page, true);
    StillUsed(TrailOf(r, st.mem, sys, page), s.mem, st1.mem);
    PtestInv(r, st, page, sys, false, true);
    WalkStable(r, st.mem, st1.mem, sys, page);
  }

  lemma StaleModified(m: Memory, c: Caches, sys: bool, page: bv32)
    requires Shaped(c) && Permits(Finish(m, c, false, sys, page, true).0, sys, true)
    ensures var (res, st1) := Finish(m, c, false, sys, page, true);
            var e := Get(st1.atc, false, sys, page);
            SlotAnswers(e, sys) && res == SlotResult(e)
  {
    hide Get, Put, Modified;
    PutGet(c, false, sys, page, Get(c, false, sys, page).(M := true));
  }

  lemma PutOther(c: Caches, code: bool, sys: bool, page: bv32, e: Slot, page': bv32)
    requires Shaped(c) && Index(page) != Index(page')
    ensures Get(Put(c, code, sys, page, e), code, sys, page') == Get(c, code, sys, page')
  {
    hide Index;
  }

  /** A page is served as long as its slot and the marks of its tables stay. */
  lemma ServedKept(r: Registers, st: State, st': State, sys: bool, page: bv32)
    requires Shaped(st.atc) && Shaped(st'.atc) && Kept(r, st.mem, st'.mem) && Served(r, st, sys, page)
    requires Get(st'.atc, false, sys, page) == Get(st.atc, false, sys, page)
    requires var t := TrailOf(r, st.mem, sys, page); LevelsUsed(t, st.mem) ==> LevelsUsed(t, st'.mem)
    ensures Served(r, st', sys, page) && FrameOf(r, st'.atc, sys, page) == FrameOf(r, st.atc, sys, page)
  {
    hide PtestTtr, Get, TrailOf, LevelsUsed, Kept, SlotAnswers, Hit;
    WalkStable(r, st.mem, st'.mem, sys, page);
  }

  lemma OtherSlot(r: Registers, st: State, sys: bool, page: bv32, other: bv32)
    requires Shaped(st.atc) && Index(page) != Index(other)
    ensures Get(Ptest(r, st, other, sys, false, true).1.atc, false, sys, page) == Get(st.atc, false, sys, page)
  {
    hide PtestTtr, Index, Get, Put, AtcSearch;
    var e := Get(st.atc, false, sys, other);
    var s := AtcSearch(r, st.mem, e, other, sys, true);
    var c := Put(st.atc, false, sys, other, s.slot);
    PutOther(st.atc, false, sys, other, s.slot, page);
    PutOther(c, false, sys, other, Get(c, false, sys, other).(M := true), page);
    PutOther(st.atc, false, sys, other, e.(M := true), page);
  }

  /** Translating a page with another slot leaves a served page served. */
  lemma OtherPageServed(r: Registers, st: State, sys: bool, page: bv32, other: bv32)
    requires Inv(r, st) && Index(page) != Index(other) && Served(r, st, sys, page)
    ensures var st1 := Ptest(r, st, other, sys, false, true).1;
            Served(r, st1, sys, page) && FrameOf(r, st1.atc, sys, page) == FrameOf(r, st.atc, sys, page)
  {
    hide Ptest, BankOk, IndirectsApart, TrailOf, LevelsUsed, Index, Get, OnlyMarks, Served, FrameOf, Kept;
    var st1 := Ptest(r, st, other, sys, false, true).1;
    var t := TrailOf(r, st.mem, sys, page);
    OtherSlot(r, st, sys, page, other);
    PtestInv(r, st, other, sys, false, true);
    PtestMarks(r, st, other, sys, false, true);
    if LevelsUsed(t, st.mem) {
      StillUsed(t, st.mem, st1.mem);
    }
    ServedKept(r, st, st1, sys, page);
  }

  /** So does a store to a data word. */
  lemma StoreServed(r: Registers, st: State, sys: bool, page: bv32, a: bv32, b: bv32)
    requires Inv(r, st) && Served(r, st, sys, page) && Mapped(st.mem, a) && !TableWord(r, st.mem, WordAt(a))
    ensures Served(r, State(StoreByte(st.mem, a, b), st.atc), sys, page)
  {
    hide BankOk, IndirectsApart, TrailOf, LevelsUsed, Get, Served, FrameOf, Kept, StoreByte, TableWord, Mapped, WordAt,
         SameTrailWords;
    var m' := StoreByte(st.mem, a, b);
    StoreByteInv(r, st, a, b);
    SameReflexive(r, st.mem, sys, page);
    StoreTrailWords(r, st.mem, st.mem, sys, page, a, b);
    if LevelsUsed(TrailOf(r, st.mem, sys, page), st.mem) {
      UsedThere(r, st.mem, m', sys, page);
    }
    ServedKept(r, st, State(m', st.atc), sys, page);
  }

  lemma SameReflexive(r: Registers, m: Memory, sys: bool, page: bv32)
    ensures SameTrailWords(r, m, m, sys, page)
  {
    hide TrailOf;
  }

  // ---- Bytes in place ----

  lemma SetGetSame(word: bv32, lane: bv32, b: bv32)
    ensures GetByte(SetByte(word, lane, b), lane) == b & 0xff
  {}

  lemma SetLane0(word: bv32, b: bv32)
    ensures GetByte(SetByte(word, 0, b), 1) == GetByte(word, 1)
    ensures GetByte(SetByte(word, 0, b), 2) == GetByte(word, 2)
    ensures GetByte(SetByte(word, 0, b), 3) == GetByte(word, 3)
  {}

  lemma SetLane1(word: bv32, b: bv32)
    ensures GetByte(SetByte(word, 1, b), 0) == GetByte(word, 0)
    ensures GetByte(SetByte(word, 1, b), 2) == GetByte(word, 2)
    ensures GetByte(SetByte(word, 1, b), 3) == GetByte(word, 3)
  {}

  lemma SetLane2First(word: bv32, b: bv32)
    ensures GetByte(SetByte(word, 2, b), 0) == GetByte(word, 0)
  {}

  lemma SetLane2Second(word: bv32, b: bv32)
    ensures GetByte(SetByte(word, 2, b), 1) == GetByte(word, 1)
  {}

  lemma SetLane2Last(word: bv32, b: bv32)
    ensures GetByte(SetByte(word, 2, b), 3) == GetByte(word, 3)
  {}

  lemma SetLane3(word: bv32, b: bv32)
    ensures GetByte(SetByte(word, 3, b), 0) == GetByte(word, 0)
    ensures GetByte(SetByte(word, 3, b), 1) == GetByte(word, 1)
    ensures GetByte(SetByte(word, 3, b), 2) == GetByte(word, 2)
  {}

  lemma LaneRange(a: bv32)
    ensures Lane(a) == 0 || Lane(a) == 1 || Lane(a) == 2 || Lane(a) == 3
  {}

  lemma SetGetOther(word: bv32, a: bv32, b: bv32, a': bv32)
    requires Lane(a) != Lane(a')
    ensures GetByte(SetByte(word, Lane(a), b), Lane(a')) == GetByte(word, Lane(a'))
  {
    LaneRange(a);
    LaneRange(a');
    SetLane0(word, b);
    SetLane1(word, b);
    SetLane2First(word, b);
    SetLane2Second(word, b);
    SetLane2Last(word, b);
    SetLane3(word, b);
    hide GetByte, SetByte, Lane;
  }

  lemma LanesDiffer(a: bv32, a': bv32)
    requires WordAt(a) == WordAt(a') && a != a'
    ensures Lane(a) != Lane(a')
  {}

  lemma StoreSame(m: Memory, a: bv32, b: bv32)
    requires Mapped(m, a)
    ensures Mapped(StoreByte(m, a, b), a) && MemByte(StoreByte(m, a, b), a) == b & 0xff
  {
    hide GetByte, SetByte, Lane, WordAt;
    SetGetSame(m[WordAt(a)], Lane(a), b);
  }

  lemma StoreOther(m: Memory, a: bv32, b: bv32, a': bv32)
    requires Mapped(m, a) && Mapped(m, a') && a != a'
    ensures Mapped(StoreByte(m, a, b), a') && MemByte(StoreByte(m, a, b), a') == MemByte(m, a')
  {
    hide GetByte, SetByte, Lane, WordAt;
    if WordAt(a) == WordAt(a') {
      LanesDiffer(a, a');
      SetGetOther(m[WordAt(a)], a, b, a');
    }
  }

  /** The byte at a logical address is b, outside the tables, in a page that is served. */
  ghost predicate OwnedByte(r: Registers, st: State, sys: bool, addr: bv32, b: bv32)
    requires Shaped(st.atc)
  {
    && Served(r, st, sys, PageOf(addr))
    && var a := PhysOf(r, st.atc, sys, addr);
       Mapped(st.mem, a) && MemByte(st.mem, a) == b && !TableWord(r, st.mem, WordAt(a))
  }

  /** The walk for an address does not stop at an invalid page descriptor. */
  predicate Present(r: Registers, m: Memory, sys: bool, addr: bv32) {
    ByTables(r, PageOf(addr), sys, false) ==> WalkOf(r, m, sys, PageOf(addr)) != NoPage
  }

  lemma PresentKept(r: Registers, m: Memory, m': Memory, sys: bool, addr: bv32)
    requires Kept(r, m, m')
    ensures Present(r, m', sys, addr) == Present(r, m, sys, addr)
  {
    hide TrailOf, Kept, PageOf, PtestTtr;
    WalkStable(r, m, m', sys, PageOf(addr));
  }

  lemma WriteOwns(r: Registers, st: State, sys: bool, addr: bv32, n: nat, v: bv32)
    requires Inv(r, st) && n > 0 && WriteApart(r, st, sys, addr, n, v)
    requires WriteB(r, st, sys, addr, TopByte(v, n)).0.Done?
    ensures OwnedByte(r, WriteB(r, st, sys, addr, TopByte(v, n)).1, sys, addr, TopByte(v, n) & 0xff)
  {
    hide Ptest, PtestAndCheck, StoreByte, Mapped, Succ, PageOf, BankOk, IndirectsApart, TopByte, TableWord, MemByte,
         Served, PhysOf, Kept;
    var (c, st1) := PtestAndCheck(r, st, sys, addr, false, true);
    WriteServes(r, st, sys, addr);
    CheckInv(r, st, sys, addr);
    StoreOne(st1.mem, c.a, TopByte(v, n));
    StoreSame(st1.mem, c.a, TopByte(v, n));
    StoreServed(r, st1, sys, PageOf(addr), c.a, TopByte(v, n));
    StoreByteInv(r, st1, c.a, TopByte(v, n));
    TableWordKept(r, st1.mem, StoreByte(st1.mem, c.a, TopByte(v, n)), WordAt(c.a));
  }

  lemma CheckInv(r: Registers, st: State, sys: bool, addr: bv32)
    requires Inv(r, st)
    ensures var st1 := PtestAndCheck(r, st, sys, addr, false, true).1; Inv(r, st1) && Kept(r, st.mem, st1.mem)
  {
    hide Ptest, BankOk, IndirectsApart, Kept, PageOf;
    PtestInv(r, st, PageOf(addr), sys, false, true);
  }

  predicate LowDiffer(addr: bv32, other: bv32) {
    addr & 0xfff != other & 0xfff
  }

  lemma SmallPhysDiffer(f: bv32, addr: bv32, g: bv32, other: bv32)
    requires LowDiffer(addr, other)
    ensures SmallPhys(f, addr) != SmallPhys(g, other)
  {
    assert SmallPhys(f, addr) & 0xfff == addr & 0xfff;
    assert SmallPhys(g, other) & 0xfff == other & 0xfff;
  }

  lemma LargePhysDiffer(f: bv32, addr: bv32, g: bv32, other: bv32)
    requires LowDiffer(addr, other)
    ensures LargePhys(f, addr) != LargePhys(g, other)
  {
    assert LargePhys(f, addr) & 0xfff == addr & 0xfff;
    assert LargePhys(g, other) & 0xfff == other & 0xfff;
  }

  /** Same page, or pages with different slots; and different offsets in the page. */
  predicate Neighbours(addr: bv32, other: bv32) {
    LowDiffer(addr, other) && (PageOf(addr) == PageOf(other) || Index(PageOf(addr)) != Index(PageOf(other)))
  }

  lemma PhysDiffers(r: Registers, c: Caches, c': Caches, sys: bool, addr: bv32, other: bv32)
    requires Shaped(c) && Shaped(c') && LowDiffer(addr, other)
    ensures PhysOf(r, c, sys, addr) != PhysOf(r, c', sys, other)
  {
    hide SmallPhys, LargePhys, FrameOf, PageOf, LowDiffer;
    SmallPhysDiffer(FrameOf(r, c, sys, PageOf(addr)), addr, FrameOf(r, c', sys, PageOf(other)), other);
    LargePhysDiffer(FrameOf(r, c, sys, PageOf(addr)), addr, FrameOf(r, c', sys, PageOf(other)), other);
  }

  /** The low byte of word w, in which M is. */
  predicate HoldsM(w: Loc, a: bv32) { WordAt(a) == w && Lane(a) == 3 }

  /** Will a write to other set M in the very byte at addr, which a stale slot remembers as a descriptor's? */
  ghost predicate LateOn(r: Registers, st: State, sys: bool, addr: bv32, other: bv32)
    requires Shaped(st.atc)
  {
    var a := PhysOf(r, st.atc, sys, addr);
    RemembersData(r, st, PageOf(other), sys, false, true)
    && HoldsM(Get(st.atc, false, sys, PageOf(other)).pgAddr, a)
  }

  /** The byte of a descriptor in which M is, with M. */
  function ByteWithM(b: bv32): bv32 { b | 0x10 }

  predicate MarkMissing(b: bv32) { b & 0x10 == 0 }

  lemma MarkedAlready(b: bv32)
    ensures ByteWithM(b) == b <==> !MarkMissing(b)
    ensures !MarkMissing(ByteWithM(b))
  {}

  lemma ModifiedByte(v: bv32, lane: bv32)
    requires lane < 4
    ensures GetByte(Modified(v), lane) == if lane == 3 then ByteWithM(GetByte(v, lane)) else GetByte(v, lane)
  {}

  /** What a translation makes of a byte in place. */
  lemma TranslationOnByte(r: Registers, st: State, sys: bool, addr: bv32, b: bv32, other: bv32)
    requires Inv(r, st) && OwnedByte(r, st, sys, addr, b) && Neighbours(addr, other)
    ensures var st1 := PtestAndCheck(r, st, sys, other, false, true).1;
            Inv(r, st1) &&
            OwnedByte(r, st1, sys, addr, if LateOn(r, st, sys, addr, other) then ByteWithM(b) else b)
  {
    hide PtestTtr, PhysAddr, PageOf, BankOk, IndirectsApart, TrailOf, TableWord, Served, Kept, Index, FrameOf, Ptest,
         LowDiffer, GetByte, WordAt, Lane, ByteWithM, RemembersData, Modified, Check;
    CheckInv(r, st, sys, other);
    var st1 := PtestAndCheck(r, st, sys, other, false, true).1;
    var a := PhysOf(r, st.atc, sys, addr);
    if PageOf(addr) == PageOf(other) {
      ServedPure(r, st, sys, other, true);
      ServedForgets(r, st, sys, PageOf(other));
    } else {
      OtherPageServed(r, st, sys, PageOf(addr), PageOf(other));
      DataAfter(r, st, PageOf(other), sys, false, true, WordAt(a));
      LaneRange(a);
      ModifiedByte(st.mem[WordAt(a)], Lane(a));
      TableWordKept(r, st.mem, st1.mem, WordAt(a));
    }
  }

  lemma ServedForgets(r: Registers, st: State, sys: bool, page: bv32)
    requires Shaped(st.atc) && Served(r, st, sys, page)
    ensures !RemembersData(r, st, page, sys, false, true)
  {
    hide PtestTtr, Get, TrailOf, TableWord, StopsMarked;
  }

  lemma TranslationKeepsWord(r: Registers, st: State, sys: bool, other: bv32, write: bool, w: Loc)
    requires Inv(r, st) && !RemembersData(r, st, PageOf(other), sys, false, write)
    requires w in st.mem && !TableWord(r, st.mem, w)
    ensures var st1 := PtestAndCheck(r, st, sys, other, false, write).1; w in st1.mem && st1.mem[w] == st.mem[w]
  {
    hide Ptest, PtestTtr, PageOf, BankOk, IndirectsApart, TrailOf, TableWord, RemembersData, Check;
    DataKeptIff(r, st, PageOf(other), sys, false, write);
  }

  lemma PresentForgets(r: Registers, st: State, sys: bool, addr: bv32, write: bool)
    requires Shaped(st.atc) && Present(r, st.mem, sys, addr)
    ensures !RemembersData(r, st, PageOf(addr), sys, false, write)
  {
    hide TrailOf, PtestTtr, PageOf, Get, TableWord;
  }

  /** A byte in place when a neighbouring byte is written: only a late M can reach it. */
  lemma ByteStays(r: Registers, st: State, sys: bool, addr: bv32, b: bv32, other: bv32, n: nat, v: bv32)
    requires Inv(r, st) && OwnedByte(r, st, sys, addr, b) && Neighbours(addr, other)
    requires n > 0 && WriteApart(r, st, sys, other, n, v) && WriteB(r, st, sys, other, TopByte(v, n)).0.Done?
    ensures OwnedByte(r, WriteB(r, st, sys, other, TopByte(v, n)).1, sys, addr,
                      if LateOn(r, st, sys, addr, other) then ByteWithM(b) else b)
  {
    hide Ptest, PtestAndCheck, StoreByte, Mapped, Succ, PageOf, BankOk, IndirectsApart, TopByte, TableWord, MemByte,
         Served, PhysOf, Kept, LowDiffer, Index, LateOn, ByteWithM;
    TranslationOnByte(r, st, sys, addr, b, other);
    var (c, st1) := PtestAndCheck(r, st, sys, other, false, true);
    WriteServes(r, st, sys, other);
    StoreOne(st1.mem, c.a, TopByte(v, n));
    PhysDiffers(r, st1.atc, st1.atc, sys, addr, other);
    StoreOther(st1.mem, c.a, TopByte(v, n), PhysOf(r, st1.atc, sys, addr));
    StoreServed(r, st1, sys, PageOf(addr), c.a, TopByte(v, n));
    StoreByteInv(r, st1, c.a, TopByte(v, n));
    TableWordKept(r, st1.mem, StoreByte(st1.mem, c.a, TopByte(v, n)), WordAt(PhysOf(r, st1.atc, sys, addr)));
  }

  /** Reading a byte in place. */
  lemma ReadOwned(r: Registers, st: State, sys: bool, addr: bv32, b: bv32, lock: bool)
    requires Shaped(st.atc) && OwnedByte(r, st, sys, addr, b)
    ensures ReadB(r, st, sys, addr, lock) == (Data(b), st)
  {
    hide PtestAndCheck, PageOf, TableWord, Served, PhysOf, Mapped, MemByte;
    ServedPure(r, st, sys, addr, lock);
    OneByte(st.mem, PhysOf(r, st.atc, sys, addr));
  }

  // ---- Runs of bytes ----

  ghost predicate OwnedRun(r: Registers, st: State, sys: bool, addr: bv32, bytes: seq<bv32>)
    requires Shaped(st.atc)
    decreases |bytes|
  {
    bytes != [] ==> OwnedByte(r, st, sys, addr, bytes[0]) && OwnedRun(r, st, sys, Succ(addr), bytes[1..])
  }

  predicate NeighbourRun(a: bv32, addr: bv32, n: nat)
    decreases n
  {
    n > 0 ==> Neighbours(a, addr) && NeighbourRun(a, Succ(addr), n - 1)
  }

  predicate RunApart(addr: bv32, n: nat)
    decreases n
  {
    n > 0 ==> NeighbourRun(addr, Succ(addr), n - 1) && RunApart(Succ(addr), n - 1)
  }

  /** Does a late M change the byte b at a while the n bytes from addr on are written? */
  ghost predicate Spoiled(r: Registers, st: State, sys: bool, a: bv32, b: bv32, addr: bv32, n: nat, v: bv32)
    requires Shaped(st.atc)
    decreases n
  {
    n > 0 &&
    ((LateOn(r, st, sys, a, addr) && MarkMissing(b))
     || Spoiled(r, WriteB(r, st, sys, addr, TopByte(v, n)).1, sys, a, b, Succ(addr), n - 1, v))
  }

  lemma {:induction false} NeverSpoiled(r: Registers, st: State, sys: bool, a: bv32, b: bv32, addr: bv32, n: nat,
                                        v: bv32)
    requires Shaped(st.atc) && !MarkMissing(b)
    ensures !Spoiled(r, st, sys, a, b, addr, n, v)
    decreases n
  {
    hide WriteB, LateOn, MarkMissing, Succ, TopByte;
    if n > 0 {
      NeverSpoiled(r, WriteB(r, st, sys, addr, TopByte(v, n)).1, sys, a, b, Succ(addr), n - 1, v);
    }
  }

  /** What is left of a byte in place when a run of its neighbours has been written. */
  ghost function Left(r: Registers, st: State, sys: bool, a: bv32, b: bv32, addr: bv32, n: nat, v: bv32): bv32
    requires Shaped(st.atc)
  {
    if Spoiled(r, st, sys, a, b, addr, n, v) then ByteWithM(b) else b
  }

  lemma {:induction false} ByteStaysRun(r: Registers, st: State, sys: bool, a: bv32, b: bv32, addr: bv32, n: nat,
                                        v: bv32, first: bool)
    requires Inv(r, st) && WholePages(st.mem) && WriteApart(r, st, sys, addr, n, v)
    requires OwnedByte(r, st, sys, a, b) && NeighbourRun(a, addr, n)
    requires WriteBytes(r, st, sys, addr, n, v, first).0.Done?
    ensures OwnedByte(r, WriteBytes(r, st, sys, addr, n, v, first).1, sys, a, Left(r, st, sys, a, b, addr, n, v))
    decreases n
  {
    hide WriteB, WriteApart, OwnedByte, BankOk, IndirectsApart, WholePages, Succ, TopByte, Neighbours, Misaligned,
         Kept, LateOn, ByteWithM, MarkMissing;
    if n > 0 {
      var st' := WriteB(r, st, sys, addr, TopByte(v, n)).1;
      var b' := if LateOn(r, st, sys, a, addr) then ByteWithM(b) else b;
      MarkedAlready(b);
      WriteBInv(r, st, sys, addr, n, v);
      ByteStays(r, st, sys, a, b, addr, n, v);
      ByteStaysRun(r, st', sys, a, b', Succ(addr), n - 1, v, false);
      if !MarkMissing(b') {
        NeverSpoiled(r, st', sys, a, b', Succ(addr), n - 1, v);
      }
    }
  }

  /** What is left of every byte of a run. */
  ghost function LeftRun(r: Registers, st: State, sys: bool, addr: bv32, n: nat, v: bv32): (bytes: seq<bv32>)
    requires Shaped(st.atc)
    ensures |bytes| == n
    decreases n
  {
    if n == 0 then []
    else
      var st' := WriteB(r, st, sys, addr, TopByte(v, n)).1;
      [Left(r, st', sys, addr, TopByte(v, n) & 0xff, Succ(addr), n - 1, v)] + LeftRun(r, st', sys, Succ(addr), n - 1, v)
  }

  /** No byte just written is changed by a late M. */
  ghost predicate Unspoiled(r: Registers, st: State, sys: bool, addr: bv32, n: nat, v: bv32)
    requires Shaped(st.atc)
    decreases n
  {
    n > 0 ==>
      var st' := WriteB(r, st, sys, addr, TopByte(v, n)).1;
      && !Spoiled(r, st', sys, addr, TopByte(v, n) & 0xff, Succ(addr), n - 1, v)
      && Unspoiled(r, st', sys, Succ(addr), n - 1, v)
  }

  function Bytes(v: bv32, n: nat): (bytes: seq<bv32>)
    ensures |bytes| == n
    decreases n
  {
    if n == 0 then [] else [TopByte(v, n) & 0xff] + Bytes(v, n - 1)
  }

  predicate SmallByte(b: bv32) { b <= 0xff }

  lemma MarkedSmall(b: bv32)
    ensures SmallByte(b & 0xff) && SmallByte(ByteWithM(b & 0xff))
  {}

  lemma LeftIff(r: Registers, st: State, sys: bool, a: bv32, b: bv32, addr: bv32, n: nat, v: bv32)
    requires Shaped(st.atc)
    ensures Left(r, st, sys, a, b, addr, n, v) == b <==> !Spoiled(r, st, sys, a, b, addr, n, v)
  {
    hide Spoiled, ByteWithM, MarkMissing;
    MarkedAlready(b);
    if !MarkMissing(b) {
      NeverSpoiled(r, st, sys, a, b, addr, n, v);
    }
  }

  lemma ConsEqual(b: bv32, bs: seq<bv32>, c: bv32, cs: seq<bv32>)
    ensures [b] + bs == [c] + cs <==> b == c && bs == cs
  {
    assert ([b] + bs)[1..] == bs && ([c] + cs)[1..] == cs;
    assert ([b] + bs)[0] == b && ([c] + cs)[0] == c;
  }

  /** The bytes left are those written if and only if no late M has changed one. */
  lemma {:induction false} LeftRunIff(r: Registers, st: State, sys: bool, addr: bv32, n: nat, v: bv32)
    requires Shaped(st.atc)
    ensures LeftRun(r, st, sys, addr, n, v) == Bytes(v, n) <==> Unspoiled(r, st, sys, addr, n, v)
    decreases n
  {
    hide WriteB, Spoiled, TopByte, Left, Succ;
    if n > 0 {
      var st' := WriteB(r, st, sys, addr, TopByte(v, n)).1;
      LeftIff(r, st', sys, addr, TopByte(v, n) & 0xff, Succ(addr), n - 1, v);
      LeftRunIff(r, st', sys, Succ(addr), n - 1, v);
      ConsEqual(Left(r, st', sys, addr, TopByte(v, n) & 0xff, Succ(addr), n - 1, v),
                LeftRun(r, st', sys, Succ(addr), n - 1, v), TopByte(v, n) & 0xff, Bytes(v, n - 1));
    }
  }

  predicate SmallBytes(bytes: seq<bv32>) { forall k :: 0 <= k < |bytes| ==> SmallByte(bytes[k]) }

  lemma {:induction false} LeftSmall(r: Registers, st: State, sys: bool, addr: bv32, n: nat, v: bv32)
    requires Shaped(st.atc)
    ensures SmallBytes(LeftRun(r, st, sys, addr, n, v))
    decreases n
  {
    hide WriteB, Spoiled, TopByte, SmallByte, ByteWithM, Succ;
    if n > 0 {
      MarkedSmall(TopByte(v, n));
      LeftSmall(r, WriteB(r, st, sys, addr, TopByte(v, n)).1, sys, Succ(addr), n - 1, v);
    }
  }

  /** After a run of byte writes every byte is in place, as a late M has left it. */
  lemma {:induction false} RunInPlace(r: Registers, st: State, sys: bool, addr: bv32, n: nat, v: bv32, first: bool)
    requires Inv(r, st) && WholePages(st.mem) && WriteApart(r, st, sys, addr, n, v)
    requires RunApart(addr, n) && WriteBytes(r, st, sys, addr, n, v, first).0.Done?
    ensures OwnedRun(r, WriteBytes(r, st, sys, addr, n, v, first).1, sys, addr, LeftRun(r, st, sys, addr, n, v))
    decreases n
  {
    hide WriteB, WriteApart, OwnedByte, BankOk, IndirectsApart, WholePages, Succ, TopByte, NeighbourRun, Misaligned,
         Kept, Left;
    if n > 0 {
      var st' := WriteB(r, st, sys, addr, TopByte(v, n)).1;
      WriteBInv(r, st, sys, addr, n, v);
      WriteOwns(r, st, sys, addr, n, v);
      ByteStaysRun(r, st', sys, addr, TopByte(v, n) & 0xff, Succ(addr), n - 1, v, false);
      RunInPlace(r, st', sys, Succ(addr), n - 1, v, false);
      assert LeftRun(r, st, sys, addr, n, v)[1..] == LeftRun(r, st', sys, Succ(addr), n - 1, v);
    }
  }

  // ---- Four bytes ----

  /** Carrying into a page number changes its low four bits. */
  lemma PageCarry(a: bv32, d: bv32)
    requires d < 4
    ensures (a + d) >> 12 == a >> 12 || (a + d) >> 12 == (a >> 12) + 1 || (a + d) >> 12 == 0
    ensures (a + d) >> 12 == 0 && a >> 12 != 0 ==> a >> 12 == 0xF_FFFF
  {}

  lemma NextLow(x: bv32)
    ensures (x + 1) & 0xf != x & 0xf
  {}

  lemma PagesApart(a: bv32, d: bv32)
    requires d < 4
    ensures (a + d) >> 12 == a >> 12 || ((a + d) >> 12) & 0xf != (a >> 12) & 0xf
  {
    PageCarry(a, d);
    NextLow(a >> 12);
  }

  lemma LowsApart(a: bv32, d: bv32)
    requires 0 < d < 4
    ensures LowDiffer(a, a + d)
  {}

  lemma NeighbourBytes(a: bv32, d: bv32)
    requires 0 < d < 4
    ensures Neighbours(a, a + d)
  {
    PagesApart(a, d);
    LowsApart(a, d);
    hide LowDiffer;
  }

  lemma Neighbours1(a: bv32)
    ensures Neighbours(a, Succ(a))
  {
    NeighbourBytes(a, 1);
    hide Neighbours;
  }

  lemma Neighbours2(a: bv32)
    ensures Neighbours(a, Succ(Succ(a)))
  {
    NeighbourBytes(a, 2);
    hide Neighbours;
  }

  lemma Neighbours3(a: bv32)
    ensures Neighbours(a, Succ(Succ(Succ(a))))
  {
    NeighbourBytes(a, 3);
    hide Neighbours;
  }

  lemma FourApart(a: bv32)
    ensures RunApart(a, 4)
  {
    hide Neighbours, Succ;
    Neighbours1(a);
    Neighbours2(a);
    Neighbours3(a);
    Neighbours1(Succ(a));
    Neighbours2(Succ(a));
    Neighbours1(Succ(Succ(a)));
    assert NeighbourRun(a, Succ(a), 3);
    assert NeighbourRun(Succ(a), Succ(Succ(a)), 2);
  }

  function AppendAll(acc: bv32, bytes: seq<bv32>): bv32
    decreases |bytes|
  {
    if bytes == [] then acc else AppendAll(Append(acc, bytes[0]), bytes[1..])
  }

  function Four(b0: bv32, b1: bv32, b2: bv32, b3: bv32): bv32 {
    Append(Append(Append(Append(0, b0), b1), b2), b3)
  }

  lemma FourBytes(l: bv32)
    ensures Four(TopByte(l, 4) & 0xff, TopByte(l, 3) & 0xff, TopByte(l, 2) & 0xff, TopByte(l, 1) & 0xff) == l
  {}

  lemma FourParts(b0: bv32, b1: bv32, b2: bv32, b3: bv32)
    requires SmallByte(b0) && SmallByte(b1) && SmallByte(b2) && SmallByte(b3)
    ensures var v := Four(b0, b1, b2, b3);
            TopByte(v, 4) & 0xff == b0 && TopByte(v, 3) & 0xff == b1 && TopByte(v, 2) & 0xff == b2
            && TopByte(v, 1) & 0xff == b3
  {}

  /** Reading a run of bytes in place. */
  lemma {:induction false} ReadOwnedRun(r: Registers, st: State, sys: bool, addr: bv32, bytes: seq<bv32>, lock: bool,
                                        acc: bv32, first: bool)
    requires Shaped(st.atc) && OwnedRun(r, st, sys, addr, bytes)
    ensures ReadBytes(r, st, sys, addr, |bytes|, lock, acc, first) == (Data(AppendAll(acc, bytes)), st)
    decreases |bytes|
  {
    hide ReadB, OwnedByte, Succ, Append, Misaligned;
    if bytes != [] {
      ReadOwned(r, st, sys, addr, bytes[0], lock);
      ReadOwnedRun(r, st, sys, Succ(addr), bytes[1..], lock, Append(acc, bytes[0]), false);
    }
  }

  lemma FourAppended(b0: bv32, b1: bv32, b2: bv32, b3: bv32)
    ensures AppendAll(0, [b0, b1, b2, b3]) == Four(b0, b1, b2, b3)
  {
    hide Append;
    var a1, a2, a3 := Append(0, b0), Append(Append(0, b0), b1), Append(Append(Append(0, b0), b1), b2);
    assert AppendAll(a3, [b3]) == Append(a3, b3);
    assert AppendAll(a2, [b2, b3]) == AppendAll(a3, [b3]);
    assert AppendAll(a1, [b1, b2, b3]) == AppendAll(a2, [b2, b3]);
  }

  lemma ReadOwnedLong(r: Registers, st: State, sys: bool, addr: bv32, bytes: seq<bv32>, lock: bool)
    requires Shaped(st.atc) && |bytes| == 4 && OwnedRun(r, st, sys, addr, bytes)
    ensures ReadBytes(r, st, sys, addr, 4, lock, 0, true) == (Data(Four(bytes[0], bytes[1], bytes[2], bytes[3])), st)
  {
    hide ReadBytes, OwnedRun, AppendAll, Four;
    ReadOwnedRun(r, st, sys, addr, bytes, lock, 0, true);
    FourAppended(bytes[0], bytes[1], bytes[2], bytes[3]);
    assert bytes == [bytes[0], bytes[1], bytes[2], bytes[3]];
  }

  lemma LeftLong(r: Registers, st: State, sys: bool, addr: bv32, l: bv32)
    requires Shaped(st.atc)
    ensures var b := LeftRun(r, st, sys, addr, 4, l);
            Four(b[0], b[1], b[2], b[3]) == l <==> Unspoiled(r, st, sys, addr, 4, l)
  {
    hide LeftRun, Unspoiled, TopByte, SmallByte, Four;
    var b := LeftRun(r, st, sys, addr, 4, l);
    LeftRunIff(r, st, sys, addr, 4, l);
    LeftSmall(r, st, sys, addr, 4, l);
    FourBytes(l);
    FourParts(b[0], b[1], b[2], b[3]);
    BytesOfLong(l);
  }

  lemma BytesOfLong(l: bv32)
    ensures Bytes(l, 4) == [TopByte(l, 4) & 0xff, TopByte(l, 3) & 0xff, TopByte(l, 2) & 0xff, TopByte(l, 1) & 0xff]
  {
    hide TopByte;
    assert Bytes(l, 1) == [TopByte(l, 1) & 0xff];
    assert Bytes(l, 2) == [TopByte(l, 2) & 0xff, TopByte(l, 1) & 0xff];
  }

  /**
   What WriteL has written ReadL reads, locked or not, if and only if no write to a later page
   sets a late M in a byte just written; and the read changes nothing.  This for every address
   that is split where it crosses a page, whatever the two frames are, as long as the data lies
   outside the tables.
   */
  lemma SplitReadBack(r: Registers, st: State, sys: bool, addr: bv32, l: bv32, lock: bool)
    requires Inv(r, st) && WholePages(st.mem) && !Unsplit(addr) && WriteApart(r, st, sys, addr, 4, l)
    requires WriteL(r, st, sys, addr, l).0.Done?
    ensures var st' := WriteL(r, st, sys, addr, l).1;
            var (x, st'') := ReadL(r, st', sys, addr, lock);
            st'' == st' && (x == Data(l) <==> Unspoiled(r, st, sys, addr, 4, l))
  {
    hide WriteL, ReadL, WriteApart, BankOk, IndirectsApart, WholePages, Unsplit, OwnedRun, ReadBytes, WriteBytes,
         LeftRun, Unspoiled, Four;
    WriteLSplit(r, st, sys, addr, l);
    FourApart(addr);
    RunInPlace(r, st, sys, addr, 4, l, true);
    var st' := WriteL(r, st, sys, addr, l).1;
    ReadOwnedLong(r, st', sys, addr, LeftRun(r, st, sys, addr, 4, l), lock);
    LeftLong(r, st, sys, addr, l);
    SplitInv(r, st, sys, addr, l);
    ReadLSplit(r, st', sys, addr, lock);
  }

  lemma SplitInv(r: Registers, st: State, sys: bool, addr: bv32, l: bv32)
    requires Inv(r, st) && WholePages(st.mem) && !Unsplit(addr) && WriteApart(r, st, sys, addr, 4, l)
    ensures var st' := WriteL(r, st, sys, addr, l).1; Inv(r, st') && WholePages(st'.mem)
  {
    hide WriteL, WriteBytes, WriteApart, BankOk, IndirectsApart, WholePages, Unsplit;
    WriteLSplit(r, st, sys, addr, l);
    ApartHalves(r, st, sys, addr, l);
    TwoBytesInv(r, st, sys, addr, l >> 16);
    WriteFour(r, st, sys, addr, l);
    var (x, st1) := WriteBytes(r, st, sys, addr, 2, l >> 16, true);
    if x.Done? {
      TwoBytesInv(r, st1, sys, addr + 2, l);
    }
  }
}
