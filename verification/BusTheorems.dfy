/**
 Misaligned accesses against one translated byte access after the other.
 */
module BusTheorems {
  import opened Addresses
  import opened MmuTables
  import opened Atc
  import opened AtcInvariant
  import opened AtcTheorems
  import opened AtcMarks
  import opened AtcStability
  import opened BusAccess

  // ---- Translating the same page again ----

  lemma UsedAlready(v: bv32)
    requires UBit(v)
    ensures Used(v) == v
  {}

  /** Does the search end without a slot of its own: at an invalid page descriptor or at a bus error? */
  predicate EndsShort(w: Walk) { w == NoPage || w.Fault? }

  /** The search past its root level. */
  lemma RootMarked(r: Registers, m: Memory, e: Slot, page: bv32, sys: bool, write: bool)
    requires IndirectsApart(r, m) && !TrailOf(r, m, sys, page).AtRoot?
    ensures var t := TrailOf(r, m, sys, page);
            && t.root in m
            && var m1 := m[t.root := Used(m[t.root])];
               && IndirectsApart(r, m1) && TrailOf(r, m1, sys, page) == t
               && PointerEntry(m1[t.root], page) == t.pointer
               && AtcSearch(r, m, e, page, sys, write) == SearchPointer(r, m1, e, page, sys, write, m1[t.root])
  {
    hide MarkOf, UBit, WBit, Used, RootEntry, PointerEntry, PageEntry, TableResident, PageInvalid, IndirectsApart, Kept,
         Descriptor, SearchPointer;
    var t := TrailOf(r, m, sys, page);
    UseKept(r, m, sys, page, t.root);
    WalkStable(r, m, m[t.root := Used(m[t.root])], sys, page);
  }

  /** And past its pointer level, where it ends short. */
  lemma PointerMarked(r: Registers, m: Memory, e: Slot, page: bv32, sys: bool, write: bool)
    requires IndirectsApart(r, m) && EndsShort(WalkOf(r, m, sys, page))
    requires var t := TrailOf(r, m, sys, page); t.AtPage? && t.root in m && PointerEntry(m[t.root], page) == t.pointer
    ensures var t := TrailOf(r, m, sys, page);
            && t.pointer in m
            && SearchPointer(r, m, e, page, sys, write, m[t.root])
               == Search(t.walk == NoPage, m[t.pointer := Used(m[t.pointer])], e)
  {
    hide MarkOf, UBit, WBit, Used, RootEntry, PointerEntry, PageEntry, TableResident, PageInvalid, IndirectsApart, Kept,
         IndirectTarget, MarkDescriptor, Fill, NotFound;
    var t := TrailOf(r, m, sys, page);
    UseKept(r, m, sys, page, t.pointer);
    WalkStable(r, m, m[t.pointer := Used(m[t.pointer])], sys, page);
  }

  lemma PointerFaults(r: Registers, m: Memory, e: Slot, page: bv32, sys: bool, write: bool)
    requires EndsShort(WalkOf(r, m, sys, page))
    requires var t := TrailOf(r, m, sys, page);
             t.AtPointer? && t.root in m && PointerEntry(m[t.root], page) == t.pointer
    ensures SearchPointer(r, m, e, page, sys, write, m[TrailOf(r, m, sys, page).root]) == Search(false, m, e)
  {
    hide WBit, Used, RootEntry, PointerEntry, PageEntry, TableResident, PageInvalid, AtcSet, NotFound;
  }

  /** The table levels a trail has passed bear their U bits. */
  predicate LevelsUsed(t: Trail, m: Memory) {
    && (!t.AtRoot? ==> t.root in m && UBit(m[t.root]))
    && (t.AtPage? ==> t.pointer in m && UBit(m[t.pointer]))
  }

  /** A search that ends short has marked the table levels it passed. */
  lemma ShortMarks(r: Registers, m: Memory, e: Slot, page: bv32, sys: bool, write: bool)
    requires IndirectsApart(r, m) && EndsShort(WalkOf(r, m, sys, page))
    ensures LevelsUsed(TrailOf(r, m, sys, page), AtcSearch(r, m, e, page, sys, write).mem)
  {
    hide MarkOf, UBit, WBit, Used, PointerEntry, IndirectsApart, TrailOf, SearchPointer, AtcSearch;
    var t := TrailOf(r, m, sys, page);
    if !t.AtRoot? {
      RootMarked(r, m, e, page, sys, write);
      var m1 := m[t.root := Used(m[t.root])];
      UsedMark(m[t.root]);
      UsedMark(m1[t.root]);
      if t.AtPage? {
        PointerMarked(r, m1, e, page, sys, write);
        UsedMark(m1[t.pointer]);
      } else {
        PointerFaults(r, m1, e, page, sys, write);
      }
    }
  }

  lemma PointerAgain(r: Registers, m: Memory, e: Slot, page: bv32, sys: bool, write: bool)
    requires EndsShort(WalkOf(r, m, sys, page)) && LevelsUsed(TrailOf(r, m, sys, page), m)
    requires !TrailOf(r, m, sys, page).AtRoot?
    ensures SearchPointer(r, m, e, page, sys, write, m[TrailOf(r, m, sys, page).root])
            == Search(WalkOf(r, m, sys, page) == NoPage, m, e)
  {
    hide UBit, WBit, Used, RootEntry, PointerEntry, PageEntry, TableResident, PageInvalid, PageIndirect, IndirectTarget,
         MarkDescriptor, Fill, NotFound;
    var t := TrailOf(r, m, sys, page);
    if t.AtPage? {
      UsedAlready(m[t.pointer]);
      assert m[t.pointer := m[t.pointer]] == m;
    }
  }

  /** A second search on marked tables changes nothing. */
  lemma ShortAgain(r: Registers, m: Memory, e: Slot, page: bv32, sys: bool, write: bool)
    requires EndsShort(WalkOf(r, m, sys, page)) && LevelsUsed(TrailOf(r, m, sys, page), m)
    ensures AtcSearch(r, m, e, page, sys, write) == Search(WalkOf(r, m, sys, page) == NoPage, m, e)
  {
    hide UBit, Used, RootEntry, TableResident, PointerLevel, SearchPointer, NotFound;
    var t := TrailOf(r, m, sys, page);
    if RootEntry(r, sys, page) in m && TableResident(m[RootEntry(r, sys, page)]) {
      NotAtRoot(r, m, sys, page);
      UsedAlready(m[t.root]);
      assert m[t.root := m[t.root]] == m;
      PointerAgain(r, m, e, page, sys, write);
    }
  }

  /** m' agrees with m on what a walk of the page reads. */
  ghost predicate SameTrailWords(r: Registers, m: Memory, m': Memory, sys: bool, page: bv32) {
    m'.Keys == m.Keys &&
    forall w: Loc :: w in m && Reads(TrailOf(r, m, sys, page), w) ==> m'[w] == m[w]
  }

  lemma TrailAgrees(r: Registers, m: Memory, m': Memory, sys: bool, page: bv32)
    requires SameTrailWords(r, m, m', sys, page)
    ensures TrailOf(r, m', sys, page) == TrailOf(r, m, sys, page)
  {
    hide RootEntry, PointerEntry, PageEntry, TableResident, PageInvalid, PageIndirect, IndirectTarget, WBit;
    var t := TrailOf(r, m, sys, page);
    assert Reads(t, t.root);
    if !t.AtRoot? {
      assert Reads(t, t.pointer);
    }
    if t.AtPage? {
      assert Reads(t, t.entry);
    }
  }

  lemma FinishAgain(m: Memory, c: Caches, code: bool, sys: bool, page: bv32, write: bool, m': Memory)
    requires Shaped(c) && !Finish(m, c, code, sys, page, write).0.B
    ensures var (res, st') := Finish(m, c, code, sys, page, write);
            && !MustModify(Get(st'.atc, code, sys, page), sys, write)
            && res == SlotResult(Get(st'.atc, code, sys, page))
            && Finish(m', st'.atc, code, sys, page, write) == (res, State(m', st'.atc))
            && (st'.atc == c || st'.atc == Put(c, code, sys, page, Get(c, code, sys, page).(M := true)))
  {
    hide Index, Modified, Put, Get;
    PutGet(c, code, sys, page, Get(c, code, sys, page).(M := true));
  }

  /** Under the invariant a bus error comes from the search alone. */
  lemma NoLateFault(r: Registers, m: Memory, c: Caches, code: bool, sys: bool, page: bv32, write: bool)
    requires CachesOk(r, m, c)
    ensures !Finish(m, c, code, sys, page, write).0.B
  {
    hide BankOk, Index, Indirect, WalkOf, Agrees, Modified, Put;
    GetOk(r, m, c, code, sys, page);
  }

  lemma HitAgain(r: Registers, st: State, page: bv32, sys: bool, code: bool, write: bool, m': Memory)
    requires Inv(r, st) && Hit(Get(st.atc, code, sys, page), page)
    ensures var (res, st1) := PtestTables(r, st, page, sys, code, write);
            PtestTables(r, State(m', st1.atc), page, sys, code, write) == (res, State(m', st1.atc))
  {
    hide Finish, Index, Get, Put, BankOk, IndirectsApart;
    NoLateFault(r, st.mem, st.atc, code, sys, page, write);
    FinishAgain(st.mem, st.atc, code, sys, page, write, m');
    PutGet(st.atc, code, sys, page, Get(st.atc, code, sys, page).(M := true));
  }

  /** A translation repeated changes nothing more and returns the same, a bus error included,
      also when words that no walk of the page reads have been written in between. */
  lemma PtestAgain(r: Registers, st: State, page: bv32, sys: bool, code: bool, write: bool, m': Memory)
    requires Inv(r, st)
    requires SameTrailWords(r, Ptest(r, st, page, sys, code, write).1.mem, m', sys, page)
    ensures var (res, st1) := Ptest(r, st, page, sys, code, write);
            Ptest(r, State(m', st1.atc), page, sys, code, write) == (res, State(m', st1.atc))
  {
    hide PtestTables, PtestTtr, BankOk, IndirectsApart, Get, SameTrailWords;
    if ByTables(r, page, sys, code) {
      if Hit(Get(st.atc, code, sys, page), page) {
        HitAgain(r, st, page, sys, code, write, m');
      } else {
        MissAgain(r, st, page, sys, code, write, m');
      }
    }
  }

  /** After a search that fills the slot the page hits. */
  lemma FilledAgain(r: Registers, st: State, page: bv32, sys: bool, code: bool, write: bool, m': Memory)
    requires Inv(r, st) && !Hit(Get(st.atc, code, sys, page), page) && !EndsShort(WalkOf(r, st.mem, sys, page))
    ensures var (res, st1) := PtestTables(r, st, page, sys, code, write);
            PtestTables(r, State(m', st1.atc), page, sys, code, write) == (res, State(m', st1.atc))
  {
    hide Finish, AtcSearch, Index, IndirectsApart, BankOk, TrailOf, Get, Put, Kept, Fill;
    var e := Get(st.atc, code, sys, page);
    SearchedCachesOk(r, st, page, sys, code, write);
    var s := AtcSearch(r, st.mem, e, page, sys, write);
    var c := Put(st.atc, code, sys, page, s.slot);
    PutGet(st.atc, code, sys, page, s.slot);
    PutGet(c, code, sys, page, s.slot.(M := true));
    NoLateFault(r, s.mem, c, code, sys, page, write);
    FinishAgain(s.mem, c, code, sys, page, write, m');
    FillHits(r, st.mem, e, page, sys, s);
  }

  lemma MissAgain(r: Registers, st: State, page: bv32, sys: bool, code: bool, write: bool, m': Memory)
    requires Inv(r, st) && ByTables(r, page, sys, code) && !Hit(Get(st.atc, code, sys, page), page)
    requires SameTrailWords(r, PtestTables(r, st, page, sys, code, write).1.mem, m', sys, page)
    ensures var (res, st1) := PtestTables(r, st, page, sys, code, write);
            PtestTables(r, State(m', st1.atc), page, sys, code, write) == (res, State(m', st1.atc))
  {
    hide PtestTables, PtestTtr, IndirectsApart, BankOk, TrailOf, Get, SameTrailWords;
    if EndsShort(WalkOf(r, st.mem, sys, page)) {
      ShortRemarked(r, st, page, sys, code, write, m');
      ShortTables(r, st, page, sys, code, write, m');
    } else {
      FilledAgain(r, st, page, sys, code, write, m');
    }
  }

  /** A translation whose search ends short, before and after. */
  lemma ShortTables(r: Registers, st: State, page: bv32, sys: bool, code: bool, write: bool, m': Memory)
    requires Inv(r, st) && !Hit(Get(st.atc, code, sys, page), page) && EndsShort(WalkOf(r, st.mem, sys, page))
    requires forall e: Slot ::
               AtcSearch(r, m', e, page, sys, write) == Search(WalkOf(r, st.mem, sys, page) == NoPage, m', e)
    ensures var (res, st1) := PtestTables(r, st, page, sys, code, write);
            PtestTables(r, State(m', st1.atc), page, sys, code, write) == (res, State(m', st1.atc))
  {
    hide Finish, AtcSearch, Index, IndirectsApart, BankOk, TrailOf, Get, Put, Kept, Hit;
    var e := Get(st.atc, code, sys, page);
    SearchedCachesOk(r, st, page, sys, code, write);
    var s := AtcSearch(r, st.mem, e, page, sys, write);
    if s.ok {
      PutSame(st.atc, code, sys, page);
      NoLateFault(r, s.mem, st.atc, code, sys, page, write);
      FinishAgain(s.mem, st.atc, code, sys, page, write, m');
      PutGet(st.atc, code, sys, page, e.(M := true));
      PutSame(PtestTables(r, st, page, sys, code, write).1.atc, code, sys, page);
      StillMisses(e, page);
    }
  }

  lemma StillMisses(e: Slot, page: bv32)
    ensures Hit(e.(M := true), page) == Hit(e, page)
  {}

  lemma ShortRemarked(r: Registers, st: State, page: bv32, sys: bool, code: bool, write: bool, m': Memory)
    requires Inv(r, st) && ByTables(r, page, sys, code) && !Hit(Get(st.atc, code, sys, page), page)
    requires EndsShort(WalkOf(r, st.mem, sys, page))
    requires SameTrailWords(r, PtestTables(r, st, page, sys, code, write).1.mem, m', sys, page)
    ensures forall e: Slot ::
              AtcSearch(r, m', e, page, sys, write) == Search(WalkOf(r, st.mem, sys, page) == NoPage, m', e)
  {
    hide Finish, AtcSearch, PtestTtr, Index, IndirectsApart, BankOk, TrailOf, Get, Put, Kept, SearchedAsWalked, UBit,
         MBit, Same, LevelsUsed;
    var e := Get(st.atc, code, sys, page);
    var st1 := PtestTables(r, st, page, sys, code, write).1;
    var s := AtcSearch(r, st.mem, e, page, sys, write);
    var t := TrailOf(r, st.mem, sys, page);
    ShortMarks(r, st.mem, e, page, sys, write);
    FinishMarks(s.mem, Put(st.atc, code, sys, page, s.slot), code, sys, page, write);
    NoMark(s.mem);
    PtestInv(r, st, page, sys, code, write);
    WalkStable(r, st.mem, st1.mem, sys, page);
    TrailAgrees(r, st1.mem, m', sys, page);
    StillUsed(t, s.mem, st1.mem);
    UsedThere(r, st1.mem, m', sys, page);
    forall e0: Slot
      ensures AtcSearch(r, m', e0, page, sys, write) == Search(WalkOf(r, st.mem, sys, page) == NoPage, m', e0)
    {
      ShortAgain(r, m', e0, page, sys, write);
    }
  }

  lemma StillUsed(t: Trail, m: Memory, m': Memory)
    requires LevelsUsed(t, m) && OnlyMarks(m, m')
    ensures LevelsUsed(t, m')
  {
    hide UBit, MBit, Same;
  }

  lemma UsedThere(r: Registers, m: Memory, m': Memory, sys: bool, page: bv32)
    requires LevelsUsed(TrailOf(r, m, sys, page), m) && SameTrailWords(r, m, m', sys, page)
    ensures LevelsUsed(TrailOf(r, m, sys, page), m')
  {
    hide UBit, TrailOf;
    var t := TrailOf(r, m, sys, page);
    assert Reads(t, t.root) && (t.AtPage? ==> Reads(t, t.pointer));
  }

  // ---- Reads within one page ----

  predicate LastOfPage(addr: bv32) { addr & 0xfff == 0xfff }

  /** Do the n bytes from addr on lie in one 4K page? */
  predicate WithinPage(addr: bv32, n: nat)
    decreases n
  {
    n <= 1 || (!LastOfPage(addr) && WithinPage(Succ(addr), n - 1))
  }

  /** RAM is a whole number of pages. */
  ghost predicate WholePages(m: Memory) {
    forall a: bv32 :: !LastOfPage(a) ==> Mapped(m, a) == Mapped(m, Succ(a))
  }

  lemma PageStep(addr: bv32)
    requires !LastOfPage(addr)
    ensures PageOf(Succ(addr)) == PageOf(addr)
  {}

  lemma SmallPhysStep(frame: bv32, addr: bv32)
    requires !LastOfPage(addr)
    ensures SmallPhys(frame, Succ(addr)) == Succ(SmallPhys(frame, addr))
  {}

  lemma LargePhysStep(frame: bv32, addr: bv32)
    requires !LastOfPage(addr)
    ensures LargePhys(frame, Succ(addr)) == Succ(LargePhys(frame, addr))
  {}

  lemma SmallPhysLow(frame: bv32, addr: bv32)
    ensures LastOfPage(SmallPhys(frame, addr)) == LastOfPage(addr)
  {}

  lemma LargePhysLow(frame: bv32, addr: bv32)
    ensures LastOfPage(LargePhys(frame, addr)) == LastOfPage(addr)
  {}

  lemma PhysStep(large: bool, frame: bv32, addr: bv32)
    requires !LastOfPage(addr)
    ensures PhysAddr(large, frame, Succ(addr)) == Succ(PhysAddr(large, frame, addr))
    ensures !LastOfPage(PhysAddr(large, frame, addr))
  {
    hide SmallPhys, LargePhys, LastOfPage, Succ;
    if large {
      LargePhysStep(frame, addr);
      LargePhysLow(frame, addr);
    } else {
      SmallPhysStep(frame, addr);
      SmallPhysLow(frame, addr);
    }
  }

  /** A translation of the page returns res and leaves everything as it is. */
  predicate Settled(r: Registers, st: State, sys: bool, page: bv32, write: bool, res: MmuResult)
    requires Shaped(st.atc)
  {
    Ptest(r, st, page, sys, false, write) == (res, st)
  }

  lemma ZeroOr(b: bv32)
    ensures Append(0, b) == b
  {}

  lemma OneByte(m: Memory, a: bv32)
    requires Mapped(m, a)
    ensures MappedRun(m, a, 1) && LoadRun(m, a, 1, 0) == MemByte(m, a)
  {
    hide MemByte, Mapped, Append;
    ZeroOr(MemByte(m, a));
  }

  lemma {:induction false} RunMapped(m: Memory, a: bv32, n: nat)
    requires WholePages(m) && WithinPage(a, n) && n > 0
    ensures MappedRun(m, a, n) == Mapped(m, a)
    decreases n
  {
    hide Mapped, LastOfPage, Succ;
    if n > 1 {
      RunMapped(m, Succ(a), n - 1);
    }
  }

  lemma {:induction false} PhysWithin(large: bool, frame: bv32, addr: bv32, n: nat)
    requires WithinPage(addr, n)
    ensures WithinPage(PhysAddr(large, frame, addr), n)
    decreases n
  {
    hide PhysAddr, LastOfPage, Succ;
    if n > 1 {
      PhysStep(large, frame, addr);
      PhysWithin(large, frame, Succ(addr), n - 1);
    }
  }

  /** The bytes after the first of a piece: every further translation is idle. */
  lemma {:induction false} ReadRun(r: Registers, st: State, sys: bool, addr: bv32, n: nat, lock: bool, acc: bv32,
                                   first: bool, res: MmuResult)
    requires Shaped(st.atc) && WithinPage(addr, n) && Permits(res, sys, lock)
    requires n > 0 ==> Settled(r, st, sys, PageOf(addr), lock, res)
    requires MappedRun(st.mem, PhysAddr(r.tcrP, res.paddr, addr), n)
    ensures ReadBytes(r, st, sys, addr, n, lock, acc, first)
            == (Data(LoadRun(st.mem, PhysAddr(r.tcrP, res.paddr, addr), n, acc)), st)
    decreases n
  {
    hide Ptest, PhysAddr, LastOfPage, MemByte, Mapped, Permits, Succ, Append, PageOf;
    if n > 0 {
      var a := PhysAddr(r.tcrP, res.paddr, addr);
      OneByte(st.mem, a);
      var b := MemByte(st.mem, a);
      assert ReadB(r, st, sys, addr, lock) == (Data(b), st);
      if n > 1 {
        PageStep(addr);
        PhysStep(r.tcrP, res.paddr, addr);
        ReadRun(r, st, sys, Succ(addr), n - 1, lock, Append(acc, b), false, res);
      }
    }
  }

  lemma PtestSettles(r: Registers, st: State, sys: bool, page: bv32, write: bool)
    requires Inv(r, st)
    ensures var (res, st1) := Ptest(r, st, page, sys, false, write);
            Settled(r, st1, sys, page, write, res) && Inv(r, st1) && st1.mem.Keys == st.mem.Keys
  {
    hide Ptest, BankOk, IndirectsApart, TrailOf;
    PtestInv(r, st, page, sys, false, write);
    var st1 := Ptest(r, st, page, sys, false, write).1;
    PtestAgain(r, st, page, sys, false, write, st1.mem);
  }

  /** One translated bus cycle within a page reads what byte after byte reads. */
  lemma ReadPieceBytes(r: Registers, st: State, sys: bool, addr: bv32, n: nat, lock: bool)
    requires Inv(r, st) && WholePages(st.mem) && WithinPage(addr, n) && n > 0
    ensures ReadPiece(r, st, sys, addr, n, false, lock) == ReadBytes(r, st, sys, addr, n, lock, 0, true)
  {
    hide Ptest, PhysAddr, LastOfPage, MemByte, Mapped, Permits, Succ, Append, PageOf, BankOk, IndirectsApart,
         WholePages, Settled;
    var (res, st1) := Ptest(r, st, PageOf(addr), sys, false, lock);
    if Permits(res, sys, lock) {
      PtestSettles(r, st, sys, PageOf(addr), lock);
      var a := PhysAddr(r.tcrP, res.paddr, addr);
      WholePagesKeys(st.mem, st1.mem);
      PhysWithin(r.tcrP, res.paddr, addr, n);
      RunMapped(st1.mem, a, n);
      if Mapped(st1.mem, a) {
        OneByte(st1.mem, a);
        if n > 1 {
          PageStep(addr);
          PhysStep(r.tcrP, res.paddr, addr);
        }
        RestOfRun(r, st1, sys, addr, n, lock, res);
      }
    }
  }

  lemma RestOfRun(r: Registers, st1: State, sys: bool, addr: bv32, n: nat, lock: bool, res: MmuResult)
    requires Shaped(st1.atc) && WithinPage(addr, n) && n > 0 && Permits(res, sys, lock)
    requires Settled(r, st1, sys, PageOf(addr), lock, res)
    requires MappedRun(st1.mem, PhysAddr(r.tcrP, res.paddr, addr), n)
    ensures ReadBytes(r, st1, sys, Succ(addr), n - 1, lock,
                      Append(0, MemByte(st1.mem, PhysAddr(r.tcrP, res.paddr, addr))), false)
            == (Data(LoadRun(st1.mem, PhysAddr(r.tcrP, res.paddr, addr), n, 0)), st1)
  {
    hide Ptest, PhysAddr, LastOfPage, MemByte, Mapped, Permits, Succ, Append, PageOf, Settled;
    if n > 1 {
      PageStep(addr);
      PhysStep(r.tcrP, res.paddr, addr);
      ReadRun(r, st1, sys, Succ(addr), n - 1, lock, Append(0, MemByte(st1.mem, PhysAddr(r.tcrP, res.paddr, addr))),
              false, res);
    }
  }

  lemma WholePagesKeys(m: Memory, m': Memory)
    requires m.Keys == m'.Keys && WholePages(m)
    ensures WholePages(m')
  {
    hide LastOfPage, Succ;
    forall a: bv32 | !LastOfPage(a) ensures Mapped(m', a) == Mapped(m', Succ(a)) {
      assert Mapped(m, a) == Mapped(m, Succ(a));
    }
  }

  // ---- Reads: joining the halves ----

  lemma SuccSucc(addr: bv32)
    ensures Succ(Succ(addr)) == addr + 2
  {}

  lemma JoinWord(x: bv32, y: bv32)
    ensures Append(Append(0, x), y) == Combine(x, 8, y)
  {
    ZeroOr(x);
    CombineByte(x, y);
    hide Append, Combine;
  }

  lemma CombineByte(x: bv32, y: bv32)
    ensures Append(x, y) == Combine(x, 8, y)
  {}

  lemma JoinLong(acc: bv32, x: bv32, y: bv32)
    ensures Append(Append(acc, x), y) == Combine(acc, 16, Append(Append(0, x), y))
  {}

  lemma MisalignedTwice(e: bv16)
    ensures Misaligned(Misaligned(e)) == Misaligned(e)
  {}

  lemma EvenWithinPage(addr: bv32)
    requires addr & 1 == 0
    ensures WithinPage(addr, 2)
  {}

  /** A word read is two byte reads, at even addresses in one cycle, at odd ones in two. */
  lemma ReadWBytes(r: Registers, st: State, sys: bool, addr: bv32, lock: bool)
    requires Inv(r, st) && WholePages(st.mem)
    ensures ReadW(r, st, sys, addr, false, lock) == ReadBytes(r, st, sys, addr, 2, lock, 0, true)
  {
    hide ReadB, ReadPiece, Succ, Append, Combine, WholePages, BankOk, IndirectsApart, Misaligned, WithinPage;
    if addr & 1 != 0 {
      var (x1, st1) := ReadB(r, st, sys, addr, lock);
      if x1.Data? {
        var (x2, st2) := ReadB(r, st1, sys, Succ(addr), lock);
        if x2.Data? {
          JoinWord(x1.v, x2.v);
        }
      }
    } else {
      EvenWithinPage(addr);
      ReadPieceBytes(r, st, sys, addr, 2, lock);
    }
  }

  /** Two more bytes behind acc, in terms of a word read on its own. */
  lemma ReadTwoMore(r: Registers, st: State, sys: bool, addr: bv32, lock: bool, acc: bv32)
    requires Shaped(st.atc)
    ensures var (x, st') := ReadBytes(r, st, sys, addr, 2, lock, 0, true);
            ReadBytes(r, st, sys, addr, 2, lock, acc, false) == (Joined(acc, 16, x), st')
  {
    hide ReadB, Succ, Append, Combine, Misaligned;
    var (x1, st1) := ReadB(r, st, sys, addr, lock);
    if x1.Data? {
      var (x2, st2) := ReadB(r, st1, sys, Succ(addr), lock);
      match x2
      case Data(y) => JoinLong(acc, x1.v, y);
      case ReadError(e) => MisalignedTwice(e);
    }
  }

  /** Four bytes are two and then two. */
  lemma ReadFour(r: Registers, st: State, sys: bool, addr: bv32, lock: bool)
    requires Shaped(st.atc)
    ensures var (x, st') := ReadBytes(r, st, sys, addr, 2, lock, 0, true);
            ReadBytes(r, st, sys, addr, 4, lock, 0, true)
            == if x.Data? then ReadBytes(r, st', sys, addr + 2, 2, lock, x.v, false) else (x, st')
  {
    hide ReadB, Succ, Append, Combine, Misaligned;
    SuccSucc(addr);
    var (x1, st1) := ReadB(r, st, sys, addr, lock);
    if x1.Data? {
      var (x2, st2) := ReadB(r, st1, sys, Succ(addr), lock);
      assert x2.Data? ==> ReadBytes(r, st, sys, addr, 2, lock, 0, true) == (Data(Append(Append(0, x1.v), x2.v)), st2);
      assert ReadBytes(r, st, sys, addr, 4, lock, 0, true)
             == ReadBytes(r, st1, sys, Succ(addr), 3, lock, Append(0, x1.v), false);
    }
  }

  /** The one place where ReadL and WriteL do not split although the bytes cross a page. */
  predicate Unsplit(addr: bv32) { addr & 0xfff == 0xffd }

  lemma LongWithinPage(addr: bv32)
    requires addr & 2 == 0 && !Unsplit(addr)
    ensures WithinPage(addr, 4)
  {
    assert !LastOfPage(addr) && !LastOfPage(addr + 1) && !LastOfPage(addr + 2);
    SuccSucc(addr);
  }

  /** ReadL is four byte reads, each translated on its own: same value, same final
      state, same fault, with SSW_MA exactly when an earlier byte had been read. */
  lemma ReadLSplit(r: Registers, st: State, sys: bool, addr: bv32, lock: bool)
    requires Inv(r, st) && WholePages(st.mem) && !Unsplit(addr)
    ensures ReadL(r, st, sys, addr, lock) == ReadBytes(r, st, sys, addr, 4, lock, 0, true)
  {
    hide ReadW, ReadPiece, ReadBytes, Unsplit, WholePages, BankOk, IndirectsApart, WithinPage;
    if addr & 2 != 0 {
      ReadWBytes(r, st, sys, addr, lock);
      ReadFour(r, st, sys, addr, lock);
      var (x1, st1) := ReadW(r, st, sys, addr, false, lock);
      if x1.Data? {
        ReadWInv(r, st, sys, addr, lock);
        ReadWBytes(r, st1, sys, addr + 2, lock);
        ReadTwoMore(r, st1, sys, addr + 2, lock, x1.v);
      }
    } else {
      LongWithinPage(addr);
      ReadPieceBytes(r, st, sys, addr, 4, lock);
    }
  }

  lemma ReadPieceInv(r: Registers, st: State, sys: bool, addr: bv32, n: nat, lock: bool)
    requires Inv(r, st) && WholePages(st.mem)
    ensures var st' := ReadPiece(r, st, sys, addr, n, false, lock).1; Inv(r, st') && WholePages(st'.mem)
  {
    hide Ptest, PhysAddr, Permits, PageOf, BankOk, IndirectsApart, WholePages, TrailOf;
    PtestInv(r, st, PageOf(addr), sys, false, lock);
    WholePagesKeys(st.mem, Ptest(r, st, PageOf(addr), sys, false, lock).1.mem);
  }

  lemma ReadWInv(r: Registers, st: State, sys: bool, addr: bv32, lock: bool)
    requires Inv(r, st) && WholePages(st.mem)
    ensures var st' := ReadW(r, st, sys, addr, false, lock).1; Inv(r, st') && WholePages(st'.mem)
  {
    hide ReadPiece, BankOk, IndirectsApart, WholePages, Succ;
    ReadPieceInv(r, st, sys, addr, 1, lock);
    ReadPieceInv(r, ReadB(r, st, sys, addr, lock).1, sys, Succ(addr), 1, lock);
    ReadPieceInv(r, st, sys, addr, 2, lock);
  }

  /** A faulting ReadL has SSW_MA set exactly when its first byte can be read. */
  lemma ReadLSplitMisaligned(r: Registers, st: State, sys: bool, addr: bv32, lock: bool)
    requires Inv(r, st) && WholePages(st.mem) && !Unsplit(addr)
    requires ReadL(r, st, sys, addr, lock).0.ReadError?
    ensures ReadL(r, st, sys, addr, lock).0.ssw & SSW_MA != 0 <==> ReadB(r, st, sys, addr, lock).0.Data?
  {
    hide ReadL, Unsplit, WholePages, BankOk, IndirectsApart;
    ReadLSplit(r, st, sys, addr, lock);
    ReadBytesMisaligned(r, st, sys, addr, 4, lock, 0);
  }

  lemma ReadBytesMisaligned(r: Registers, st: State, sys: bool, addr: bv32, n: nat, lock: bool, acc: bv32)
    requires Shaped(st.atc) && n > 0 && ReadBytes(r, st, sys, addr, n, lock, acc, true).0.ReadError?
    ensures ReadBytes(r, st, sys, addr, n, lock, acc, true).0.ssw & SSW_MA != 0
            <==> ReadB(r, st, sys, addr, lock).0.Data?
  {
    hide Ptest, PhysAddr, Permits, PageOf, Append, Succ, MemByte;
    if ReadB(r, st, sys, addr, lock).0.Data? {
      LaterMisaligned(r, ReadB(r, st, sys, addr, lock).1, sys, Succ(addr), n - 1, lock,
                      Append(acc, ReadB(r, st, sys, addr, lock).0.v));
    }
  }

  lemma {:induction false} LaterMisaligned(r: Registers, st: State, sys: bool, addr: bv32, n: nat, lock: bool,
                                           acc: bv32)
    requires Shaped(st.atc) && ReadBytes(r, st, sys, addr, n, lock, acc, false).0.ReadError?
    ensures ReadBytes(r, st, sys, addr, n, lock, acc, false).0.ssw & SSW_MA != 0
    decreases n
  {
    hide ReadB, Append, Succ;
    var (x, st') := ReadB(r, st, sys, addr, lock);
    if x.Data? {
      LaterMisaligned(r, st', sys, Succ(addr), n - 1, lock, Append(acc, x.v));
    }
  }
}
