/**
 Translation in numbers.  A walk, the descriptor it arrives at, and what may be done with the page
 are written down once more with quotients, remainders and sums of 32-bit numbers alone; none of
 the sums wraps, as both root tables start at multiples of 512.
 */
module WalkNumbers {
  import opened Addresses
  import NumberFacts
  import opened MmuTables
  import opened Atc
  import opened AtcTheorems
  import opened AtcLive
  import opened AtcWrites

  // ---- Descriptors ----

  predicate Protected(w: bv32) { w / 4 % 2 == 1 }
  predicate InUse(w: bv32) { w / 8 % 2 == 1 }
  predicate Changed(w: bv32) { w / 16 % 2 == 1 }
  predicate Supervised(w: bv32) { w / 128 % 2 == 1 }
  predicate Global(w: bv32) { w / 1024 % 2 == 1 }

  /** What the bits of a descriptor are worth. */
  lemma BitNumbers(w: bv32)
    ensures WBit(w) <==> Protected(w)
    ensures UBit(w) <==> InUse(w)
    ensures MBit(w) <==> Changed(w)
    ensures SBit(w) <==> Supervised(w)
    ensures GBit(w) <==> Global(w)
  {
    NumberFacts.Bit2(w);
    NumberFacts.Bit3(w);
    NumberFacts.Bit4(w);
    NumberFacts.Bit7(w);
    NumberFacts.Bit10(w);
  }

  lemma TypeNumbers(w: bv32)
    ensures TableResident(w) <==> w % 4 == 2 || w % 4 == 3
    ensures PageInvalid(w) <==> w % 4 == 0
    ensures PageIndirect(w) <==> w % 4 == 2
    ensures IndirectTarget(w) == At(w - w % 4)
  {}

  /** A mark is added where it is missing. */
  lemma UsedNumber(w: bv32)
    ensures Used(w) == if InUse(w) then w else w + 8
  {
    NumberFacts.Bit3(w);
    if UBit(w) {
      NumberFacts.Has8(w);
    } else {
      NumberFacts.Adds8(w);
    }
  }

  lemma ModifiedNumber(w: bv32)
    ensures Modified(w) == if Changed(w) then w else w + 16
  {
    NumberFacts.Bit4(w);
    if MBit(w) {
      NumberFacts.Has16(w);
    } else {
      NumberFacts.Adds16(w);
    }
  }

  // ---- The walk ----

  /** As MOVEC leaves them. */
  predicate Aligned(r: Registers) { r.urp % 512 == 0 && r.srp % 512 == 0 }

  /** The aligned start of a table of so many bytes. */
  function Cut512(w: bv32): bv32 { w - w % 512 }
  function Cut256(w: bv32): bv32 { w - w % 256 }
  function Cut128(w: bv32): bv32 { w - w % 128 }

  /** Descriptor i of a table. */
  function Nth(table: bv32, i: bv32): bv32 { table + 4 * i }

  /** Which 32 megabytes, 256 kilobytes, and page of 4 or 8 kilobytes an address lies in. */
  function RootNth(addr: bv32): bv32 { addr / 0x200_0000 }
  function PointerNth(addr: bv32): bv32 { addr / 0x4_0000 % 128 }
  function SmallNth(addr: bv32): bv32 { addr / 0x1000 % 64 }
  function LargeNth(addr: bv32): bv32 { addr / 0x2000 % 32 }

  function RootAt(base: bv32, addr: bv32): Loc { At(Nth(base, RootNth(addr))) }

  function PointerAt(word: bv32, addr: bv32): Loc { At(Nth(Cut512(word), PointerNth(addr))) }

  function SmallAt(word: bv32, addr: bv32): Loc { At(Nth(Cut256(word), SmallNth(addr))) }

  function LargeAt(word: bv32, addr: bv32): Loc { At(Nth(Cut128(word), LargeNth(addr))) }

  /** From the page descriptor on. */
  function PageNumbers(m: Memory, entry: Loc, protected: bool): Walk {
    if entry !in m then Fault(entry)
    else if m[entry] % 4 == 0 then NoPage
    else
      var desc := if m[entry] % 4 == 2 then At(m[entry] - m[entry] % 4) else entry;
      if desc !in m then Fault(desc) else Page(desc, protected)
  }

  /** The walk for an address. */
  function Walked(r: Registers, m: Memory, sys: bool, addr: bv32): Trail {
    var root := RootAt(if sys then r.srp else r.urp, addr);
    if root !in m then AtRoot(root, Fault(root))
    else if m[root] % 4 < 2 then AtRoot(root, NoTable)
    else
      var pointer := PointerAt(m[root], addr);
      if pointer !in m then AtPointer(root, pointer, Fault(pointer))
      else if m[pointer] % 4 < 2 then AtPointer(root, pointer, NoTable)
      else
        var entry := if r.tcrP then LargeAt(m[pointer], addr) else SmallAt(m[pointer], addr);
        AtPage(root, pointer, entry,
               PageNumbers(m, entry, Protected(m[root]) || Protected(m[pointer])))
  }

  lemma IndexNumbers(addr: bv32)
    ensures RootIndex(PageOf(addr)) == RootNth(addr) && RootNth(addr) <= 0x7f
    ensures PointerIndex(PageOf(addr)) == PointerNth(addr) && PointerNth(addr) <= 0x7f
    ensures SmallIndex(PageOf(addr)) == SmallNth(addr) && SmallNth(addr) <= 0x3f
    ensures LargeIndex(PageOf(addr)) == LargeNth(addr) && LargeNth(addr) <= 0x1f
  {
    NumberFacts.RootQuotient(addr);
    NumberFacts.RootSmall(addr);
    NumberFacts.PointerQuotient(addr);
    NumberFacts.PointerSmall(addr);
    NumberFacts.SmallQuotient(addr);
    NumberFacts.SmallSmall(addr);
    NumberFacts.LargeQuotient(addr);
    NumberFacts.LargeSmall(addr);
  }

  lemma PointerTableNumber(w: bv32)
    ensures PointerTable(w) == Cut512(w) && PointerTable(w) & 0x1ff == 0
  {
    NumberFacts.Cut512(w);
    NumberFacts.Low512(w);
  }

  lemma SmallTableNumber(w: bv32)
    ensures SmallTable(w) == Cut256(w) && SmallTable(w) & 0xff == 0
  {
    NumberFacts.Cut256(w);
    NumberFacts.Low256(w);
  }

  lemma LargeTableNumber(w: bv32)
    ensures LargeTable(w) == Cut128(w) && LargeTable(w) & 0x7f == 0
  {
    NumberFacts.Cut128(w);
    NumberFacts.Low128(w);
  }

  lemma NthOf512(table: bv32, i: bv32)
    requires table & 0x1ff == 0 && i <= 0x7f
    ensures Entry(table, i) == Nth(table, i)
  {
    NumberFacts.Add512(table, i);
  }

  lemma NthOf256(table: bv32, i: bv32)
    requires table & 0xff == 0 && i <= 0x3f
    ensures Entry(table, i) == Nth(table, i)
  {
    NumberFacts.Add256(table, i);
  }

  lemma NthOf128(table: bv32, i: bv32)
    requires table & 0x7f == 0 && i <= 0x1f
    ensures Entry(table, i) == Nth(table, i)
  {
    NumberFacts.Add128(table, i);
  }

  lemma NthRoot(r: Registers, sys: bool, i: bv32)
    requires Aligned(r) && i <= 0x7f
    ensures Entry(if sys then r.srp else r.urp, i) == Nth(if sys then r.srp else r.urp, i)
  {
    NumberFacts.Mod512(r.srp);
    NumberFacts.Mod512(r.urp);
    hide Entry, Nth;
    NthOf512(if sys then r.srp else r.urp, i);
  }

  lemma RootNumber(r: Registers, sys: bool, addr: bv32)
    requires Aligned(r)
    ensures RootEntry(r, sys, PageOf(addr)) == RootAt(if sys then r.srp else r.urp, addr)
  {
    hide RootIndex, RootNth, PageOf, Entry, Nth, Aligned;
    IndexNumbers(addr);
    NthRoot(r, sys, RootNth(addr));
  }

  lemma EntryNumbers(w: bv32, addr: bv32)
    ensures PointerEntry(w, PageOf(addr)) == PointerAt(w, addr)
    ensures SmallPageEntry(w, PageOf(addr)) == SmallAt(w, addr)
    ensures LargePageEntry(w, PageOf(addr)) == LargeAt(w, addr)
  {
    hide PointerIndex, SmallIndex, LargeIndex, PointerNth, SmallNth, LargeNth, PageOf, Entry, Nth, PointerTable,
         SmallTable, LargeTable, Cut512, Cut256, Cut128;
    IndexNumbers(addr);
    PointerTableNumber(w);
    SmallTableNumber(w);
    LargeTableNumber(w);
    NthOf512(PointerTable(w), PointerNth(addr));
    NthOf256(SmallTable(w), SmallNth(addr));
    NthOf128(LargeTable(w), LargeNth(addr));
  }

  lemma LowTypes(w: bv32)
    ensures w % 4 < 2 <==> !(w % 4 == 2 || w % 4 == 3)
  {}

  lemma PageLevelNumbers(m: Memory, entry: Loc, wp: bool)
    ensures PageLevel(m, entry, wp) == PageNumbers(m, entry, wp)
  {
    hide PageInvalid, PageIndirect, IndirectTarget;
    if entry in m {
      TypeNumbers(m[entry]);
    }
  }

  /** For every address, registers and memory: the descriptors that a walk reads, and where it ends. */
  lemma TrailNumbers(r: Registers, m: Memory, sys: bool, addr: bv32)
    requires Aligned(r)
    ensures TrailOf(r, m, sys, PageOf(addr)) == Walked(r, m, sys, addr)
  {
    hide RootEntry, PointerEntry, LargePageEntry, SmallPageEntry, RootAt, PointerAt, SmallAt, LargeAt, TableResident,
         WBit, PageOf, PageLevel, PageNumbers, Aligned;
    RootNumber(r, sys, addr);
    var root := RootAt(if sys then r.srp else r.urp, addr);
    if root in m {
      WordNumbers(m[root], addr);
      var pointer := PointerAt(m[root], addr);
      if pointer in m {
        WordNumbers(m[pointer], addr);
        var entry := if r.tcrP then LargeAt(m[pointer], addr) else SmallAt(m[pointer], addr);
        PageLevelNumbers(m, entry, Protected(m[root]) || Protected(m[pointer]));
      }
    }
  }

  lemma WordNumbers(w: bv32, addr: bv32)
    ensures TableResident(w) <==> !(w % 4 < 2)
    ensures WBit(w) <==> Protected(w)
    ensures PointerEntry(w, PageOf(addr)) == PointerAt(w, addr)
    ensures SmallPageEntry(w, PageOf(addr)) == SmallAt(w, addr)
    ensures LargePageEntry(w, PageOf(addr)) == LargeAt(w, addr)
  {
    hide PointerEntry, LargePageEntry, SmallPageEntry, PointerAt, SmallAt, LargeAt, TableResident, WBit, PageOf;
    TypeNumbers(w);
    LowTypes(w);
    BitNumbers(w);
    EntryNumbers(w, addr);
  }

  /** The slot of a page is given by its low four bits. */
  lemma IndexNumber(page: bv32)
    ensures Index(page) == (page % 16) as nat
  {
    assert page & 0xf == page % 16;
  }

  // ---- Transparent translation ----

  /** Bit by bit of the upper byte of an address: masked, or as in the register. */
  predicate ByteCovered(mask: bv8, base: bv8, top: bv8) {
    && (mask % 2 == 1 || base % 2 == top % 2)
    && (mask / 2 % 2 == 1 || base / 2 % 2 == top / 2 % 2)
    && (mask / 4 % 2 == 1 || base / 4 % 2 == top / 4 % 2)
    && (mask / 8 % 2 == 1 || base / 8 % 2 == top / 8 % 2)
    && (mask / 16 % 2 == 1 || base / 16 % 2 == top / 16 % 2)
    && (mask / 32 % 2 == 1 || base / 32 % 2 == top / 32 % 2)
    && (mask / 64 % 2 == 1 || base / 64 % 2 == top / 64 % 2)
    && (mask / 128 == 1 || base / 128 == top / 128)
  }

  function TopOf(addr: bv32): bv8 { (addr / 0x100_0000) as bv8 }

  /** A register covers an access when it is enabled, its S field is that of the access (0 user,
      1 supervisor, 2 and 3 either), and the upper byte agrees. */
  predicate Covers(t: Ttr, sys: bool, addr: bv32) {
    t.e && (t.s == 0 ==> !sys) && (t.s == 1 ==> sys) && ByteCovered(t.mask, t.base, TopOf(addr))
  }

  /** Data accesses look at DTT0 and DTT1, code accesses at ITT0 and ITT1. */
  predicate Transparent(r: Registers, sys: bool, addr: bv32, code: bool) {
    if code then Covers(r.ittr0, sys, addr) || Covers(r.ittr1, sys, addr)
    else Covers(r.dttr0, sys, addr) || Covers(r.dttr1, sys, addr)
  }

  /** The first register of the two that covers the access decides. */
  predicate TransparentProtected(r: Registers, sys: bool, addr: bv32, code: bool) {
    if code then (if Covers(r.ittr0, sys, addr) then r.ittr0.w else r.ittr1.w)
    else (if Covers(r.dttr0, sys, addr) then r.dttr0.w else r.dttr1.w)
  }

  lemma ByteBits(mask: bv8, base: bv8, top: bv8)
    ensures top & !mask == base & !mask <==> ByteCovered(mask, base, top)
  {
    NumberFacts.Covered(mask, base, top);
  }

  lemma TtrBits(t: Ttr, top: bv8)
    ensures TtrCovers(t, top) <==> ByteCovered(t.mask, t.base, top)
  {
    hide ByteCovered;
    ByteBits(t.mask, t.base, top);
  }

  lemma UpperByteIs(addr: bv32)
    ensures TtrByte(PageOf(addr)) == TopOf(addr)
  {
    assert ((addr >> 12) >> 12) & 0xff == addr / 0x100_0000;
  }

  lemma TtrCoversIff(t: Ttr, addr: bv32)
    ensures TtrCovers(t, TtrByte(PageOf(addr))) <==> ByteCovered(t.mask, t.base, TopOf(addr))
  {
    hide ByteCovered, PageOf, TtrByte, TopOf, TtrCovers;
    UpperByteIs(addr);
    TtrBits(t, TopOf(addr));
  }

  lemma TestTtrIff(t: Ttr, sys: bool, addr: bv32)
    ensures TestTtr(t, PageOf(addr), sys)
            == if Covers(t, sys, addr) then NO_RESULT.(R := true, T := true, W := t.w, paddr := PageOf(addr))
               else NO_RESULT
  {
    hide ByteCovered, PageOf, TtrByte, TopOf, TtrCovers;
    TtrCoversIff(t, addr);
    SpaceApart();
  }

  lemma SpaceApart()
    ensures 0 as bv8 != 1
  {}

  lemma TransparentIff(r: Registers, sys: bool, addr: bv32, code: bool)
    ensures var t := PtestTtr(r, PageOf(addr), sys, code);
            && (t.R <==> Transparent(r, sys, addr, code))
            && (t.R ==> t == NO_RESULT.(R := true, T := true, W := TransparentProtected(r, sys, addr, code),
                                        paddr := PageOf(addr)))
  {
    hide TestTtr, Covers, PageOf;
    TestTtrIff(if code then r.ittr0 else r.dttr0, sys, addr);
    TestTtrIff(if code then r.ittr1 else r.dttr1, sys, addr);
  }

  // ---- What an access comes to ----

  /** The bits of a frame and of an offset put together; bit 12 of the frame stays with 8K pages. */
  function FrameAndOffset(large: bool, pg: bv32, addr: bv32): bv32 {
    if large then pg / 0x2000 * 0x2000 + (if pg / 0x1000 % 2 == 1 || addr / 0x1000 % 2 == 1 then 0x1000 else 0)
                  + addr % 0x1000
    else pg / 0x1000 * 0x1000 + addr % 0x1000
  }

  lemma SmallFrame(pg: bv32, addr: bv32)
    ensures SmallPhys(pg >> 12, addr) == pg / 0x1000 * 0x1000 + addr % 0x1000
  {}

  lemma LargeFrame0(pg: bv32, addr: bv32)
    requires pg / 0x1000 % 2 == 0
    ensures LargePhys(pg >> 12, addr) == (pg & 0xFFFF_E000) | (addr & 0x1fff)
  {}

  lemma LargeFrame1(pg: bv32, addr: bv32)
    requires pg / 0x1000 % 2 == 1
    ensures LargePhys(pg >> 12, addr) == (pg & 0xFFFF_E000) | 0x1000 | (addr & 0xfff)
  {}

  lemma LowParts(pg: bv32, addr: bv32)
    ensures (pg & 0xFFFF_E000) | (addr & 0x1fff) == (pg & 0xFFFF_E000) | (addr & 0x1000) | (addr & 0xfff)
    ensures addr & 0x1000 == if addr / 0x1000 % 2 == 1 then 0x1000 else 0
    ensures pg & 0xFFFF_E000 == pg / 0x2000 * 0x2000
    ensures addr & 0xfff == addr % 0x1000
  {}

  lemma PartsAdd(f: bv32, o: bv32)
    requires f % 0x2000 == 0 && o < 0x1000
    ensures f | 0x1000 | o == f + 0x1000 + o
    ensures f | 0 | o == f + 0 + o
  {}

  lemma EvenPart(pg: bv32)
    ensures pg / 0x2000 * 0x2000 % 0x2000 == 0
    ensures pg % 0x1000 < 0x1000
    ensures pg / 0x1000 % 2 == 0 || pg / 0x1000 % 2 == 1
  {}

  lemma LargeOffset(pg: bv32, addr: bv32)
    ensures LargePhys(pg >> 12, addr)
            == pg / 0x2000 * 0x2000 + (if pg / 0x1000 % 2 == 1 || addr / 0x1000 % 2 == 1 then 0x1000 else 0)
               + addr % 0x1000
  {
    hide LargePhys;
    EvenPart(pg);
    EvenPart(addr);
    LowParts(pg, addr);
    PartsAdd(pg / 0x2000 * 0x2000, addr % 0x1000);
    if pg / 0x1000 % 2 == 0 {
      LargeFrame0(pg, addr);
    } else {
      LargeFrame1(pg, addr);
    }
  }

  lemma OwnAddress(large: bool, addr: bv32)
    ensures PhysAddr(large, PageOf(addr), addr) == addr
  {}

  /** The page may be accessed: it is there, a write meets W at no level, and user mode no S. */
  predicate Granted(m: Memory, w: Walk, sys: bool, write: bool) {
    && w.Page? && w.desc in m
    && (write ==> !w.wp && !Protected(m[w.desc]))
    && (Supervised(m[w.desc]) ==> sys)
  }

  /** What ptest_and_check comes to, on memory m: an address, or the error code. */
  function Outcome(r: Registers, m: Memory, sys: bool, addr: bv32, code: bool, write: bool): Checked {
    if Transparent(r, sys, addr, code) then
      if write && TransparentProtected(r, sys, addr, code) then Fail(0x400) else Phys(addr)
    else if !r.tcrE then Phys(addr)
    else
      var w := Walked(r, m, sys, addr).walk;
      if Granted(m, w, sys, write) then Phys(FrameAndOffset(r.tcrP, m[w.desc], addr))
      else if w.Fault? then Fail(0)
      else Fail(0x400)
  }

  /** The answer from a page, checked. */
  lemma CheckNumbers(r: Registers, m: Memory, w: Walk, res: MmuResult, sys: bool, write: bool, addr: bv32)
    requires Matches(m, w, res)
    ensures Check(r, res, sys, write, addr)
            == if Granted(m, w, sys, write) then Phys(FrameAndOffset(r.tcrP, m[w.desc], addr))
               else if w.Fault? then Fail(0) else Fail(0x400)
  {
    hide WBit, SBit, GBit, PhysAddr, FrameAndOffset, Protected, Supervised;
    if w.Page? {
      BitNumbers(m[w.desc]);
      PhysNumbers(r.tcrP, m[w.desc], addr);
    }
  }

  lemma PhysNumbers(large: bool, pg: bv32, addr: bv32)
    ensures PhysAddr(large, pg >> 12, addr) == FrameAndOffset(large, pg, addr)
  {
    SmallFrame(pg, addr);
    LargeOffset(pg, addr);
    hide SmallPhys, LargePhys;
  }

  /**
   Every access, read or write, to data or code, in user or supervisor mode: address or error code
   are those the numbers of the memory left give, unless the answer is a stale one.
   */
  lemma AccessOutcome(r: Registers, st: State, sys: bool, addr: bv32, code: bool, write: bool)
    requires LiveInv(r, st) && Aligned(r)
    requires r.tcrE && !Transparent(r, sys, addr, code) ==> !Stale(r, st, PageOf(addr), sys, code)
    ensures var (c, st') := PtestAndCheck(r, st, sys, addr, code, write);
            c == Outcome(r, st'.mem, sys, addr, code, write)
  {
    hide Ptest, PtestTtr, LiveInv, TrailOf, Walked, Matches, Granted, Check, PageOf, Stale, Transparent,
         TransparentProtected, FrameAndOffset, Aligned;
    LiveShape(r, st);
    TransparentIff(r, sys, addr, code);
    var page := PageOf(addr);
    if ByTables(r, page, sys, code) {
      LiveTransparent(r, st, page, sys, code, write);
      var (res, st') := Ptest(r, st, page, sys, code, write);
      TrailNumbers(r, st'.mem, sys, addr);
      CheckNumbers(r, st'.mem, WalkOf(r, st'.mem, sys, page), res, sys, write, addr);
    } else {
      DirectOutcome(r, st, sys, addr, code, write);
    }
  }

  lemma LiveShape(r: Registers, st: State)
    requires LiveInv(r, st)
    ensures Shaped(st.atc)
  {
    hide LiveBank, IndirectsApart;
  }

  /** Transparent and untranslated accesses. */
  lemma DirectOutcome(r: Registers, st: State, sys: bool, addr: bv32, code: bool, write: bool)
    requires Shaped(st.atc) && (Transparent(r, sys, addr, code) || !r.tcrE)
    ensures PtestAndCheck(r, st, sys, addr, code, write)
            == (if Transparent(r, sys, addr, code) && write && TransparentProtected(r, sys, addr, code) then Fail(0x400)
                else Phys(addr), st)
  {
    hide PtestTtr, PageOf, PhysAddr, Transparent, TransparentProtected, PtestTables;
    TransparentIff(r, sys, addr, code);
    OwnAddress(r.tcrP, addr);
  }

  // ---- What an answer says, and what a write leaves ----

  /** An answer from the page descriptor pg, in numbers. */
  predicate Answers(res: MmuResult, pg: bv32, wp: bool) {
    && res.paddr == pg / 0x1000 && res.Ux == pg / 0x100 % 4 && res.CM == pg / 0x20 % 4
    && (res.S <==> Supervised(pg)) && (res.G <==> Global(pg)) && (res.W <==> wp || Protected(pg))
  }

  lemma TakenNumbers(res: MmuResult, pg: bv32, wp: bool)
    ensures TakenFrom(res, pg, wp) == Answers(res, pg, wp)
  {
    hide WBit, SBit, GBit, Protected, Supervised, Global;
    BitNumbers(pg);
    FieldNumbers(pg);
  }

  /** The fields of an answer that is not stale, in the numbers of the descriptor. */
  lemma AnswerNumbers(r: Registers, st: State, sys: bool, addr: bv32, code: bool, write: bool)
    requires LiveInv(r, st) && Aligned(r) && ByTables(r, PageOf(addr), sys, code)
    requires !Stale(r, st, PageOf(addr), sys, code)
    ensures var (res, st') := Ptest(r, st, PageOf(addr), sys, code, write);
            var w := Walked(r, st'.mem, sys, addr).walk;
            && (res.R <==> w.Page?) && (res.B <==> w.Fault?)
            && (w.Page? ==> w.desc in st'.mem && Answers(res, st'.mem[w.desc], w.wp))
  {
    hide Ptest, PtestTtr, LiveBank, TrailOf, Walked, PageOf, Stale, Aligned, TakenFrom, Answers, IndirectsApart;
    var page := PageOf(addr);
    LiveTransparent(r, st, page, sys, code, write);
    var (res, st') := Ptest(r, st, page, sys, code, write);
    TrailNumbers(r, st'.mem, sys, addr);
    var w := WalkOf(r, st'.mem, sys, page);
    if w.Page? && w.desc in st'.mem {
      TakenNumbers(res, st'.mem[w.desc], w.wp);
    }
  }

  lemma FieldNumbers(pg: bv32)
    ensures pg >> 12 == pg / 0x1000 && (pg >> 8) & 3 == pg / 0x100 % 4 && (pg >> 5) & 3 == pg / 0x20 % 4
  {}

  /** A write let through, and not stale, leaves U and M in the descriptor, and met no protection. */
  lemma WriteNumbers(r: Registers, st: State, sys: bool, addr: bv32, code: bool)
    requires LiveInv(r, st) && Aligned(r) && ByTables(r, PageOf(addr), sys, code)
    requires !Stale(r, st, PageOf(addr), sys, code)
    requires PtestAndCheck(r, st, sys, addr, code, true).0.Phys?
    ensures var m := PtestAndCheck(r, st, sys, addr, code, true).1.mem;
            var w := Walked(r, m, sys, addr).walk;
            Granted(m, w, sys, true) && InUse(m[w.desc]) && Changed(m[w.desc])
  {
    hide Ptest, PtestTtr, LiveBank, TrailOf, Walked, PageOf, Stale, Aligned, WBit, SBit, UBit, MBit, IndirectsApart,
         PhysAddr, Protected, Supervised, InUse, Changed;
    var page := PageOf(addr);
    WriteIsModified(r, st, page, sys, code);
    var m := Ptest(r, st, page, sys, code, true).1.mem;
    TrailNumbers(r, m, sys, addr);
    var w := WalkOf(r, m, sys, page);
    BitNumbers(m[w.desc]);
  }
}
