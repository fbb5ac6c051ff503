/**
 The address translation caches: four direct-mapped caches of sixteen slots, the
 table search that fills them and marks descriptors on the way, and the flushes.
 Everything here is a function from one state to the next; class Mmu (Mmu.dfy)
 does the same in place.
 */
module Atc {
  import opened Addresses
  import opened MmuTables

  datatype Slot = Slot(laddr: bv32, V: bool, G: bool, paddr: bv32, pgAddr: Loc,
                       U: bv32, S: bool, CM: bv32, M: bool, W: bool, R: bool)

  datatype MmuResult = MmuResult(paddr: bv32, Ux: bv32, CM: bv32,
                                 R: bool, T: bool, W: bool, M: bool, S: bool, G: bool, B: bool)

  const NO_RESULT := MmuResult(0, 0, 0, false, false, false, false, false, false, false)

  /** d_atc[0], d_atc[1], i_atc[0], i_atc[1]. */
  datatype Caches = Caches(dUser: seq<Slot>, dSys: seq<Slot>, iUser: seq<Slot>, iSys: seq<Slot>)

  datatype State = State(mem: Memory, atc: Caches)

  predicate Shaped(c: Caches) {
    |c.dUser| == 16 && |c.dSys| == 16 && |c.iUser| == 16 && |c.iSys| == 16
  }

  function Index(page: bv32): (j: nat)
    ensures j < 16
  {
    (page & 0xf) as nat
  }

  function Bank(c: Caches, code: bool, sys: bool): seq<Slot> {
    if code then (if sys then c.iSys else c.iUser) else (if sys then c.dSys else c.dUser)
  }

  function Get(c: Caches, code: bool, sys: bool, page: bv32): Slot
    requires Shaped(c)
  {
    Bank(c, code, sys)[Index(page)]
  }

  function Put(c: Caches, code: bool, sys: bool, page: bv32, e: Slot): (c': Caches)
    requires Shaped(c)
    ensures Shaped(c')
  {
    if code then
      if sys then c.(iSys := c.iSys[Index(page) := e]) else c.(iUser := c.iUser[Index(page) := e])
    else
      if sys then c.(dSys := c.dSys[Index(page) := e]) else c.(dUser := c.dUser[Index(page) := e])
  }

  // ---- Transparent translation ----

  /** The part of a page number that a transparent translation register looks at. */
  function TtrByte(page: bv32): bv8 { ((page >> 12) & 0xff) as bv8 }

  predicate TtrCovers(t: Ttr, base: bv8) { base & !t.mask == t.base & !t.mask }

  function TestTtr(t: Ttr, page: bv32, sys: bool): MmuResult {
    if !t.e || (t.s == 0 && sys) || (t.s == 1 && !sys) then NO_RESULT
    else if TtrCovers(t, TtrByte(page)) then NO_RESULT.(R := true, T := true, W := t.w, paddr := page)
    else NO_RESULT
  }

  function PtestTtr(r: Registers, page: bv32, sys: bool, code: bool): MmuResult {
    var first := TestTtr(if code then r.ittr0 else r.dttr0, page, sys);
    if first.R then first else TestTtr(if code then r.ittr1 else r.dttr1, page, sys)
  }

  // ---- Table search ----

  datatype Lookup = BusError | Absent | Found(word: bv32)

  function PdtLookup(m: Memory, a: Loc): Lookup {
    if a !in m then BusError
    else if !TableResident(m[a]) then Absent
    else Found(Used(m[a]))
  }

  function NotFound(e: Slot, page: bv32): Slot {
    e.(laddr := page, V := true, R := false)
  }

  function Fill(page: bv32, pgAddr: Loc, pg: bv32, wp: bool): Slot {
    Slot(page, true, GBit(pg), pg >> 12, pgAddr, (pg >> 8) & 3, SBit(pg), (pg >> 5) & 3, MBit(pg), wp, true)
  }

  /** The descriptor as a search leaves it: Used, and Modified by a write that is allowed. */
  function MarkDescriptor(word: bv32, write: bool, wp: bool, sys: bool): bv32 {
    var pg := Used(word);
    if !(wp && write) && !(SBit(pg) && !sys) && !MBit(pg) && write then Modified(pg) else pg
  }

  /** What a search does: memory with marks, the new contents of the slot, or a bus error. */
  datatype Search = Search(ok: bool, mem: Memory, slot: Slot)

  function AtcSet(m: Memory, e: Slot, page: bv32, entry: Loc, write: bool, wp: bool, sys: bool): (s: Search)
    ensures !s.ok ==> s.slot == e
  {
    if entry !in m then Search(false, m, e)
    else if PageInvalid(m[entry]) then Search(true, m, e)
    else
      var pgAddr := Descriptor(entry, m[entry]);
      if pgAddr !in m then Search(false, m, e)
      else
        var wp' := wp || WBit(Used(m[pgAddr]));
        var pg := MarkDescriptor(m[pgAddr], write, wp', sys);
        Search(true, m[pgAddr := pg], Fill(page, pgAddr, pg, wp'))
  }

  function SearchPointer(r: Registers, m: Memory, e: Slot, page: bv32, sys: bool, write: bool, urp: bv32): (s: Search)
    ensures !s.ok ==> s.slot == e
  {
    var pointer := PointerEntry(urp, page);
    match PdtLookup(m, pointer)
    case BusError => Search(false, m, e)
    case Absent => Search(true, m, NotFound(e, page))
    case Found(pt) =>
      AtcSet(m[pointer := pt], e, page, PageEntry(r, pt, page), write, WBit(urp) || WBit(pt), sys)
  }

  function AtcSearch(r: Registers, m: Memory, e: Slot, page: bv32, sys: bool, write: bool): (s: Search)
    ensures !s.ok ==> s.slot == e
  {
    var root := RootEntry(r, sys, page);
    match PdtLookup(m, root)
    case BusError => Search(false, m, e)
    case Absent => Search(true, m, NotFound(e, page))
    case Found(urp) => SearchPointer(r, m[root := urp], e, page, sys, write, urp)
  }

  // ---- ptest ----

  predicate Hit(e: Slot, page: bv32) {
    e.V && e.laddr == page
  }

  predicate MustModify(e: Slot, sys: bool, write: bool) {
    e.R && write && !e.W && !e.M && !(e.S && !sys)
  }

  function SlotResult(e: Slot): MmuResult {
    MmuResult(e.paddr, e.U, e.CM, e.R, false, e.W, e.M, e.S, e.G, false)
  }

  /** The last part of ptest, on the slot found or filled. */
  function Finish(m: Memory, c: Caches, code: bool, sys: bool, page: bv32, write: bool): (result: (MmuResult, State))
    requires Shaped(c)
    ensures Shaped(result.1.atc)
  {
    var e := Get(c, code, sys, page);
    if MustModify(e, sys, write) then
      // A bus error here leaves ptest as an exception; ptest_and_check sees the same code 0 as for B.
      if e.pgAddr !in m then (NO_RESULT.(B := true), State(m, c))
      else
        var e' := e.(M := true);
        (SlotResult(e'), State(m[e.pgAddr := Modified(m[e.pgAddr])], Put(c, code, sys, page, e')))
    else (SlotResult(e), State(m, c))
  }

  /** Is the translation done by the caches and tables at all? */
  predicate ByTables(r: Registers, page: bv32, sys: bool, code: bool) {
    r.tcrE && !PtestTtr(r, page, sys, code).R
  }

  function PtestTables(r: Registers, st: State, page: bv32, sys: bool, code: bool, write: bool)
      : (result: (MmuResult, State))
    requires Shaped(st.atc)
    ensures Shaped(result.1.atc)
  {
    var e := Get(st.atc, code, sys, page);
    if Hit(e, page) then Finish(st.mem, st.atc, code, sys, page, write)
    else
      var s := AtcSearch(r, st.mem, e, page, sys, write);
      if s.ok then Finish(s.mem, Put(st.atc, code, sys, page, s.slot), code, sys, page, write)
      else (NO_RESULT.(B := true), State(s.mem, st.atc))
  }

  function Ptest(r: Registers, st: State, page: bv32, sys: bool, code: bool, write: bool): (result: (MmuResult, State))
    requires Shaped(st.atc)
    ensures Shaped(result.1.atc)
  {
    var t := PtestTtr(r, page, sys, code);
    if t.R then ((if t.W && write then NO_RESULT else t), st)
    else if !r.tcrE then (NO_RESULT.(R := true, paddr := page), st)
    else PtestTables(r, st, page, sys, code, write)
  }

  // ---- ptest_and_check ----

  const SSW_MA: bv16 := 0x800
  const SSW_ATC: bv16 := 0x400

  function PageOf(addr: bv32): bv32 { addr >> 12 }

  /** A physical address, or the code of the PTestError that is thrown. */
  datatype Checked = Phys(a: bv32) | Fail(ssw: bv16)

  function LargePhys(frame: bv32, addr: bv32): bv32 {
    ((frame << 12) & 0xFFFF_FFFE) | (addr & 0x1fff)
  }

  function SmallPhys(frame: bv32, addr: bv32): bv32 {
    (frame << 12) | (addr & 0xfff)
  }

  function PhysAddr(large: bool, frame: bv32, addr: bv32): bv32 {
    if large then LargePhys(frame, addr) else SmallPhys(frame, addr)
  }

  /** May the access go ahead? */
  predicate Permits(res: MmuResult, sys: bool, write: bool) {
    !res.B && res.R && !(res.W && write) && !(res.S && !sys)
  }

  function Check(r: Registers, res: MmuResult, sys: bool, write: bool, addr: bv32): Checked {
    if Permits(res, sys, write) then Phys(PhysAddr(r.tcrP, res.paddr, addr))
    else if res.B then Fail(0) else Fail(SSW_ATC)
  }

  function PtestAndCheck(r: Registers, st: State, sys: bool, addr: bv32, code: bool, write: bool)
      : (result: (Checked, State))
    requires Shaped(st.atc)
    ensures Shaped(result.1.atc)
  {
    var (res, st') := Ptest(r, st, PageOf(addr), sys, code, write);
    (Check(r, res, sys, write, addr), st')
  }

  // ---- op_ptest ----

  /** op_ptest drops the slot before it translates. */
  function Dropped(c: Caches, code: bool, sys: bool, page: bv32): (c': Caches)
    requires Shaped(c)
    ensures Shaped(c')
  {
    Put(c, code, sys, page, Get(c, code, sys, page).(V := false))
  }

  predicate ProbeSpace(dfc: bv8) { dfc == 1 || dfc == 2 || dfc == 5 || dfc == 6 }
  predicate ProbeSys(dfc: bv8) { dfc == 5 || dfc == 6 }
  predicate ProbeCode(dfc: bv8) { dfc == 2 || dfc == 6 }

  // ---- Flushes: pflush, pflushn, pflusha, pflushan ----

  datatype Flush = OnePage(page: bv32) | OnePageNonGlobal(page: bv32) | All | AllNonGlobal

  predicate FlushesUser(dfc: bv8) { dfc == 1 || dfc == 2 }

  /** Does the flush look at slot j, and does it drop what it finds there? */
  predicate Drops(f: Flush, j: nat, e: Slot) {
    match f
    case OnePage(page) => j == Index(page) && e.laddr == page
    case OnePageNonGlobal(page) => j == Index(page) && e.laddr == page && !e.G
    case All => true
    case AllNonGlobal => !e.G
  }

  function FlushSlot(f: Flush, j: nat, e: Slot): Slot {
    if Drops(f, j, e) then e.(V := false) else e
  }

  function FlushBank(f: Flush, b: seq<Slot>): (b': seq<Slot>)
    ensures |b'| == |b|
    ensures forall j :: 0 <= j < |b| ==> b'[j] == FlushSlot(f, j, b[j])
  {
    seq(|b|, j requires 0 <= j < |b| => FlushSlot(f, j, b[j]))
  }

  function FlushCaches(f: Flush, dfc: bv8, c: Caches): (c': Caches)
    requires Shaped(c)
    ensures Shaped(c')
  {
    if FlushesUser(dfc) then
      Caches(FlushBank(f, c.dUser), FlushBank(f, c.dSys), FlushBank(f, c.iUser), FlushBank(f, c.iSys))
    else Caches(c.dUser, FlushBank(f, c.dSys), c.iUser, FlushBank(f, c.iSys))
  }
}
