/**
 Writes and the Modified flag: no write goes through the tables without the flag in
 memory, and the flag is set only for a write that may go ahead.
 */
module AtcWrites {
  import opened Addresses
  import opened MmuTables
  import opened Atc
  import opened AtcInvariant
  import opened AtcTheorems
  import opened AtcLive

  // ---- A permitted write leaves Used and Modified set ----

  lemma FinishModified(r: Registers, m: Memory, c: Caches, code: bool, sys: bool, page: bv32)
    requires CachesOk(r, m, c) && IndirectsApart(r, m) && Hit(Get(c, code, sys, page), page)
    requires Permits(Finish(m, c, code, sys, page, true).0, sys, true)
    ensures var st' := Finish(m, c, code, sys, page, true).1;
            var e := Get(st'.atc, code, sys, page);
            Hit(e, page) && e.R && e.M && !e.W && !(e.S && !sys)
  {
    hide BankOk, IndirectsApart, Index, Modified;
    PutGet(c, code, sys, page, Get(c, code, sys, page).(M := true));
  }

  /** The page descriptor in memory has Used and Modified, no level of the walk is write
      protected, and a supervisor page is accessed by the supervisor. */
  predicate WriteCovered(m: Memory, w: Walk, sys: bool) {
    && w.Page? && w.desc in m && UBit(m[w.desc]) && MBit(m[w.desc])
    && !w.wp && !WBit(m[w.desc]) && (SBit(m[w.desc]) ==> sys)
  }

  lemma WriteCounted(r: Registers, st: State, page: bv32, sys: bool, code: bool)
    requires Inv(r, st) && ByTables(r, page, sys, code) && !Stale(r, st, page, sys, code)
    requires Permits(Ptest(r, st, page, sys, code, true).0, sys, true)
    ensures var m := Ptest(r, st, page, sys, code, true).1.mem; WriteCovered(m, WalkOf(r, m, sys, page), sys)
  {
    hide Finish, AtcSearch, BankOk, IndirectsApart, Index, PtestTtr, TrailOf, Kept, Fill, Indirect, UBit, MBit, WBit,
         SBit, GBit;
    var e := Get(st.atc, code, sys, page);
    var st' := Ptest(r, st, page, sys, code, true).1;
    PtestInv(r, st, page, sys, code, true);
    PtestTransparent(r, st, page, sys, code, true);
    if Hit(e, page) {
      FinishModified(r, st.mem, st.atc, code, sys, page);
    } else {
      SearchedCachesOk(r, st, page, sys, code, true);
      var s := AtcSearch(r, st.mem, e, page, sys, true);
      var c := Put(st.atc, code, sys, page, s.slot);
      PutGet(st.atc, code, sys, page, s.slot);
      if WalkOf(r, st.mem, sys, page) == NoPage {
        FinishNoPage(r, s.mem, c, code, sys, page, true);
      } else {
        FillHits(r, st.mem, e, page, sys, s);
        FinishModified(r, s.mem, c, code, sys, page);
      }
    }
    GetOk(r, st'.mem, st'.atc, code, sys, page);
  }

  /** The same with every entry in order. */
  lemma CoveredIff(r: Registers, st: State, page: bv32, sys: bool, code: bool)
    requires Inv(r, st) && ByTables(r, page, sys, code)
    requires Permits(Ptest(r, st, page, sys, code, true).0, sys, true)
    ensures var m := Ptest(r, st, page, sys, code, true).1.mem;
            WriteCovered(m, WalkOf(r, m, sys, page), sys) <==> !Stale(r, st, page, sys, code)
  {
    hide Ptest, BankOk, IndirectsApart, Index, PtestTtr, TrailOf, Kept, UBit, MBit, WBit, SBit, Get;
    if Stale(r, st, page, sys, code) {
      PtestInv(r, st, page, sys, code, true);
      WalkStable(r, st.mem, Ptest(r, st, page, sys, code, true).1.mem, sys, page);
    } else {
      WriteCounted(r, st, page, sys, code);
    }
  }

  /** After a stale answer out of an entry that is not valid the page still has no descriptor. */
  lemma LeftoverNoPage(r: Registers, st: State, page: bv32, sys: bool, code: bool, write: bool)
    requires LiveInv(r, st) && ByTables(r, page, sys, code) && Leftover(r, st, page, sys, code)
    ensures WalkOf(r, Ptest(r, st, page, sys, code, write).1.mem, sys, page) == NoPage
  {
    hide Ptest, PtestTtr, Get, AtcSearch, Put, LiveBank, IndirectsApart, Kept, TrailOf, Modified, MarkOf, Leftover;
    var e := Get(st.atc, code, sys, page);
    LeftoverStage(r, st, page, sys, code, write);
    var m := AtcSearch(r, st.mem, e, page, sys, write).mem;
    if MustModify(e, sys, write) && e.pgAddr in m {
      ModifiedMark(m[e.pgAddr]);
      NoPageStays(r, m, e.pgAddr, Modified(m[e.pgAddr]), sys, page);
    }
  }

  /** Whenever a write is let through by the tables, on a hit or on a miss, the page is covered
      in this sense, if and only if the answer is not a stale one.  Nothing is asked of the entries
      that are not valid. */
  lemma WriteIsModified(r: Registers, st: State, page: bv32, sys: bool, code: bool)
    requires LiveInv(r, st) && ByTables(r, page, sys, code)
    requires Permits(Ptest(r, st, page, sys, code, true).0, sys, true)
    ensures var m := Ptest(r, st, page, sys, code, true).1.mem;
            WriteCovered(m, WalkOf(r, m, sys, page), sys) <==> !Stale(r, st, page, sys, code)
  {
    hide Ptest, PtestTtr, Get, LiveBank, BankOk, IndirectsApart, TrailOf, UBit, MBit, WBit, SBit, Cleared;
    if Leftover(r, st, page, sys, code) {
      LeftoverNoPage(r, st, page, sys, code, true);
    } else {
      PtestCleared(r, st, page, sys, code, true);
      GetCleared(st.atc, code, sys, page);
      LiveCleared(r, st);
      CoveredIff(r, State(st.mem, Cleared(st.atc)), page, sys, code);
    }
  }

  // ---- Modified is set only for a permitted write ----

  lemma UsedBits(v: bv32)
    ensures MBit(Used(v)) == MBit(v) && SBit(Used(v)) == SBit(v) && WBit(Used(v)) == WBit(v)
  {}

  lemma ModifiedBits(v: bv32)
    ensures SBit(Modified(v)) == SBit(v)
  {}

  /** If a search has newly set Modified in word w, then the slot it filled is for w and
      the access was a write its attributes allow. */
  predicate NewMBySlot(s: Search, sys: bool, write: bool, w: Loc) {
    w in s.mem && (MBit(s.mem[w]) ==>
      s.ok && s.slot.R && s.slot.pgAddr == w && s.slot.M && write && !s.slot.W && !(s.slot.S && !sys))
  }

  lemma AtcSetNewM(m: Memory, e: Slot, page: bv32, entry: Loc, write: bool, wp: bool, sys: bool, w: Loc)
    requires w in m && !MBit(m[w])
    ensures NewMBySlot(AtcSet(m, e, page, entry, write, wp, sys), sys, write, w)
  {
    hide PageInvalid, Used, Modified, MBit, SBit, WBit, GBit, Descriptor;
    if entry in m {
      var desc := Descriptor(entry, m[entry]);
      if desc in m {
        UsedBits(m[desc]);
        ModifiedBits(Used(m[desc]));
      }
    }
  }

  lemma SearchPointerNewM(r: Registers, m: Memory, e: Slot, page: bv32, sys: bool, write: bool, urp: bv32, w: Loc)
    requires w in m && !MBit(m[w])
    ensures NewMBySlot(SearchPointer(r, m, e, page, sys, write, urp), sys, write, w)
  {
    hide TableResident, Used, MBit, SBit, WBit, GBit, AtcSet, PointerEntry, PageEntry;
    var pointer := PointerEntry(urp, page);
    if pointer in m && TableResident(m[pointer]) {
      var pt := Used(m[pointer]);
      UsedBits(m[pointer]);
      AtcSetNewM(m[pointer := pt], e, page, PageEntry(r, pt, page), write, WBit(urp) || WBit(pt), sys, w);
    }
  }

  lemma AtcSearchNewM(r: Registers, m: Memory, e: Slot, page: bv32, sys: bool, write: bool, w: Loc)
    requires w in m && !MBit(m[w])
    ensures NewMBySlot(AtcSearch(r, m, e, page, sys, write), sys, write, w)
  {
    hide TableResident, Used, MBit, SearchPointer, RootEntry, NewMBySlot;
    var root := RootEntry(r, sys, page);
    NoNewM(m, NotFound(e, page), sys, write, w);
    NoNewM(m, e, sys, write, w);
    if root in m && TableResident(m[root]) {
      UsedBits(m[root]);
      SearchPointerNewM(r, m[root := Used(m[root])], e, page, sys, write, Used(m[root]), w);
    }
  }

  lemma NoNewM(m: Memory, e: Slot, sys: bool, write: bool, w: Loc)
    requires w in m && !MBit(m[w])
    ensures forall ok: bool :: NewMBySlot(Search(ok, m, e), sys, write, w)
  {
    hide MBit;
  }

  lemma FinishNewM(m: Memory, c: Caches, code: bool, sys: bool, page: bv32, write: bool, w: Loc)
    requires Shaped(c) && w in m
    requires var e := Get(c, code, sys, page);
             MBit(m[w]) ==> e.R && e.pgAddr == w && write && !e.W && !(e.S && !sys)
    ensures var (res, st') := Finish(m, c, code, sys, page, write);
            w in st'.mem && (MBit(st'.mem[w]) ==>
              write && Permits(res, sys, write) && Get(st'.atc, code, sys, page).pgAddr == w)
  {
    hide Index, MBit, Modified, Put, Get;
    PutGet(c, code, sys, page, Get(c, code, sys, page).(M := true));
  }

  /** A Modified flag appears in memory only during a write that is let through, in the
      descriptor of the slot that lets it through. */
  lemma ModifiedOnlyByWrite(r: Registers, st: State, sys: bool, addr: bv32, code: bool, write: bool, w: Loc)
    requires Shaped(st.atc) && w in st.mem && !MBit(st.mem[w])
    ensures var (res, st') := PtestAndCheck(r, st, sys, addr, code, write);
            w in st'.mem && (MBit(st'.mem[w]) ==>
              write && res.Phys? && Get(st'.atc, code, sys, PageOf(addr)).pgAddr == w)
  {
    hide AtcSearch, Index, PtestTtr, MBit, PhysAddr, Put, Get, Finish, Permits;
    var page := PageOf(addr);
    var e := Get(st.atc, code, sys, page);
    if ByTables(r, page, sys, code) {
      if Hit(e, page) {
        FinishNewM(st.mem, st.atc, code, sys, page, write, w);
      } else {
        AtcSearchNewM(r, st.mem, e, page, sys, write, w);
        var s := AtcSearch(r, st.mem, e, page, sys, write);
        PutGet(st.atc, code, sys, page, s.slot);
        if s.ok {
          FinishNewM(s.mem, Put(st.atc, code, sys, page, s.slot), code, sys, page, write, w);
        }
      }
    }
  }

  // ---- 8K pages ----

  lemma LargeFrameEven(frame: bv32)
    requires frame & 1 == 0
    ensures (frame << 12) & 0xFFFF_FFFE == frame << 12 && frame & 0xFFFF_FFFE == frame
  {}

  lemma LargeFrameOdd(frame: bv32)
    requires frame & 1 != 0
    ensures (frame << 12) & 0xFFFF_FFFE == ((frame & 0xFFFF_FFFE) << 12) | 0x1000
  {}

  lemma LargeFrameBit(f: bv32, addr: bv32)
    requires f & 0x1fff == 0
    ensures (f | 0x1000) | (addr & 0x1fff) == f | (addr & 0x1fff) <==> addr & 0x1000 != 0
  {
    if addr & 0x1000 != 0 {
      assert 0x1000 | (addr & 0x1fff) == addr & 0x1fff;
    } else {
      assert ((f | 0x1000) | (addr & 0x1fff)) & 0x1000 != (f | (addr & 0x1fff)) & 0x1000;
    }
  }

  /** With 8K pages the frame has to be even for the result to be the frame plus the
      13-bit offset: the code masks a bit that is always clear. */
  lemma LargeFrame(frame: bv32, addr: bv32)
    ensures PhysAddr(true, frame, addr) == ((frame & 0xFFFF_FFFE) << 12) | (addr & 0x1fff)
            <==> frame & 1 == 0 || addr & 0x1000 != 0
  {
    if frame & 1 == 0 {
      LargeFrameEven(frame);
    } else {
      LargeFrameOdd(frame);
      LargeFrameBase(frame);
      LargeFrameBit((frame & 0xFFFF_FFFE) << 12, addr);
    }
  }

  lemma LargeFrameBase(frame: bv32)
    ensures ((frame & 0xFFFF_FFFE) << 12) & 0x1fff == 0
  {}
}
