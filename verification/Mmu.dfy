/**
 The MMU as the emulator runs it: descriptors marked in memory and slots overwritten
 in place.  Each method is tied to the function of Atc that states its effect.
 */
module Mmu {
  import opened Addresses
  import opened MmuTables
  import opened Atc
  import MmuStatus

  lemma EitherWBit(v: bv32, w: bv32)
    ensures (v | w) & 0x4 != 0 <==> WBit(v) || WBit(w)
  {}

  class Mmu {
    var mem: Memory
    var regs: Registers
    var dfc: bv8
    var mmusr: bv32
    const dUser: array<Slot>
    const dSys: array<Slot>
    const iUser: array<Slot>
    const iSys: array<Slot>

    ghost predicate Valid()
      reads this
    {
      dUser.Length == dSys.Length == iUser.Length == iSys.Length == 16 &&
      dUser != dSys && dUser != iUser && dUser != iSys && dSys != iUser && dSys != iSys && iUser != iSys
    }

    ghost function Banks(): set<object>
    {
      {dUser, dSys, iUser, iSys}
    }

    ghost function Contents(): State
      reads this, Banks()
    {
      State(mem, Caches(dUser[..], dSys[..], iUser[..], iSys[..]))
    }

    constructor (mem: Memory, regs: Registers, dfc: bv8)
      ensures Valid() && fresh(Banks())
      ensures this.mem == mem && this.regs == regs && this.dfc == dfc
      ensures forall j :: 0 <= j < 16 ==> !dUser[j].V && !dSys[j].V && !iUser[j].V && !iSys[j].V
      ensures forall j :: 0 <= j < 16 ==> !dUser[j].R && !dSys[j].R && !iUser[j].R && !iSys[j].R
    {
      var zero := Slot(0, false, false, 0, At(0), 0, false, 0, false, false, false);
      this.mem, this.regs, this.dfc := mem, regs, dfc;
      mmusr := 0;
      dUser := new Slot[16](_ => zero);
      dSys := new Slot[16](_ => zero);
      iUser := new Slot[16](_ => zero);
      iSys := new Slot[16](_ => zero);
    }

    method AtcSearchNotFound(atcp: array<Slot>, page: bv32)
      requires atcp.Length == 16
      modifies atcp
      ensures atcp[Index(page)] == NotFound(old(atcp[Index(page)]), page)
      ensures forall k :: 0 <= k < 16 && k != Index(page) ==> atcp[k] == old(atcp[k])
    {
      var j := Index(page);
      atcp[j] := atcp[j].(laddr := page);
      atcp[j] := atcp[j].(V := true);
      atcp[j] := atcp[j].(R := false);
    }

    /** ok is false when a bus error is thrown. */
    method AtcSet(atcp: array<Slot>, page: bv32, entry: Loc, write: bool, levelsW: bool, sys: bool) returns (ok: bool)
      requires atcp.Length == 16
      modifies this`mem, atcp
      ensures var s := Atc.AtcSet(old(mem), old(atcp[Index(page)]), page, entry, write, levelsW, sys);
              ok == s.ok && mem == s.mem && atcp[Index(page)] == s.slot
      ensures forall k :: 0 <= k < 16 && k != Index(page) ==> atcp[k] == old(atcp[k])
    {
      hide PageInvalid, PageIndirect, IndirectTarget, Used, Modified, WBit, SBit, MBit, GBit, Index, Fill;
      var pgAddr, wp := entry, levelsW;
      if pgAddr !in mem {
        return false;
      }
      var pg := mem[pgAddr];
      if PageInvalid(pg) {
        return true;
      } else if PageIndirect(pg) {
        pgAddr := IndirectTarget(pg);
        if pgAddr !in mem {
          return false;
        }
        pg := mem[pgAddr];
      }
      pg := Used(pg);
      wp := wp || WBit(pg);
      if !(wp && write) && !(SBit(pg) && !sys) {
        if !MBit(pg) && write {
          pg := Modified(pg);
        }
      }
      mem := mem[pgAddr := pg];
      atcp[Index(page)] := Fill(page, pgAddr, pg, wp);
      return true;
    }

    method PdtLookup(a: Loc) returns (l: Lookup)
      modifies this`mem
      ensures l == Atc.PdtLookup(old(mem), a)
      ensures mem == if l.Found? then old(mem)[a := l.word] else old(mem)
    {
      if a !in mem {
        return BusError;
      }
      var urp := mem[a];
      if !TableResident(urp) {
        return Absent;
      }
      urp := Used(urp);
      mem := mem[a := urp];
      return Found(urp);
    }

    method AtcSearch(atcp: array<Slot>, page: bv32, sys: bool, write: bool) returns (ok: bool)
      requires atcp.Length == 16
      modifies this`mem, atcp
      ensures var s := Atc.AtcSearch(regs, old(mem), old(atcp[Index(page)]), page, sys, write);
              ok == s.ok && mem == s.mem && atcp[Index(page)] == s.slot
      ensures forall k :: 0 <= k < 16 && k != Index(page) ==> atcp[k] == old(atcp[k])
    {
      hide Atc.AtcSet, Used, TableResident, RootEntry, PointerEntry, PageEntry, Index, WBit;
      var urp := PdtLookup(RootEntry(regs, sys, page));
      if urp.BusError? {
        return false;
      }
      if urp.Absent? {
        AtcSearchNotFound(atcp, page);
        return true;
      }
      var pt := PdtLookup(PointerEntry(urp.word, page));
      if pt.BusError? {
        return false;
      }
      if pt.Absent? {
        AtcSearchNotFound(atcp, page);
        return true;
      }
      EitherWBit(urp.word, pt.word);
      ok := AtcSet(atcp, page, PageEntry(regs, pt.word, page), write, (urp.word | pt.word) & 0x4 != 0, sys);
    }

    /** The end of ptest, on the slot found or filled. */
    method Finish(atcp: array<Slot>, page: bv32, sys: bool, code: bool, write: bool) returns (re: MmuResult)
      requires Valid()
      requires atcp == if code then (if sys then iSys else iUser) else (if sys then dSys else dUser)
      modifies this`mem, atcp
      ensures (re, Contents()) == Atc.Finish(old(mem), old(Contents()).atc, code, sys, page, write)
    {
      hide Index, Modified;
      var j := Index(page);
      if MustModify(atcp[j], sys, write) {
        if atcp[j].pgAddr !in mem {
          return NO_RESULT.(B := true);
        }
        mem := mem[atcp[j].pgAddr := Modified(mem[atcp[j].pgAddr])];
        atcp[j] := atcp[j].(M := true);
      }
      re := SlotResult(atcp[j]);
    }

    method Ptest(page: bv32, sys: bool, code: bool, write: bool) returns (re: MmuResult)
      requires Valid()
      modifies this`mem, Banks()
      ensures (re, Contents()) == Atc.Ptest(regs, old(Contents()), page, sys, code, write)
    {
      hide Atc.AtcSearch, PtestTtr, Index, Atc.Finish;
      var pret := PtestTtr(regs, page, sys, code);
      if pret.R {
        if pret.W && write {
          return NO_RESULT;
        } else {
          return pret;
        }
      }
      if !regs.tcrE {
        return NO_RESULT.(R := true, paddr := page);
      }
      var atcp := if code then (if sys then iSys else iUser) else (if sys then dSys else dUser);
      var j := Index(page);
      if !(atcp[j].V && atcp[j].laddr == page) {
        ghost var bank := atcp[..];
        var ok := AtcSearch(atcp, page, sys, write);
        assert atcp[..] == bank[j := atcp[j]];
        if !ok {
          assert atcp[..] == bank;
          return NO_RESULT.(B := true);
        }
      }
      re := Finish(atcp, page, sys, code, write);
    }

    /** The physical address, or the code of the PTestError that is thrown. */
    method PtestAndCheck(sys: bool, addr: bv32, code: bool, write: bool) returns (result: Checked)
      requires Valid()
      modifies this`mem, Banks()
      ensures (result, Contents()) == Atc.PtestAndCheck(regs, old(Contents()), sys, addr, code, write)
    {
      hide Atc.Ptest, PhysAddr;
      var ret := Ptest(PageOf(addr), sys, code, write);
      if ret.B {
        return Fail(0);
      }
      if !ret.R {
        return Fail(SSW_ATC);
      }
      if ret.W && write {
        return Fail(SSW_ATC);
      }
      if ret.S && !sys {
        return Fail(SSW_ATC);
      }
      return Phys(PhysAddr(regs.tcrP, ret.paddr, addr));
    }

    // ---- Flushes ----

    method DropPage(atcp: array<Slot>, f: Flush, page: bv32)
      requires atcp.Length == 16 && (f == OnePage(page) || f == OnePageNonGlobal(page))
      modifies atcp
      ensures atcp[..] == FlushBank(f, old(atcp[..]))
    {
      hide Index;
      var j := Index(page);
      if atcp[j].laddr == page && (f.OnePage? || !atcp[j].G) {
        atcp[j] := atcp[j].(V := false);
      }
    }

    method Pflush(page: bv32)
      requires Valid()
      modifies Banks()
      ensures Contents().atc == FlushCaches(OnePage(page), dfc, old(Contents()).atc)
    {
      hide FlushBank;
      DropPage(dSys, OnePage(page), page);
      DropPage(iSys, OnePage(page), page);
      if dfc == 1 || dfc == 2 {
        DropPage(dUser, OnePage(page), page);
        DropPage(iUser, OnePage(page), page);
      }
    }

    method Pflushn(page: bv32)
      requires Valid()
      modifies Banks()
      ensures Contents().atc == FlushCaches(OnePageNonGlobal(page), dfc, old(Contents()).atc)
    {
      hide FlushBank;
      DropPage(dSys, OnePageNonGlobal(page), page);
      DropPage(iSys, OnePageNonGlobal(page), page);
      if dfc == 1 || dfc == 2 {
        DropPage(dUser, OnePageNonGlobal(page), page);
        DropPage(iUser, OnePageNonGlobal(page), page);
      }
    }

    /** One bank's share of the loop of pflusha and pflushan. */
    method DropAll(atcp: array<Slot>, f: Flush)
      requires atcp.Length == 16 && (f.All? || f.AllNonGlobal?)
      modifies atcp
      ensures atcp[..] == FlushBank(f, old(atcp[..]))
    {
      for j := 0 to 16
        invariant forall k :: 0 <= k < 16 ==> atcp[k] == if k < j then FlushSlot(f, k, old(atcp[k])) else old(atcp[k])
      {
        if f.All? || !atcp[j].G {
          atcp[j] := atcp[j].(V := false);
        }
      }
    }

    /** pflusha (every entry) and pflushan (entries that are not global). */
    method PflushAll(f: Flush)
      requires Valid() && (f.All? || f.AllNonGlobal?)
      modifies Banks()
      ensures Contents().atc == FlushCaches(f, dfc, old(Contents()).atc)
    {
      hide FlushBank;
      DropAll(dSys, f);
      DropAll(iSys, f);
      if dfc == 1 || dfc == 2 {
        DropAll(dUser, f);
        DropAll(iUser, f);
      }
    }

    /** op_ptest: the slot of the page dropped, the page translated, and MMUSR set to the result. */
    method OpPtest(addr: bv32, write: bool)
      requires Valid()
      modifies this`mem, this`mmusr, Banks()
      ensures !ProbeSpace(dfc) ==> Contents() == old(Contents()) && mmusr == old(mmusr)
      ensures ProbeSpace(dfc) ==>
                var st := old(Contents());
                var page, sys, code := PageOf(addr), ProbeSys(dfc), ProbeCode(dfc);
                var (re, st') := Atc.Ptest(regs, State(st.mem, Dropped(st.atc, code, sys, page)), page, sys, code,
                                           write);
                Contents() == st' && mmusr == MmuStatus.Packed(re)
    {
      hide Atc.Ptest, Index, MmuStatus.Packed;
      if !ProbeSpace(dfc) {
        return;
      }
      var page := PageOf(addr);
      var j := Index(page);
      var re: MmuResult;
      if dfc == 1 {
        dUser[j] := dUser[j].(V := false);
        re := Ptest(page, false, false, write);
      } else if dfc == 2 {
        iUser[j] := iUser[j].(V := false);
        re := Ptest(page, false, true, write);
      } else if dfc == 5 {
        dSys[j] := dSys[j].(V := false);
        re := Ptest(page, true, false, write);
      } else {
        iSys[j] := iSys[j].(V := false);
        re := Ptest(page, true, true, write);
      }
      mmusr := MmuStatus.Packed(re);
    }
  }
}
