/**
 What holds of the caches in every reachable state, and what one translation does
 to memory, to the caches and to every other translation.
 */
module AtcInvariant {
  import opened Addresses
  import opened MmuTables
  import opened Atc

  // ---- The invariant ----

  /** What a slot says of the descriptor it was filled from. */
  predicate FilledFrom(e: Slot, pg: bv32, wp: bool) {
    && UBit(pg) && (e.M ==> MBit(pg))
    && e.paddr == pg >> 12 && e.U == (pg >> 8) & 3 && e.CM == (pg >> 5) & 3
    && e.S == SBit(pg) && e.G == GBit(pg) && e.W == (wp || WBit(pg))
  }

  /** A resident slot holds what a walk finds in memory.  The cached Modified flag may
      lag behind the one in memory, because two slots can share a descriptor. */
  predicate Agrees(m: Memory, w: Walk, e: Slot) {
    w.Page? && w.desc in m && e.pgAddr == w.desc && FilledFrom(e, m[w.desc], w.wp)
  }

  /** Slot j of a bank.  A flushed slot keeps its R and its descriptor address, and a
      later search that stops at an invalid page descriptor uses them again. */
  ghost predicate SlotOk(r: Registers, m: Memory, sys: bool, j: nat, e: Slot) {
    && (e.V || e.R ==> Index(e.laddr) == j)
    && (e.V && e.R ==> Agrees(m, WalkOf(r, m, sys, e.laddr), e))
    && (e.V && !e.R ==> WalkOf(r, m, sys, e.laddr) == NoTable)
    && (e.R ==> e.pgAddr in m && !Indirect(r, m, e.pgAddr))
  }

  ghost predicate BankOk(r: Registers, m: Memory, sys: bool, b: seq<Slot>) {
    forall j :: 0 <= j < |b| ==> SlotOk(r, m, sys, j, b[j])
  }

  ghost predicate CachesOk(r: Registers, m: Memory, c: Caches) {
    Shaped(c) && BankOk(r, m, false, c.dUser) && BankOk(r, m, true, c.dSys) &&
    BankOk(r, m, false, c.iUser) && BankOk(r, m, true, c.iSys)
  }

  ghost predicate Inv(r: Registers, st: State) {
    CachesOk(r, st.mem, st.atc) && IndirectsApart(r, st.mem)
  }

  // ---- Marks ----

  lemma UsedMark(v: bv32)
    ensures MarkOf(v, Used(v)) && UBit(Used(v))
  {}

  lemma ModifiedMark(v: bv32)
    ensures MarkOf(v, Modified(v)) && MBit(Modified(v))
    ensures UBit(Modified(v)) == UBit(v)
  {}

  lemma DescriptorMark(v: bv32, write: bool, wp: bool, sys: bool)
    ensures MarkOf(v, MarkDescriptor(v, write, wp, sys)) && UBit(MarkDescriptor(v, write, wp, sys))
  {
    hide Used, Modified, MarkOf, SBit, MBit, UBit;
    UsedMark(v);
    ModifiedMark(Used(v));
    MarkTransitive(v, Used(v), Modified(Used(v)));
  }

  lemma MarkTransitive(u: bv32, v: bv32, w: bv32)
    requires MarkOf(u, v) && MarkOf(v, w)
    ensures MarkOf(u, w)
  {}

  // ---- The search ----

  /** What AtcSet does, given that the walk in m gets as far as the page level. */
  lemma AtcSetWalk(m: Memory, e: Slot, page: bv32, entry: Loc, write: bool, wp: bool, sys: bool)
    ensures var s := AtcSet(m, e, page, entry, write, wp, sys);
            match PageLevel(m, entry, wp)
            case Page(desc, _) =>
              && s.ok && desc in m && s.mem == m[desc := s.mem[desc]]
              && MarkOf(m[desc], s.mem[desc]) && UBit(s.mem[desc])
              && s.slot == Fill(page, desc, s.mem[desc], wp || WBit(m[desc]))
            case _ => s.mem == m && s.slot == e && s.ok == PageLevel(m, entry, wp).NoPage?
  {
    hide PageInvalid, MarkOf, UBit, WBit, Used, MarkDescriptor, Fill;
    var w := PageLevel(m, entry, wp);
    if w.Page? {
      UsedMark(m[w.desc]);
      WBitOf(m[w.desc], Used(m[w.desc]));
      DescriptorMark(m[w.desc], write, wp || WBit(Used(m[w.desc])), sys);
    }
  }

  lemma WBitOf(v: bv32, w: bv32)
    requires MarkOf(v, w)
    ensures WBit(v) == WBit(w)
  {}

  /** What a search does, in terms of the walk on the memory it started from. */
  ghost predicate SearchedAsWalked(r: Registers, m: Memory, e: Slot, page: bv32, w: Walk, s: Search) {
    Kept(r, m, s.mem) &&
    match w
    case Fault(_) => !s.ok && s.slot == e
    case NoTable => s.ok && s.slot == NotFound(e, page)
    case NoPage => s.ok && s.slot == e
    case Page(desc, wp) =>
      s.ok && desc in s.mem && UBit(s.mem[desc]) && s.slot == Fill(page, desc, s.mem[desc], wp || WBit(s.mem[desc]))
  }

  lemma AtcSetSearched(r: Registers, m: Memory, e: Slot, page: bv32, sys: bool, write: bool)
    requires IndirectsApart(r, m)
    requires var t := TrailOf(r, m, sys, page);
             t.AtPage? && t.root in m && t.pointer in m
    ensures var t := TrailOf(r, m, sys, page);
            SearchedAsWalked(r, m, e, page, t.walk,
                             AtcSet(m, e, page, t.entry, write, WBit(m[t.root]) || WBit(m[t.pointer]), sys))
  {
    hide MarkOf, UBit, WBit, AtcSet, Fill, PageInvalid, RootEntry, TableResident, PointerEntry, PageEntry, Indirect;
    var t := TrailOf(r, m, sys, page);
    AtcSetWalk(m, e, page, t.entry, write, WBit(m[t.root]) || WBit(m[t.pointer]), sys);
    var s := AtcSet(m, e, page, t.entry, write, WBit(m[t.root]) || WBit(m[t.pointer]), sys);
    if t.walk.Page? {
      assert Marks(t, t.walk.desc);
      MarkKept(r, m, t.walk.desc, s.mem[t.walk.desc]);
      WBitOf(m[t.walk.desc], s.mem[t.walk.desc]);
    } else {
      KeptReflexive(r, m);
    }
  }

  lemma KeptReflexive(r: Registers, m: Memory)
    ensures Kept(r, m, m)
  {}

  /** Setting Used in a descriptor on the trail leaves all walks where they are. */
  lemma UseKept(r: Registers, m: Memory, sys: bool, page: bv32, w: Loc)
    requires IndirectsApart(r, m) && w in m && Marks(TrailOf(r, m, sys, page), w)
    ensures Kept(r, m, m[w := Used(m[w])]) && IndirectsApart(r, m[w := Used(m[w])])
  {
    hide MarkOf, Used, UBit, TrailOf, Marks, Indirect;
    UsedMark(m[w]);
    MarkKept(r, m, w, Used(m[w]));
    ApartStable(r, m, m[w := Used(m[w])]);
  }

  lemma SearchedAfter(r: Registers, m: Memory, m': Memory, e: Slot, page: bv32, w: Walk, s: Search)
    requires Kept(r, m, m') && SearchedAsWalked(r, m', e, page, w, s)
    ensures SearchedAsWalked(r, m, e, page, w, s)
  {
    hide Kept;
    KeptTransitive(r, m, m', s.mem);
  }

  lemma SearchPointerWalk(r: Registers, m: Memory, e: Slot, page: bv32, sys: bool, write: bool)
    requires IndirectsApart(r, m)
    requires RootEntry(r, sys, page) in m && TableResident(m[RootEntry(r, sys, page)])
    ensures SearchedAsWalked(r, m, e, page, WalkOf(r, m, sys, page),
                             SearchPointer(r, m, e, page, sys, write, m[RootEntry(r, sys, page)]))
  {
    hide MarkOf, UBit, WBit, AtcSet, Fill, PageLevel, RootEntry, PointerEntry, PageEntry, Kept, IndirectsApart,
         TableResident, Used;
    KeptReflexive(r, m);
    var t := TrailOf(r, m, sys, page);
    if t.AtPage? {
      var m' := m[t.pointer := Used(m[t.pointer])];
      UseKept(r, m, sys, page, t.pointer);
      WalkStable(r, m, m', sys, page);
      assert TrailOf(r, m', sys, page) == t;
      AtcSetSearched(r, m', e, page, sys, write);
      UsedMark(m[t.root]);
      WBitOf(m[t.root], Used(m[t.root]));
      assert WBit(m'[t.root]) == WBit(m[t.root]);
      SearchedAfter(r, m, m', e, page, t.walk,
                    AtcSet(m', e, page, t.entry, write, WBit(m'[t.root]) || WBit(m'[t.pointer]), sys));
    }
  }

  /** The search writes into the tables it walks and still finds what a walk on the
      tables it started from finds. */
  lemma AtcSearchWalk(r: Registers, m: Memory, e: Slot, page: bv32, sys: bool, write: bool)
    requires IndirectsApart(r, m)
    ensures SearchedAsWalked(r, m, e, page, WalkOf(r, m, sys, page), AtcSearch(r, m, e, page, sys, write))
  {
    hide MarkOf, UBit, WBit, SearchPointer, Fill, PageLevel, RootEntry, PointerEntry, Kept, IndirectsApart,
         TableResident, Used;
    KeptReflexive(r, m);
    var root := RootEntry(r, sys, page);
    if root in m && TableResident(m[root]) {
      var m' := m[root := Used(m[root])];
      UseKept(r, m, sys, page, root);
      WalkStable(r, m, m', sys, page);
      ResidentUsed(m[root]);
      SearchPointerWalk(r, m', e, page, sys, write);
      SearchedAfter(r, m, m', e, page, WalkOf(r, m, sys, page), SearchPointer(r, m', e, page, sys, write, m'[root]));
    }
  }

  lemma ResidentUsed(v: bv32)
    ensures TableResident(Used(v)) == TableResident(v)
  {}

  // ---- Slots ----

  lemma FilledKept(e: Slot, pg: bv32, pg': bv32, wp: bool)
    requires MarkOf(pg, pg') && FilledFrom(e, pg, wp)
    ensures FilledFrom(e, pg', wp)
  {
    hide UBit, MBit, WBit, SBit, GBit, Same;
    SameAttributes(pg, pg');
  }

  lemma AgreesKept(r: Registers, m: Memory, m': Memory, sys: bool, e: Slot)
    requires Kept(r, m, m') && Agrees(m, WalkOf(r, m, sys, e.laddr), e)
    ensures Agrees(m', WalkOf(r, m', sys, e.laddr), e)
  {
    hide FilledFrom, TrailOf, MarkOf, Indirect;
    WalkStable(r, m, m', sys, e.laddr);
    var w := WalkOf(r, m, sys, e.laddr);
    assert Reads(TrailOf(r, m, sys, e.laddr), w.desc);
    FilledKept(e, m[w.desc], m'[w.desc], w.wp);
  }

  lemma SlotKept(r: Registers, m: Memory, m': Memory, sys: bool, j: nat, e: Slot)
    requires Kept(r, m, m') && SlotOk(r, m, sys, j, e)
    ensures SlotOk(r, m', sys, j, e)
  {
    hide TrailOf, Indirect, Index, Agrees;
    WalkStable(r, m, m', sys, e.laddr);
    IndirectStable(r, m, m', e.pgAddr);
    if e.V && e.R {
      AgreesKept(r, m, m', sys, e);
    }
  }

  lemma CachesKept(r: Registers, m: Memory, m': Memory, c: Caches)
    requires Kept(r, m, m') && CachesOk(r, m, c)
    ensures CachesOk(r, m', c)
  {
    hide SlotOk, Kept;
    forall sys: bool, j: nat, e: Slot | SlotOk(r, m, sys, j, e) ensures SlotOk(r, m', sys, j, e) {
      SlotKept(r, m, m', sys, j, e);
    }
  }

  lemma PutOk(r: Registers, m: Memory, c: Caches, code: bool, sys: bool, page: bv32, e: Slot)
    requires CachesOk(r, m, c) && SlotOk(r, m, sys, Index(page), e)
    ensures CachesOk(r, m, Put(c, code, sys, page, e))
  {
    hide SlotOk, Index;
  }

  lemma GetOk(r: Registers, m: Memory, c: Caches, code: bool, sys: bool, page: bv32)
    requires CachesOk(r, m, c)
    ensures SlotOk(r, m, sys, Index(page), Get(c, code, sys, page))
  {
    hide SlotOk, Index;
  }

  /** A slot filled from a resident page. */
  lemma FillOk(r: Registers, m: Memory, sys: bool, page: bv32)
    requires IndirectsApart(r, m)
    requires var w := WalkOf(r, m, sys, page); w.Page? && w.desc in m && UBit(m[w.desc])
    ensures var w := WalkOf(r, m, sys, page);
            SlotOk(r, m, sys, Index(page), Fill(page, w.desc, m[w.desc], w.wp || WBit(m[w.desc])))
  {
    hide UBit, MBit, WBit, SBit, GBit, TrailOf, Indirect, Index;
    var t := TrailOf(r, m, sys, page);
    assert Marks(t, t.walk.desc);
  }

  /** The slot a search leaves is good for the memory it leaves. */
  lemma SearchedSlotOk(r: Registers, m: Memory, e: Slot, page: bv32, sys: bool, s: Search)
    requires IndirectsApart(r, m) && SlotOk(r, m, sys, Index(page), e)
    requires SearchedAsWalked(r, m, e, page, WalkOf(r, m, sys, page), s)
    ensures IndirectsApart(r, s.mem) && SlotOk(r, s.mem, sys, Index(page), s.slot)
  {
    hide UBit, WBit, TrailOf, Kept, Indirect, Index, Fill, Agrees;
    ApartStable(r, m, s.mem);
    SlotKept(r, m, s.mem, sys, Index(page), e);
    WalkStable(r, m, s.mem, sys, page);
    if WalkOf(r, m, sys, page).Page? {
      FillOk(r, s.mem, sys, page);
    }
  }

  /** Finishing a translation on a good slot. */
  lemma FinishOk(r: Registers, m: Memory, c: Caches, code: bool, sys: bool, page: bv32, write: bool)
    requires CachesOk(r, m, c) && IndirectsApart(r, m)
    ensures var (res, st) := Finish(m, c, code, sys, page, write);
            && Inv(r, st) && Kept(r, m, st.mem)
            && (st.atc == c || st.atc == Put(c, code, sys, page, Get(c, code, sys, page).(M := true)))
            && res == SlotResult(Get(st.atc, code, sys, page))
  {
    hide Modified, MBit, MarkOf, UBit, WBit, SBit, GBit, TrailOf, Kept, Indirect, Index, BankOk, IndirectsApart, Agrees;
    var e := Get(c, code, sys, page);
    GetOk(r, m, c, code, sys, page);
    if MustModify(e, sys, write) {
      var m' := m[e.pgAddr := Modified(m[e.pgAddr])];
      ModifiedMark(m[e.pgAddr]);
      MarkKept(r, m, e.pgAddr, m'[e.pgAddr]);
      ApartStable(r, m, m');
      CachesKept(r, m, m', c);
      SlotKept(r, m, m', sys, Index(page), e);
      ModifiedSlotOk(r, m', sys, Index(page), e);
      PutOk(r, m', c, code, sys, page, e.(M := true));
    } else {
      KeptReflexive(r, m);
    }
  }

  lemma ModifiedSlotOk(r: Registers, m: Memory, sys: bool, j: nat, e: Slot)
    requires SlotOk(r, m, sys, j, e) && e.R && MBit(m[e.pgAddr])
    ensures SlotOk(r, m, sys, j, e.(M := true))
  {
    hide TrailOf, Indirect, Index, UBit, MBit, WBit, SBit, GBit;
  }

  /** Every translation keeps the invariant, and keeps every walk. */
  lemma PtestInv(r: Registers, st: State, page: bv32, sys: bool, code: bool, write: bool)
    requires Inv(r, st)
    ensures var st' := Ptest(r, st, page, sys, code, write).1;
            Inv(r, st') && Kept(r, st.mem, st'.mem)
  {
    hide Finish, AtcSearch, SearchedAsWalked, Kept, IndirectsApart, BankOk, PtestTtr, Hit;
    KeptReflexive(r, st.mem);
    var e := Get(st.atc, code, sys, page);
    if Hit(e, page) {
      FinishOk(r, st.mem, st.atc, code, sys, page, write);
    } else {
      var s := AtcSearch(r, st.mem, e, page, sys, write);
      SearchedCachesOk(r, st, page, sys, code, write);
      if s.ok {
        var c := Put(st.atc, code, sys, page, s.slot);
        FinishOk(r, s.mem, c, code, sys, page, write);
        KeptTransitive(r, st.mem, s.mem, Finish(s.mem, c, code, sys, page, write).1.mem);
      }
    }
  }

  lemma SearchedCachesOk(r: Registers, st: State, page: bv32, sys: bool, code: bool, write: bool)
    requires Inv(r, st)
    ensures var s := AtcSearch(r, st.mem, Get(st.atc, code, sys, page), page, sys, write);
            && SearchedAsWalked(r, st.mem, Get(st.atc, code, sys, page), page, WalkOf(r, st.mem, sys, page), s)
            && Kept(r, st.mem, s.mem) && IndirectsApart(r, s.mem)
            && CachesOk(r, s.mem, st.atc) && CachesOk(r, s.mem, Put(st.atc, code, sys, page, s.slot))
  {
    hide AtcSearch, Kept, IndirectsApart, BankOk, Fill, NotFound, TrailOf, SlotOk, Index;
    var e := Get(st.atc, code, sys, page);
    AtcSearchWalk(r, st.mem, e, page, sys, write);
    GetOk(r, st.mem, st.atc, code, sys, page);
    var s := AtcSearch(r, st.mem, e, page, sys, write);
    SearchedSlotOk(r, st.mem, e, page, sys, s);
    CachesKept(r, st.mem, s.mem, st.atc);
    PutOk(r, s.mem, st.atc, code, sys, page, s.slot);
  }
}
