/**
 When a translation keeps every walk: a condition on the state before it, with no assumption
 about the tables.
 */
module AtcStability {
  import opened Addresses
  import opened MmuTables
  import opened Atc
  import opened AtcInvariant
  import opened AtcTheorems
  import opened AtcMarks

  // ---- The words a translation will mark ----

  /** The root descriptor, if the search will set its U bit. */
  predicate RootMark(t: Trail, m: Memory, w: Loc) { !t.AtRoot? && w == t.root && w in m && !UBit(m[w]) }

  predicate PointerMark(t: Trail, m: Memory, w: Loc) { t.AtPage? && w == t.pointer && w in m && !UBit(m[w]) }

  /** The page descriptor, if the search will set its U bit or, for a write that may go ahead, its M bit. */
  predicate PageMark(t: Trail, m: Memory, sys: bool, write: bool, w: Loc) {
    t.walk.Page? && w == t.walk.desc && w in m &&
    (!UBit(m[w]) || (!MBit(m[w]) && MayModify(t.walk.wp || WBit(m[w]), SBit(m[w]), sys, write)))
  }

  predicate MayModify(wp: bool, s: bool, sys: bool, write: bool) { write && !wp && !(s && !sys) }

  /** The descriptor a slot remembers, if its M bit will be set after the search. */
  predicate LateMark(e: Slot, m: Memory, sys: bool, write: bool, w: Loc) {
    MustModify(e, sys, write) && w == e.pgAddr && w in m && !MBit(m[w])
  }

  /** Will a search of the page mark w? */
  predicate SearchMark(t: Trail, m: Memory, sys: bool, write: bool, w: Loc) {
    RootMark(t, m, w) || PointerMark(t, m, w) || PageMark(t, m, sys, write, w)
  }

  /** Will a translation newly set a bit in w? */
  predicate NewlyMarked(r: Registers, st: State, page: bv32, sys: bool, code: bool, write: bool, w: Loc)
    requires Shaped(st.atc)
  {
    var e := Get(st.atc, code, sys, page);
    var t := TrailOf(r, st.mem, sys, page);
    ByTables(r, page, sys, code) &&
    if Hit(e, page) then LateMark(e, st.mem, sys, write, w)
    else SearchMark(t, st.mem, sys, write, w) || (t.walk == NoPage && LateMark(e, st.mem, sys, write, w))
  }

  // ---- Marks in sequence ----

  /** Do the marks of m' leave the indirect descriptors of m alone? */
  ghost predicate Spares(r: Registers, m: Memory, m': Memory) {
    m'.Keys == m.Keys && forall w: Loc :: w in m && Indirect(r, m, w) ==> m'[w] == m[w]
  }

  lemma MarksAgree(v: bv32, w: bv32)
    requires MarkOf(v, w) && MarkOf(w, v)
    ensures v == w
  {}

  /** Marks only set bits, so a mark on an indirect descriptor is not undone. */
  lemma Spoilt(r: Registers, m: Memory, m1: Memory, m': Memory, w: Loc)
    requires OnlyMarks(m, m1) && OnlyMarks(m1, m') && w in m && Indirect(r, m, w) && m1[w] != m[w]
    ensures !Spares(r, m, m')
  {
    hide MarkOf, Indirect;
    if m'[w] == m[w] {
      MarksAgree(m[w], m1[w]);
    }
  }

  /** A mark that spares them leaves the question to the marks after it. */
  lemma SparedFirst(r: Registers, m: Memory, m1: Memory, m': Memory)
    requires Kept(r, m, m1) && m'.Keys == m.Keys
    ensures Spares(r, m, m') <==> Spares(r, m1, m')
  {
    hide Indirect, Reads, TrailOf;
    forall w: Loc ensures Indirect(r, m1, w) == Indirect(r, m, w) {
      IndirectStable(r, m, m1, w);
    }
  }

  lemma KeptSpares(r: Registers, m: Memory, m': Memory)
    requires Kept(r, m, m')
    ensures Spares(r, m, m')
  {}

  /** One word given the value v. */
  lemma OneSpared(r: Registers, m: Memory, w: Loc, v: bv32)
    requires w in m && MarkOf(m[w], v)
    ensures OnlyMarks(m, m[w := v])
    ensures Spares(r, m, m[w := v]) <==> v == m[w] || !Indirect(r, m, w)
    ensures Spares(r, m, m[w := v]) ==> Kept(r, m, m[w := v])
  {
    hide Indirect, Reads, TrailOf, MarkOf;
    OneMark(m, w, v);
    if v == m[w] {
      assert m[w := v] == m;
      KeptReflexive(r, m);
    } else if !Indirect(r, m, w) {
      MarkKept(r, m, w, v);
    }
  }

  lemma UsedNew(v: bv32)
    ensures Used(v) == v <==> UBit(v)
    ensures MBit(Used(v)) == MBit(v) && SBit(Used(v)) == SBit(v) && WBit(Used(v)) == WBit(v)
    ensures UBit(Used(v))
  {}

  lemma ModifiedNew(v: bv32)
    ensures Modified(v) == v <==> MBit(v)
    ensures MBit(Modified(v)) && UBit(Modified(v)) == UBit(v)
    ensures SBit(Modified(v)) == SBit(v) && WBit(Modified(v)) == WBit(v)
  {}

  lemma DescriptorNew(v: bv32, write: bool, wp: bool, sys: bool)
    ensures MarkDescriptor(v, write, wp, sys) == v <==> UBit(v) && (MBit(v) || !MayModify(wp, SBit(v), sys, write))
    ensures var pg := MarkDescriptor(v, write, wp, sys);
            SBit(pg) == SBit(v) && (MayModify(wp, SBit(v), sys, write) ==> MBit(pg))
  {
    hide Used, Modified, UBit, MBit, SBit, WBit;
    UsedNew(v);
    ModifiedNew(Used(v));
  }

  // ---- The three levels ----

  /** The search has found what the walk finds, and leaves no late M behind. */
  ghost predicate SearchFine(r: Registers, m: Memory, e: Slot, page: bv32, sys: bool, write: bool, w: Walk, s: Search) {
    SearchedAsWalked(r, m, e, page, w, s) && (w.Page? ==> !MustModify(s.slot, sys, write))
  }

  lemma SetWrites(m: Memory, e: Slot, page: bv32, entry: Loc, write: bool, wp: bool, sys: bool)
    requires PageLevel(m, entry, wp).Page?
    ensures var d := PageLevel(m, entry, wp).desc;
            var s := AtcSet(m, e, page, entry, write, wp, sys);
            d in m && s.mem[d] == MarkDescriptor(m[d], write, wp || WBit(m[d]), sys)
  {
    hide PageInvalid, UBit, WBit, Used, MarkDescriptor, Fill;
    UsedNew(m[PageLevel(m, entry, wp).desc]);
  }

  lemma FilledSettled(page: bv32, d: Loc, v: bv32, write: bool, wp: bool, sys: bool)
    ensures !MustModify(Fill(page, d, MarkDescriptor(v, write, wp, sys), wp), sys, write)
  {
    hide MarkDescriptor, GBit, SBit, MBit;
    DescriptorNew(v, write, wp, sys);
  }

  lemma TrailPage(r: Registers, m: Memory, sys: bool, page: bv32)
    requires var t := TrailOf(r, m, sys, page); t.AtPage? && t.root in m && t.pointer in m
    ensures var t := TrailOf(r, m, sys, page);
            t.walk == PageLevel(m, t.entry, WBit(m[t.root]) || WBit(m[t.pointer]))
  {
    hide WBit, RootEntry, TableResident, PointerEntry, PageEntry, PageLevel;
  }

  lemma LevelIs(m: Memory, entry: Loc, wp: bool)
    ensures PageLevel(m, entry, wp).Page? ==> PageLevel(m, entry, wp).wp == wp
    ensures !PageLevel(m, entry, wp).NoTable?
  {
    hide PageInvalid, Descriptor;
  }

  /** The page level that finds a descriptor. */
  lemma PageFound(r: Registers, m: Memory, t: Trail, e: Slot, page: bv32, wp: bool, sys: bool, write: bool)
    requires t.AtPage? && t.walk == PageLevel(m, t.entry, wp) && t.walk.Page?
    ensures var s := AtcSet(m, e, page, t.entry, write, wp, sys);
            && (Spares(r, m, s.mem) <==> forall w :: PageMark(t, m, sys, write, w) ==> !Indirect(r, m, w))
            && (Spares(r, m, s.mem) ==> SearchFine(r, m, e, page, sys, write, t.walk, s))
  {
    hide MarkOf, UBit, WBit, MBit, SBit, AtcSet, Fill, PageLevel, Indirect, MarkDescriptor, Kept, OnlyMarks, Spares,
         MayModify, MustModify, TrailOf;
    var d := t.walk.desc;
    LevelIs(m, t.entry, wp);
    AtcSetWalk(m, e, page, t.entry, write, wp, sys);
    var s := AtcSet(m, e, page, t.entry, write, wp, sys);
    SetWrites(m, e, page, t.entry, write, wp, sys);
    OneSpared(r, m, d, s.mem[d]);
    DescriptorNew(m[d], write, wp || WBit(m[d]), sys);
    WBitOf(m[d], s.mem[d]);
    FilledSettled(page, d, m[d], write, wp || WBit(m[d]), sys);
    assert forall w :: PageMark(t, m, sys, write, w) ==> w == d;
  }

  lemma PageStage(r: Registers, m: Memory, e: Slot, page: bv32, sys: bool, write: bool)
    requires var t := TrailOf(r, m, sys, page); t.AtPage? && t.root in m && t.pointer in m
    ensures var t := TrailOf(r, m, sys, page);
            var s := AtcSet(m, e, page, t.entry, write, WBit(m[t.root]) || WBit(m[t.pointer]), sys);
            && OnlyMarks(m, s.mem)
            && (Spares(r, m, s.mem) <==> forall w :: PageMark(t, m, sys, write, w) ==> !Indirect(r, m, w))
            && (Spares(r, m, s.mem) ==> SearchFine(r, m, e, page, sys, write, t.walk, s))
  {
    hide MarkOf, UBit, WBit, MBit, SBit, AtcSet, Fill, PageLevel, TrailOf, Indirect, Kept, OnlyMarks, Spares,
         MayModify, MustModify;
    var t := TrailOf(r, m, sys, page);
    var wp := WBit(m[t.root]) || WBit(m[t.pointer]);
    TrailPage(r, m, sys, page);
    AtcSetMarks(m, e, page, t.entry, write, wp, sys);
    if t.walk.Page? {
      PageFound(r, m, t, e, page, wp, sys, write);
    } else {
      LevelIs(m, t.entry, wp);
      AtcSetWalk(m, e, page, t.entry, write, wp, sys);
      KeptReflexive(r, m);
      KeptSpares(r, m, m);
    }
  }

  /** Setting U in one word takes that word's own U mark away and no other mark. */
  lemma PageMarkAfter(t: Trail, m: Memory, p: Loc, sys: bool, write: bool, w: Loc)
    requires p in m
    ensures PageMark(t, m[p := Used(m[p])], sys, write, w) ==> PageMark(t, m, sys, write, w)
    ensures PageMark(t, m, sys, write, w) && !(w == p && !UBit(m[p])) ==> PageMark(t, m[p := Used(m[p])], sys, write, w)
  {
    hide Used, UBit, MBit, SBit, WBit, MayModify;
    UsedNew(m[p]);
  }

  lemma PointerMarkAfter(t: Trail, m: Memory, p: Loc, w: Loc)
    requires p in m
    ensures PointerMark(t, m[p := Used(m[p])], w) ==> PointerMark(t, m, w)
    ensures PointerMark(t, m, w) && !(w == p && !UBit(m[p])) ==> PointerMark(t, m[p := Used(m[p])], w)
  {
    hide Used, UBit;
    UsedNew(m[p]);
  }

  /** The first mark hits an indirect descriptor, or leaves the walks to the marks after it. */
  lemma FirstMark(r: Registers, m: Memory, p: Loc, m': Memory)
    requires p in m && OnlyMarks(m[p := Used(m[p])], m')
    ensures var m1 := m[p := Used(m[p])];
            && OnlyMarks(m, m1)
            && OnlyMarks(m, m')
            && (!UBit(m[p]) && Indirect(r, m, p) ==> !Spares(r, m, m'))
            && (!(!UBit(m[p]) && Indirect(r, m, p)) ==> Kept(r, m, m1) && (Spares(r, m, m') <==> Spares(r, m1, m')))
  {
    hide MarkOf, Used, UBit, Indirect, Kept;
    var m1 := m[p := Used(m[p])];
    UsedMark(m[p]);
    UsedNew(m[p]);
    OneSpared(r, m, p, Used(m[p]));
    MarksAgain(m, m1, m');
    if !UBit(m[p]) && Indirect(r, m, p) {
      Spoilt(r, m, m1, m', p);
    } else {
      SparedFirst(r, m, m1, m');
    }
  }

  lemma FineAfter(r: Registers, m: Memory, m': Memory, e: Slot, page: bv32, sys: bool, write: bool, w: Walk, s: Search)
    requires Kept(r, m, m') && SearchFine(r, m', e, page, sys, write, w, s)
    ensures SearchFine(r, m, e, page, sys, write, w, s)
  {
    hide Kept, SearchedAsWalked, MustModify;
    SearchedAfter(r, m, m', e, page, w, s);
  }

  lemma PointerStage(r: Registers, m: Memory, e: Slot, page: bv32, sys: bool, write: bool)
    requires RootEntry(r, sys, page) in m && TableResident(m[RootEntry(r, sys, page)])
    ensures var t := TrailOf(r, m, sys, page);
            var s := SearchPointer(r, m, e, page, sys, write, m[RootEntry(r, sys, page)]);
            && OnlyMarks(m, s.mem)
            && (Spares(r, m, s.mem)
                <==> forall w :: PointerMark(t, m, w) || PageMark(t, m, sys, write, w) ==> !Indirect(r, m, w))
            && (Spares(r, m, s.mem) ==> SearchFine(r, m, e, page, sys, write, t.walk, s))
  {
    hide MarkOf, UBit, WBit, AtcSet, PageLevel, RootEntry, PointerEntry, PageEntry, Kept, TableResident, Used,
         OnlyMarks, Spares, Indirect, SearchFine, PageMark, PointerMark;
    var t := TrailOf(r, m, sys, page);
    var s := SearchPointer(r, m, e, page, sys, write, m[t.root]);
    if t.AtPage? {
      var p := t.pointer;
      var m1 := m[p := Used(m[p])];
      UsedNew(m[t.root]);
      UsedNew(m[p]);
      AtcSetMarks(m1, e, page, PageEntry(r, m1[p], page), write, WBit(m[t.root]) || WBit(m1[p]), sys);
      FirstMark(r, m, p, s.mem);
      PointerMarkIs(t, m);
      if !(!UBit(m[p]) && Indirect(r, m, p)) {
        WalkStable(r, m, m1, sys, page);
        PageStage(r, m1, e, page, sys, write);
        PageMarksShift(r, m, p, t, sys, write);
        if Spares(r, m1, s.mem) {
          FineAfter(r, m, m1, e, page, sys, write, t.walk, s);
        }
      }
    } else {
      NoMark(m);
      NoPageMark(t, m, sys, write);
      KeptReflexive(r, m);
      KeptSpares(r, m, m);
      ShortFine(r, m, e, page, sys, write, s);
    }
  }

  lemma PointerMarkIs(t: Trail, m: Memory)
    requires t.AtPage? && t.pointer in m
    ensures forall w :: PointerMark(t, m, w) <==> w == t.pointer && !UBit(m[t.pointer])
  {
    hide UBit;
  }

  lemma NoPageMark(t: Trail, m: Memory, sys: bool, write: bool)
    requires !t.AtPage?
    ensures t.walk.Page? || forall w :: !PointerMark(t, m, w) && !PageMark(t, m, sys, write, w)
  {
    hide UBit, MBit, WBit, SBit, MayModify;
  }

  /** When U is set in p, which is no indirect descriptor or had it, the page mark is judged alike. */
  lemma PageMarksShift(r: Registers, m: Memory, p: Loc, t: Trail, sys: bool, write: bool)
    requires p in m && (UBit(m[p]) || !Indirect(r, m, p)) && Kept(r, m, m[p := Used(m[p])])
    ensures var m1 := m[p := Used(m[p])];
            (forall w :: PageMark(t, m1, sys, write, w) ==> !Indirect(r, m1, w))
            <==> (forall w :: PageMark(t, m, sys, write, w) ==> !Indirect(r, m, w))
  {
    hide PageMark, Indirect, UBit, Used, Kept;
    var m1 := m[p := Used(m[p])];
    forall w: Loc
      ensures Indirect(r, m1, w) == Indirect(r, m, w)
      ensures PageMark(t, m1, sys, write, w) ==> PageMark(t, m, sys, write, w)
      ensures PageMark(t, m, sys, write, w) && Indirect(r, m, w) ==> PageMark(t, m1, sys, write, w)
    {
      IndirectStable(r, m, m1, w);
      PageMarkAfter(t, m, p, sys, write, w);
    }
  }

  lemma ShortFine(r: Registers, m: Memory, e: Slot, page: bv32, sys: bool, write: bool, s: Search)
    requires RootEntry(r, sys, page) in m && TableResident(m[RootEntry(r, sys, page)])
    requires !TrailOf(r, m, sys, page).AtPage?
    requires s == SearchPointer(r, m, e, page, sys, write, m[RootEntry(r, sys, page)])
    ensures s.mem == m && !TrailOf(r, m, sys, page).walk.Page?
    ensures SearchFine(r, m, e, page, sys, write, TrailOf(r, m, sys, page).walk, s)
  {
    hide WBit, AtcSet, RootEntry, PointerEntry, PageEntry, Kept, TableResident, Used, UBit, MustModify;
    KeptReflexive(r, m);
  }

  predicate LowerMark(t: Trail, m: Memory, sys: bool, write: bool, w: Loc) {
    PointerMark(t, m, w) || PageMark(t, m, sys, write, w)
  }

  lemma LowerMarksShift(r: Registers, m: Memory, p: Loc, t: Trail, sys: bool, write: bool)
    requires p in m && (UBit(m[p]) || !Indirect(r, m, p)) && Kept(r, m, m[p := Used(m[p])])
    ensures var m1 := m[p := Used(m[p])];
            (forall w :: LowerMark(t, m1, sys, write, w) ==> !Indirect(r, m1, w))
            <==> (forall w :: LowerMark(t, m, sys, write, w) ==> !Indirect(r, m, w))
  {
    hide PageMark, PointerMark, Indirect, UBit, Used, Kept;
    var m1 := m[p := Used(m[p])];
    forall w: Loc
      ensures Indirect(r, m1, w) == Indirect(r, m, w)
      ensures LowerMark(t, m1, sys, write, w) ==> LowerMark(t, m, sys, write, w)
      ensures LowerMark(t, m, sys, write, w) && Indirect(r, m, w) ==> LowerMark(t, m1, sys, write, w)
    {
      IndirectStable(r, m, m1, w);
      PageMarkAfter(t, m, p, sys, write, w);
      PointerMarkAfter(t, m, p, w);
    }
  }

  lemma RootMarkIs(t: Trail, m: Memory, sys: bool, write: bool)
    requires !t.AtRoot? && t.root in m
    ensures forall w :: RootMark(t, m, w) <==> w == t.root && !UBit(m[t.root])
  {
    hide UBit;
  }

  lemma NoSearchMark(t: Trail, m: Memory, sys: bool, write: bool)
    requires t.AtRoot?
    ensures t.walk.Page? || forall w :: !SearchMark(t, m, sys, write, w)
  {
    hide UBit, MBit, WBit, SBit, MayModify;
  }

  /** The whole search: it keeps every walk just when none of its marks hits an indirect
      descriptor, and then it finds what the walk finds. */
  lemma SearchStage(r: Registers, m: Memory, e: Slot, page: bv32, sys: bool, write: bool)
    ensures var t := TrailOf(r, m, sys, page);
            var s := AtcSearch(r, m, e, page, sys, write);
            && OnlyMarks(m, s.mem)
            && (Spares(r, m, s.mem) <==> forall w :: SearchMark(t, m, sys, write, w) ==> !Indirect(r, m, w))
            && (Spares(r, m, s.mem) ==> SearchFine(r, m, e, page, sys, write, t.walk, s))
  {
    hide MarkOf, UBit, WBit, SearchPointer, PointerLevel, RootEntry, Kept, TableResident, Used,
         OnlyMarks, Spares, Indirect, SearchFine, PageMark, PointerMark, RootMark;
    var t := TrailOf(r, m, sys, page);
    var root := RootEntry(r, sys, page);
    var s := AtcSearch(r, m, e, page, sys, write);
    if root in m && TableResident(m[root]) {
      var m1 := m[root := Used(m[root])];
      ResidentUsed(m[root]);
      PointerStage(r, m1, e, page, sys, write);
      assert s == SearchPointer(r, m1, e, page, sys, write, m1[root]);
      FirstMark(r, m, root, s.mem);
      NotAtRoot(r, m, sys, page);
      RootMarkIs(t, m, sys, write);
      if !(!UBit(m[root]) && Indirect(r, m, root)) {
        WalkStable(r, m, m1, sys, page);
        LowerMarksShift(r, m, root, t, sys, write);
        if Spares(r, m1, s.mem) {
          FineAfter(r, m, m1, e, page, sys, write, t.walk, s);
        }
      }
    } else {
      NoMark(m);
      NoSearchMark(t, m, sys, write);
      KeptReflexive(r, m);
      KeptSpares(r, m, m);
      assert SearchedAsWalked(r, m, e, page, t.walk, s);
      NotFoundFine(r, m, e, page, sys, write, t.walk, s);
    }
  }

  lemma NotAtRoot(r: Registers, m: Memory, sys: bool, page: bv32)
    requires RootEntry(r, sys, page) in m && TableResident(m[RootEntry(r, sys, page)])
    ensures var t := TrailOf(r, m, sys, page); !t.AtRoot? && t.root == RootEntry(r, sys, page)
  {
    hide RootEntry, TableResident, PointerEntry, PageEntry, PageLevel, WBit;
  }

  lemma NotFoundFine(r: Registers, m: Memory, e: Slot, page: bv32, sys: bool, write: bool, w: Walk, s: Search)
    requires SearchedAsWalked(r, m, e, page, w, s) && !w.Page?
    ensures SearchFine(r, m, e, page, sys, write, w, s)
  {
    hide SearchedAsWalked;
  }

  // ---- The translation ----

  lemma WalksAre(r: Registers, m: Memory, m': Memory)
    requires OnlyMarks(m, m')
    ensures Spares(r, m, m')
            <==> forall sys: bool, page: bv32 :: TrailOf(r, m', sys, page) == TrailOf(r, m, sys, page)
  {
    hide MarkOf, TrailOf, Indirect;
    WalksKeptIff(r, m, m');
  }

  /** The late M of the slot found. */
  lemma FinishStage(r: Registers, m: Memory, c: Caches, code: bool, sys: bool, page: bv32, write: bool)
    requires Shaped(c)
    ensures var m' := Finish(m, c, code, sys, page, write).1.mem;
            && OnlyMarks(m, m')
            && (Spares(r, m, m')
                <==> forall w :: LateMark(Get(c, code, sys, page), m, sys, write, w) ==> !Indirect(r, m, w))
  {
    hide MarkOf, MBit, Modified, Indirect, Spares, OnlyMarks, Get, Put;
    var e := Get(c, code, sys, page);
    FinishMarks(m, c, code, sys, page, write);
    if MustModify(e, sys, write) && e.pgAddr in m {
      ModifiedMark(m[e.pgAddr]);
      ModifiedNew(m[e.pgAddr]);
      OneSpared(r, m, e.pgAddr, Modified(m[e.pgAddr]));
      assert forall w :: LateMark(e, m, sys, write, w) ==> w == e.pgAddr;
    } else {
      KeptReflexive(r, m);
      KeptSpares(r, m, m);
    }
  }

  /** When the search has spared the indirect descriptors, the late M decides. */
  lemma AfterSearch(r: Registers, m: Memory, e: Slot, page: bv32, sys: bool, write: bool, s: Search, m': Memory)
    requires var w := WalkOf(r, m, sys, page); SearchFine(r, m, e, page, sys, write, w, s)
    requires OnlyMarks(m, s.mem) && OnlyMarks(s.mem, m') && s.ok
    requires Spares(r, s.mem, m') <==> forall w :: LateMark(s.slot, s.mem, sys, write, w) ==> !Indirect(r, s.mem, w)
    ensures Spares(r, m, m')
            <==> forall w :: WalkOf(r, m, sys, page) == NoPage && LateMark(e, m, sys, write, w) ==> !Indirect(r, m, w)
  {
    hide MarkOf, Indirect, TrailOf, Kept, LateMark, MustModify, OnlyMarks, Spares, SearchedAsWalked;
    MarksAgain(m, s.mem, m');
    KeptOf(r, m, e, page, WalkOf(r, m, sys, page), s);
    MarkedKeys(m, s.mem);
    MarkedKeys(m, m');
    SparedFirst(r, m, s.mem, m');
    if WalkOf(r, m, sys, page) == NoPage {
      forall w: Loc
        ensures Indirect(r, s.mem, w) == Indirect(r, m, w)
        ensures Indirect(r, m, w) ==> LateMark(s.slot, s.mem, sys, write, w) == LateMark(e, m, sys, write, w)
      {
        IndirectStable(r, m, s.mem, w);
        NoPageSlot(r, m, e, page, s);
        if Indirect(r, m, w) {
          SameLate(r, m, s.mem, e, sys, write, w);
        }
      }
    } else {
      NoLate(r, m, e, page, sys, write, WalkOf(r, m, sys, page), s);
    }
  }

  lemma MarkedKeys(m: Memory, m': Memory)
    requires OnlyMarks(m, m')
    ensures m'.Keys == m.Keys
  {
    hide MarkOf;
  }

  lemma KeptOf(r: Registers, m: Memory, e: Slot, page: bv32, w: Walk, s: Search)
    requires SearchedAsWalked(r, m, e, page, w, s)
    ensures Kept(r, m, s.mem)
  {
    hide Kept;
  }

  lemma NoPageSlot(r: Registers, m: Memory, e: Slot, page: bv32, s: Search)
    requires SearchedAsWalked(r, m, e, page, NoPage, s)
    ensures s.slot == e
  {
    hide Kept;
  }

  lemma SameLate(r: Registers, m: Memory, m': Memory, e: Slot, sys: bool, write: bool, w: Loc)
    requires Kept(r, m, m') && Indirect(r, m, w)
    ensures LateMark(e, m', sys, write, w) == LateMark(e, m, sys, write, w)
  {
    hide MBit, Indirect, TrailOf, Reads, MustModify;
  }

  lemma NoLate(r: Registers, m: Memory, e: Slot, page: bv32, sys: bool, write: bool, w: Walk, s: Search)
    requires SearchFine(r, m, e, page, sys, write, w, s) && w != NoPage && s.ok
    ensures forall l :: !LateMark(s.slot, s.mem, sys, write, l)
  {
    hide MBit, UBit, WBit, Kept, Fill;
  }

  lemma MissStage(r: Registers, st: State, page: bv32, sys: bool, code: bool, write: bool)
    requires Shaped(st.atc) && !Hit(Get(st.atc, code, sys, page), page)
    ensures var m' := PtestTables(r, st, page, sys, code, write).1.mem;
            var t, e := TrailOf(r, st.mem, sys, page), Get(st.atc, code, sys, page);
            && OnlyMarks(st.mem, m')
            && (Spares(r, st.mem, m')
                <==> && (forall w :: SearchMark(t, st.mem, sys, write, w) ==> !Indirect(r, st.mem, w))
                     && (forall w ::
                           t.walk == NoPage && LateMark(e, st.mem, sys, write, w) ==> !Indirect(r, st.mem, w)))
  {
    hide MarkOf, Indirect, OnlyMarks, Get, Put, Finish, AtcSearch, Hit, TrailOf, Kept, SearchMark, LateMark, MustModify;
    var e := Get(st.atc, code, sys, page);
    var s := AtcSearch(r, st.mem, e, page, sys, write);
    var m' := PtestTables(r, st, page, sys, code, write).1.mem;
    var c := Put(st.atc, code, sys, page, s.slot);
    SearchStage(r, st.mem, e, page, sys, write);
    NoMark(s.mem);
    PutGet(st.atc, code, sys, page, s.slot);
    FinishStage(r, s.mem, c, code, sys, page, write);
    MarksAgain(st.mem, s.mem, m');
    if Spares(r, st.mem, s.mem) {
      if s.ok {
        AfterSearch(r, st.mem, e, page, sys, write, s, m');
      }
    } else {
      SpoiltBefore(r, st.mem, s.mem, m');
    }
  }

  lemma SpoiltBefore(r: Registers, m: Memory, m1: Memory, m': Memory)
    requires OnlyMarks(m, m1) && OnlyMarks(m1, m') && !Spares(r, m, m1)
    ensures !Spares(r, m, m')
  {
    hide MarkOf, Indirect;
    var w: Loc :| w in m && Indirect(r, m, w) && m1[w] != m[w];
    Spoilt(r, m, m1, m', w);
  }

  /**
   A translation keeps every walk if and only if no word it will newly mark is an indirect
   descriptor: the descriptors on its own trail whose U bit is clear, the page descriptor of a
   permitted write whose M bit is clear, or the descriptor the slot remembers.  The condition
   is on the state before the translation, and holds or fails for any tables and any slots.
   */
  lemma PtestWalksIff(r: Registers, st: State, page: bv32, sys: bool, code: bool, write: bool)
    requires Shaped(st.atc)
    ensures var m' := Ptest(r, st, page, sys, code, write).1.mem;
            (forall s: bool, p: bv32 :: TrailOf(r, m', s, p) == TrailOf(r, st.mem, s, p))
            <==> (forall w :: NewlyMarked(r, st, page, sys, code, write, w) ==> !Indirect(r, st.mem, w))
  {
    hide OnlyMarks, Indirect, Get, PtestTables, Hit, TrailOf, SearchMark, LateMark, PtestTtr, Spares;
    var e := Get(st.atc, code, sys, page);
    var m' := Ptest(r, st, page, sys, code, write).1.mem;
    PtestMarks(r, st, page, sys, code, write);
    WalksAre(r, st.mem, m');
    if ByTables(r, page, sys, code) {
      if Hit(e, page) {
        FinishStage(r, st.mem, st.atc, code, sys, page, write);
        HitTables(r, st, page, sys, code, write);
      } else {
        MissStage(r, st, page, sys, code, write);
      }
    } else {
      KeptReflexive(r, st.mem);
      KeptSpares(r, st.mem, st.mem);
    }
  }

  lemma HitTables(r: Registers, st: State, page: bv32, sys: bool, code: bool, write: bool)
    requires Shaped(st.atc) && Hit(Get(st.atc, code, sys, page), page)
    ensures PtestTables(r, st, page, sys, code, write) == Finish(st.mem, st.atc, code, sys, page, write)
  {
    hide Finish, Get, Hit;
  }
}
