/**
 What a translation writes: Used and Modified bits and nothing else, in the
 descriptors of its own walk and in the descriptor its slot remembers.
 */
module AtcMarks {
  import opened Addresses
  import opened MmuTables
  import opened Atc
  import opened AtcInvariant
  import opened AtcTheorems

  /** m' is m with Used and Modified bits set in some words. */
  ghost predicate OnlyMarks(m: Memory, m': Memory) {
    m'.Keys == m.Keys && forall w: Loc :: w in m ==> MarkOf(m[w], m'[w])
  }

  lemma OneMark(m: Memory, w: Loc, v: bv32)
    requires w in m && MarkOf(m[w], v)
    ensures OnlyMarks(m, m[w := v])
  {
    assert m[w := v].Keys == m.Keys;
  }

  lemma MarksAgain(m0: Memory, m1: Memory, m2: Memory)
    requires OnlyMarks(m0, m1) && OnlyMarks(m1, m2)
    ensures OnlyMarks(m0, m2)
  {
    hide MarkOf;
    forall w: Loc | w in m0 ensures MarkOf(m0[w], m2[w]) {
      MarkTransitive(m0[w], m1[w], m2[w]);
    }
  }

  lemma NoMark(m: Memory)
    ensures OnlyMarks(m, m)
  {}

  lemma AtcSetMarks(m: Memory, e: Slot, page: bv32, entry: Loc, write: bool, wp: bool, sys: bool)
    ensures OnlyMarks(m, AtcSet(m, e, page, entry, write, wp, sys).mem)
  {
    hide OnlyMarks, MarkOf, PageLevel;
    NoMark(m);
    AtcSetWalk(m, e, page, entry, write, wp, sys);
    var w := PageLevel(m, entry, wp);
    if w.Page? {
      OneMark(m, w.desc, AtcSet(m, e, page, entry, write, wp, sys).mem[w.desc]);
    }
  }

  lemma UseMarks(m: Memory, w: Loc)
    requires w in m
    ensures OnlyMarks(m, m[w := Used(m[w])])
  {
    hide MarkOf, Used, UBit;
    UsedMark(m[w]);
    OneMark(m, w, Used(m[w]));
  }

  lemma AtcSearchMarks(r: Registers, m: Memory, e: Slot, page: bv32, sys: bool, write: bool)
    ensures OnlyMarks(m, AtcSearch(r, m, e, page, sys, write).mem)
  {
    hide OnlyMarks, MarkOf, AtcSet, RootEntry, PointerEntry, PageEntry, TableResident, Used, WBit;
    NoMark(m);
    var root := RootEntry(r, sys, page);
    if root in m && TableResident(m[root]) {
      UseMarks(m, root);
      var urp := Used(m[root]);
      var m1 := m[root := urp];
      var pointer := PointerEntry(urp, page);
      if pointer in m1 && TableResident(m1[pointer]) {
        UseMarks(m1, pointer);
        var pt := Used(m1[pointer]);
        var m2 := m1[pointer := pt];
        AtcSetMarks(m2, e, page, PageEntry(r, pt, page), write, WBit(urp) || WBit(pt), sys);
        MarksAgain(m, m1, m2);
        MarksAgain(m, m2, AtcSet(m2, e, page, PageEntry(r, pt, page), write, WBit(urp) || WBit(pt), sys).mem);
      }
    }
  }

  lemma FinishMarks(m: Memory, c: Caches, code: bool, sys: bool, page: bv32, write: bool)
    requires Shaped(c)
    ensures OnlyMarks(m, Finish(m, c, code, sys, page, write).1.mem)
  {
    hide OnlyMarks, MarkOf, Modified, MBit, UBit, Index;
    NoMark(m);
    var e := Get(c, code, sys, page);
    if e.pgAddr in m {
      ModifiedMark(m[e.pgAddr]);
      OneMark(m, e.pgAddr, Modified(m[e.pgAddr]));
    }
  }

  /** In every state at all, a translation changes memory by setting Used and Modified
      bits and in no other way. */
  lemma PtestMarks(r: Registers, st: State, page: bv32, sys: bool, code: bool, write: bool)
    requires Shaped(st.atc)
    ensures OnlyMarks(st.mem, Ptest(r, st, page, sys, code, write).1.mem)
  {
    hide OnlyMarks, AtcSearch, Finish, Index, Put, Get, PtestTtr;
    NoMark(st.mem);
    var e := Get(st.atc, code, sys, page);
    FinishMarks(st.mem, st.atc, code, sys, page, write);
    AtcSearchMarks(r, st.mem, e, page, sys, write);
    var s := AtcSearch(r, st.mem, e, page, sys, write);
    var c := Put(st.atc, code, sys, page, s.slot);
    FinishMarks(s.mem, c, code, sys, page, write);
    MarksAgain(st.mem, s.mem, Finish(s.mem, c, code, sys, page, write).1.mem);
  }

  lemma TargetInjective(v: bv32, w: bv32)
    requires Same(v, w) && IndirectTarget(v) == IndirectTarget(w)
    ensures v == w
  {
    assert v & 0xFFFF_FFFC == w & 0xFFFF_FFFC && v & 3 == w & 3;
  }

  lemma IndirectPinned(r: Registers, m: Memory, m': Memory, sys: bool, page: bv32, w: Loc)
    requires OnlyMarks(m, m') && IndirectAt(TrailOf(r, m, sys, page), m, w)
    requires TrailOf(r, m', sys, page) == TrailOf(r, m, sys, page)
    ensures m'[w] == m[w]
  {
    hide PageIndirect, PageInvalid, IndirectTarget, RootEntry, PointerEntry, PageEntry, TableResident, WBit, Same;
    SameType(m[w], m'[w]);
    TypesExclude(m[w]);
    TargetInjective(m[w], m'[w]);
  }

  lemma TypesExclude(v: bv32)
    ensures PageIndirect(v) ==> !PageInvalid(v)
  {}

  /** Marks leave every walk where it was exactly when they hit no indirect descriptor:
      bits 3 and 4 alter no table index, type, frame or attribute, not even of a word
      that serves as a table descriptor and as a page descriptor at once. */
  lemma WalksKeptIff(r: Registers, m: Memory, m': Memory)
    requires OnlyMarks(m, m')
    ensures (forall sys: bool, page: bv32 :: TrailOf(r, m', sys, page) == TrailOf(r, m, sys, page))
            <==> (forall w: Loc :: w in m && Indirect(r, m, w) ==> m'[w] == m[w])
  {
    hide TrailOf, MarkOf, PageIndirect;
    if forall sys: bool, page: bv32 :: TrailOf(r, m', sys, page) == TrailOf(r, m, sys, page) {
      forall w: Loc | w in m && Indirect(r, m, w) ensures m'[w] == m[w] {
        var sys: bool, page: bv32 :| IndirectAt(TrailOf(r, m, sys, page), m, w);
        assert TrailOf(r, m', sys, page) == TrailOf(r, m, sys, page);
        IndirectPinned(r, m, m', sys, page, w);
      }
    }
    if forall w: Loc :: w in m && Indirect(r, m, w) ==> m'[w] == m[w] {
      assert Kept(r, m, m');
      forall sys: bool, page: bv32 ensures TrailOf(r, m', sys, page) == TrailOf(r, m, sys, page) {
        WalkStable(r, m, m', sys, page);
      }
    }
  }

  // ---- Which words ----

  /** m' differs from m only in words the trail marks. */
  ghost predicate MarksOn(t: Trail, m: Memory, m': Memory) {
    m'.Keys == m.Keys && forall w: Loc :: w in m && !Marks(t, w) ==> m'[w] == m[w]
  }

  lemma MarksOnTwice(t: Trail, m0: Memory, m1: Memory, m2: Memory)
    requires MarksOn(t, m0, m1) && MarksOn(t, m1, m2)
    ensures MarksOn(t, m0, m2)
  {
    hide Marks;
  }

  lemma MarksOnOne(t: Trail, m: Memory, w: Loc, v: bv32)
    requires w in m && Marks(t, w)
    ensures MarksOn(t, m, m[w := v])
  {
    hide Marks;
    assert m[w := v].Keys == m.Keys;
  }

  lemma AtcSetMarksOn(r: Registers, m: Memory, e: Slot, page: bv32, sys: bool, write: bool, entry: Loc, wp: bool)
    requires var t := TrailOf(r, m, sys, page); t.walk == PageLevel(m, entry, wp)
    ensures MarksOn(TrailOf(r, m, sys, page), m, AtcSet(m, e, page, entry, write, wp, sys).mem)
  {
    hide TrailOf, PageLevel, AtcSet, MarksOn, MarkOf, UBit, WBit, Fill;
    AtcSetWalk(m, e, page, entry, write, wp, sys);
    var t := TrailOf(r, m, sys, page);
    NoneMarked(t, m);
    if t.walk.Page? {
      MarksOnOne(t, m, t.walk.desc, AtcSet(m, e, page, entry, write, wp, sys).mem[t.walk.desc]);
    }
  }

  lemma NoneMarked(t: Trail, m: Memory)
    ensures MarksOn(t, m, m)
  {}

  lemma SearchPointerMarksOn(r: Registers, m: Memory, e: Slot, page: bv32, sys: bool, write: bool)
    requires IndirectsApart(r, m)
    requires RootEntry(r, sys, page) in m && TableResident(m[RootEntry(r, sys, page)])
    ensures MarksOn(TrailOf(r, m, sys, page), m,
                    SearchPointer(r, m, e, page, sys, write, m[RootEntry(r, sys, page)]).mem)
  {
    hide MarkOf, UBit, WBit, AtcSet, PageLevel, RootEntry, PointerEntry, PageEntry, Kept, IndirectsApart, TableResident,
         Used, MarksOn;
    var t := TrailOf(r, m, sys, page);
    NoneMarked(t, m);
    if t.AtPage? {
      var m' := m[t.pointer := Used(m[t.pointer])];
      MarksOnOne(t, m, t.pointer, Used(m[t.pointer]));
      UseKept(r, m, sys, page, t.pointer);
      WalkStable(r, m, m', sys, page);
      UsedMark(m[t.root]);
      WBitOf(m[t.root], Used(m[t.root]));
      AtcSetMarksOn(r, m', e, page, sys, write, t.entry, WBit(m'[t.root]) || WBit(m'[t.pointer]));
      MarksOnTwice(t, m, m', AtcSet(m', e, page, t.entry, write, WBit(m'[t.root]) || WBit(m'[t.pointer]), sys).mem);
    }
  }

  lemma AtcSearchMarksOn(r: Registers, m: Memory, e: Slot, page: bv32, sys: bool, write: bool)
    requires IndirectsApart(r, m)
    ensures MarksOn(TrailOf(r, m, sys, page), m, AtcSearch(r, m, e, page, sys, write).mem)
  {
    hide MarkOf, UBit, WBit, SearchPointer, PageLevel, RootEntry, PointerEntry, Kept, IndirectsApart, TableResident,
         Used, MarksOn;
    var root := RootEntry(r, sys, page);
    var t := TrailOf(r, m, sys, page);
    NoneMarked(t, m);
    if root in m && TableResident(m[root]) {
      var m' := m[root := Used(m[root])];
      MarksOnOne(t, m, root, Used(m[root]));
      UseKept(r, m, sys, page, root);
      WalkStable(r, m, m', sys, page);
      ResidentUsed(m[root]);
      SearchPointerMarksOn(r, m', e, page, sys, write);
      MarksOnTwice(t, m, m', SearchPointer(r, m', e, page, sys, write, m'[root]).mem);
    }
  }

  /** Finishing on a slot that serves the page marks the page's own descriptor. */
  lemma FinishMarksOn(r: Registers, m: Memory, c: Caches, code: bool, sys: bool, page: bv32, write: bool)
    requires CachesOk(r, m, c) && Hit(Get(c, code, sys, page), page)
    ensures MarksOn(TrailOf(r, m, sys, page), m, Finish(m, c, code, sys, page, write).1.mem)
  {
    hide TrailOf, MarksOn, Index, Indirect, BankOk, Modified;
    GetOk(r, m, c, code, sys, page);
    var t := TrailOf(r, m, sys, page);
    var e := Get(c, code, sys, page);
    NoneMarked(t, m);
    if e.R {
      MarksOnOne(t, m, e.pgAddr, Modified(m[e.pgAddr]));
    }
  }

  /** A translation whose walk does not stop at an invalid page descriptor changes only
      descriptors on its own trail. */
  lemma PtestMarksOn(r: Registers, st: State, page: bv32, sys: bool, code: bool, write: bool)
    requires Inv(r, st) && WalkOf(r, st.mem, sys, page) != NoPage
    ensures MarksOn(TrailOf(r, st.mem, sys, page), st.mem, Ptest(r, st, page, sys, code, write).1.mem)
  {
    hide TrailOf, MarksOn, Index, BankOk, Finish, AtcSearch, IndirectsApart, PtestTtr, Put, Get, Kept;
    var t := TrailOf(r, st.mem, sys, page);
    NoneMarked(t, st.mem);
    var e := Get(st.atc, code, sys, page);
    if Hit(e, page) {
      FinishMarksOn(r, st.mem, st.atc, code, sys, page, write);
    } else {
      SearchedCachesOk(r, st, page, sys, code, write);
      AtcSearchMarksOn(r, st.mem, e, page, sys, write);
      var s := AtcSearch(r, st.mem, e, page, sys, write);
      if s.ok {
        var c := Put(st.atc, code, sys, page, s.slot);
        PutGet(st.atc, code, sys, page, s.slot);
        FillHits(r, st.mem, e, page, sys, s);
        WalkStable(r, st.mem, s.mem, sys, page);
        FinishMarksOn(r, s.mem, c, code, sys, page, write);
        MarksOnTwice(t, st.mem, s.mem, Finish(s.mem, c, code, sys, page, write).1.mem);
      }
    }
  }
}
