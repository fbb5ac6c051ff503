/**
 The address translation caches against fresh walks of the tables: one translation, one flush
 and one store.
 */
module AtcTheorems {
  import opened Addresses
  import opened MmuTables
  import opened Atc
  import opened AtcInvariant

  // ---- One translation against a fresh walk ----

  /** What an answer says of a page descriptor. */
  predicate TakenFrom(res: MmuResult, pg: bv32, wp: bool) {
    && res.paddr == pg >> 12 && res.Ux == (pg >> 8) & 3 && res.CM == (pg >> 5) & 3
    && res.S == SBit(pg) && res.G == GBit(pg) && res.W == (wp || WBit(pg))
  }

  /** Does a translation result say what a walk of memory m says? */
  predicate Matches(m: Memory, w: Walk, res: MmuResult) {
    match w
    case Fault(_) => res.B && !res.R
    case NoTable => !res.B && !res.R
    case NoPage => !res.B && !res.R
    case Page(desc, wp) =>
      !res.B && res.R && desc in m && TakenFrom(res, m[desc], wp)
  }

  /** The one case in which the caches answer for another page: the slot misses, the
      walk stops at an invalid page descriptor, and the slot was resident once. */
  predicate Stale(r: Registers, st: State, page: bv32, sys: bool, code: bool)
    requires Shaped(st.atc)
  {
    var e := Get(st.atc, code, sys, page);
    !Hit(e, page) && e.R && WalkOf(r, st.mem, sys, page) == NoPage
  }

  lemma AgreesMatches(m: Memory, w: Walk, e: Slot)
    requires e.R && Agrees(m, w, e)
    ensures Matches(m, w, SlotResult(e))
  {
    hide UBit, MBit, WBit, SBit, GBit;
  }

  /** What Finish returns says what a fresh walk says, for a slot that belongs to the page. */
  lemma FinishMatches(r: Registers, m: Memory, c: Caches, code: bool, sys: bool, page: bv32, write: bool)
    requires CachesOk(r, m, c) && IndirectsApart(r, m)
    requires Hit(Get(c, code, sys, page), page)
    ensures var (res, st') := Finish(m, c, code, sys, page, write);
            Matches(st'.mem, WalkOf(r, st'.mem, sys, page), res)
  {
    hide Finish, TrailOf, Kept, BankOk, IndirectsApart, Agrees, Matches, Indirect, Index;
    FinishOk(r, m, c, code, sys, page, write);
    var (res, st') := Finish(m, c, code, sys, page, write);
    GetOk(r, st'.mem, st'.atc, code, sys, page);
    PutGet(c, code, sys, page, Get(c, code, sys, page).(M := true));
    var e := Get(st'.atc, code, sys, page);
    if e.R {
      AgreesMatches(st'.mem, WalkOf(r, st'.mem, sys, page), e);
    } else {
      MatchesNoTable(st'.mem, res);
    }
  }

  lemma MatchesNoTable(m: Memory, res: MmuResult)
    requires !res.R && !res.B
    ensures Matches(m, NoTable, res) && Matches(m, NoPage, res)
  {}

  lemma PutGet(c: Caches, code: bool, sys: bool, page: bv32, e: Slot)
    requires Shaped(c)
    ensures Get(Put(c, code, sys, page, e), code, sys, page) == e
  {
    hide Index;
  }

  lemma NoMustModify(e: Slot, sys: bool, write: bool)
    ensures MustModify(e, sys, write) ==> e.R
  {}

  lemma PutSame(c: Caches, code: bool, sys: bool, page: bv32)
    requires Shaped(c)
    ensures Put(c, code, sys, page, Get(c, code, sys, page)) == c
  {
    hide Index;
  }

  /** Cache transparency: in every good state a translation through the tables says
      what a fresh walk of the memory it leaves says, exactly when it is not stale. */
  lemma PtestTransparent(r: Registers, st: State, page: bv32, sys: bool, code: bool, write: bool)
    requires Inv(r, st) && ByTables(r, page, sys, code)
    ensures var (res, st') := Ptest(r, st, page, sys, code, write);
            Matches(st'.mem, WalkOf(r, st'.mem, sys, page), res) <==> !Stale(r, st, page, sys, code)
  {
    hide Finish, AtcSearch, Kept, IndirectsApart, BankOk, PtestTtr, TrailOf, Fill, Index;
    var e := Get(st.atc, code, sys, page);
    var (res, st') := Ptest(r, st, page, sys, code, write);
    PtestInv(r, st, page, sys, code, write);
    WalkStable(r, st.mem, st'.mem, sys, page);
    if Hit(e, page) {
      FinishMatches(r, st.mem, st.atc, code, sys, page, write);
    } else {
      SearchedCachesOk(r, st, page, sys, code, write);
      var s := AtcSearch(r, st.mem, e, page, sys, write);
      if s.ok {
        var c := Put(st.atc, code, sys, page, s.slot);
        PutGet(st.atc, code, sys, page, s.slot);
        if WalkOf(r, st.mem, sys, page) == NoPage {
          FinishNoPage(r, s.mem, c, code, sys, page, write);
        } else {
          FillHits(r, st.mem, e, page, sys, s);
          FinishMatches(r, s.mem, c, code, sys, page, write);
        }
      }
    }
  }

  lemma FillHits(r: Registers, m: Memory, e: Slot, page: bv32, sys: bool, s: Search)
    requires SearchedAsWalked(r, m, e, page, WalkOf(r, m, sys, page), s)
    requires WalkOf(r, m, sys, page).NoTable? || WalkOf(r, m, sys, page).Page?
    ensures Hit(s.slot, page)
  {
    hide Kept, TrailOf, WBit, UBit, SBit, GBit, MBit;
  }

  lemma FinishNoPage(r: Registers, m: Memory, c: Caches, code: bool, sys: bool, page: bv32, write: bool)
    requires CachesOk(r, m, c) && IndirectsApart(r, m)
    ensures var (res, st') := Finish(m, c, code, sys, page, write);
            Matches(st'.mem, NoPage, res) <==> !Get(c, code, sys, page).R
  {
    hide Finish, Kept, IndirectsApart, BankOk, Index;
    FinishOk(r, m, c, code, sys, page, write);
    PutGet(c, code, sys, page, Get(c, code, sys, page).(M := true));
  }

  // ---- Flushes and stores ----

  lemma FlushOk(r: Registers, m: Memory, c: Caches, f: Flush, dfc: bv8)
    requires CachesOk(r, m, c)
    ensures CachesOk(r, m, FlushCaches(f, dfc, c))
  {
    hide WalkOf, Agrees, Indirect, Index;
  }

  /** PFLUSH of each page of a list. */
  function FlushPages(c: Caches, dfc: bv8, pages: seq<bv32>): (c': Caches)
    requires Shaped(c)
    ensures Shaped(c')
    decreases |pages|
  {
    if pages == [] then c else FlushPages(FlushCaches(OnePage(pages[0]), dfc, c), dfc, pages[1..])
  }

  /** A word no walk of the page reads takes no part in it. */
  lemma UnreadWord(r: Registers, m: Memory, at: Loc, v: bv32, sys: bool, page: bv32)
    requires at in m && !Reads(TrailOf(r, m, sys, page), at)
    ensures TrailOf(r, m[at := v], sys, page) == TrailOf(r, m, sys, page)
  {
    hide RootEntry, PointerEntry, PageEntry, TableResident, PageInvalid, PageIndirect, WBit;
  }

  /** A store to a word no walk reads. */
  lemma StoreKept(r: Registers, m: Memory, at: Loc, v: bv32)
    requires at in m && !TableWord(r, m, at)
    ensures Kept(r, m, m[at := v])
  {
    hide TrailOf, Reads;
    var m' := m[at := v];
    assert m'.Keys == m.Keys;
    forall w: Loc | w in m && Indirect(r, m, w) ensures m'[w] == m[w] {
      IndirectIsTableWord(r, m, w);
    }
  }

  lemma StoreOk(r: Registers, st: State, at: Loc, v: bv32)
    requires Inv(r, st) && at in st.mem && !TableWord(r, st.mem, at)
    ensures Inv(r, State(st.mem[at := v], st.atc)) && Kept(r, st.mem, st.mem[at := v])
  {
    hide TableWord, CachesOk, IndirectsApart, Kept;
    StoreKept(r, st.mem, at, v);
    CachesKept(r, st.mem, st.mem[at := v], st.atc);
    ApartStable(r, st.mem, st.mem[at := v]);
  }

  lemma IndirectIsTableWord(r: Registers, m: Memory, w: Loc)
    requires Indirect(r, m, w)
    ensures TableWord(r, m, w)
  {
    hide TrailOf, PageIndirect;
    var sys: bool, page: bv32 :| IndirectAt(TrailOf(r, m, sys, page), m, w);
    assert Reads(TrailOf(r, m, sys, page), w);
  }
}
