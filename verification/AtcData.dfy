/**
 What a translation does to the words that no walk reads.  Its own marks lie on the trail; the
 one mark that can go elsewhere is the late M in the word that an entry remembers.
 */
module AtcData {
  import opened Addresses
  import opened MmuTables
  import opened Atc
  import opened AtcInvariant
  import opened AtcTheorems
  import opened AtcMarks

  /** Will a stale write set M in a data word, remembered by an entry that is not valid? */
  ghost predicate RemembersData(r: Registers, st: State, page: bv32, sys: bool, code: bool, write: bool)
    requires Shaped(st.atc)
  {
    var e := Get(st.atc, code, sys, page);
    && ByTables(r, page, sys, code) && Stale(r, st, page, sys, code) && !e.V
    && MustModify(e, sys, write) && !TableWord(r, st.mem, e.pgAddr)
  }

  /** m' is m on every word that is no table word of m0. */
  ghost predicate SameData(r: Registers, m0: Memory, m: Memory, m': Memory) {
    forall w: Loc :: w in m && !TableWord(r, m0, w) ==> w in m' && m'[w] == m[w]
  }

  lemma MarksOnData(r: Registers, m: Memory, m': Memory, sys: bool, page: bv32)
    requires MarksOn(TrailOf(r, m, sys, page), m, m')
    ensures SameData(r, m, m, m')
  {
    hide TrailOf;
    forall w: Loc | w in m && !TableWord(r, m, w) ensures w in m' && m'[w] == m[w] {
      assert !Reads(TrailOf(r, m, sys, page), w);
    }
  }

  /** What a valid entry remembers is a table word. */
  lemma ValidRemembers(r: Registers, st: State, page: bv32, sys: bool, code: bool)
    requires Inv(r, st)
    ensures var e := Get(st.atc, code, sys, page); e.V && e.R ==> TableWord(r, st.mem, e.pgAddr)
  {
    hide BankOk, IndirectsApart, Indirect, TrailOf, Index, UBit, MBit, SBit, WBit, GBit;
    var e := Get(st.atc, code, sys, page);
    GetOk(r, st.mem, st.atc, code, sys, page);
    if e.V && e.R {
      assert Reads(TrailOf(r, st.mem, sys, e.laddr), e.pgAddr);
    }
  }

  /** A stale translation: the marks of the trail, and then the late M. */
  lemma StaleSteps(r: Registers, st: State, page: bv32, sys: bool, code: bool, write: bool)
    requires Inv(r, st) && ByTables(r, page, sys, code) && Stale(r, st, page, sys, code)
    ensures var e := Get(st.atc, code, sys, page);
            var m1, m' := AtcSearch(r, st.mem, e, page, sys, write).mem, Ptest(r, st, page, sys, code, write).1.mem;
            && e.pgAddr in m1 && SameData(r, st.mem, st.mem, m1)
            && m' == if MustModify(e, sys, write) then m1[e.pgAddr := Modified(m1[e.pgAddr])] else m1
  {
    hide BankOk, IndirectsApart, Indirect, TrailOf, AtcSearch, Get, Put, PtestTtr, MarksOn, SameData, Agrees, Index;
    var e := Get(st.atc, code, sys, page);
    AtcSearchWalk(r, st.mem, e, page, sys, write);
    AtcSearchMarksOn(r, st.mem, e, page, sys, write);
    MarksOnData(r, st.mem, AtcSearch(r, st.mem, e, page, sys, write).mem, sys, page);
    GetOk(r, st.mem, st.atc, code, sys, page);
    PutSame(st.atc, code, sys, page);
  }

  lemma ModifiedNot(v: bv32)
    ensures Modified(v) == v <==> MBit(v)
  {}

  lemma FreshKeepsData(r: Registers, st: State, page: bv32, sys: bool, code: bool, write: bool)
    requires Inv(r, st) && (ByTables(r, page, sys, code) ==> !Stale(r, st, page, sys, code))
    ensures SameData(r, st.mem, st.mem, Ptest(r, st, page, sys, code, write).1.mem)
  {
    hide BankOk, IndirectsApart, TrailOf, PtestTtr, PtestTables, MarksOn, SameData, Get;
    if ByTables(r, page, sys, code) && WalkOf(r, st.mem, sys, page) == NoPage {
      NoPageKeepsData(r, st, page, sys, code, write);
    } else if ByTables(r, page, sys, code) {
      PtestMarksOn(r, st, page, sys, code, write);
      MarksOnData(r, st.mem, Ptest(r, st, page, sys, code, write).1.mem, sys, page);
    } else {
      NothingMarked(r, st.mem);
    }
  }

  lemma NothingMarked(r: Registers, m: Memory)
    ensures SameData(r, m, m, m)
  {
    hide TableWord;
  }

  /** At an invalid page descriptor a fresh slot has nothing to answer with. */
  lemma NoPageKeepsData(r: Registers, st: State, page: bv32, sys: bool, code: bool, write: bool)
    requires Inv(r, st) && ByTables(r, page, sys, code) && !Stale(r, st, page, sys, code)
    requires WalkOf(r, st.mem, sys, page) == NoPage
    ensures SameData(r, st.mem, st.mem, Ptest(r, st, page, sys, code, write).1.mem)
  {
    hide BankOk, IndirectsApart, Indirect, TrailOf, AtcSearch, Get, Put, PtestTtr, MarksOn, SameData, Index, UBit, MBit,
         SBit, WBit, GBit;
    var e := Get(st.atc, code, sys, page);
    GetOk(r, st.mem, st.atc, code, sys, page);
    AtcSearchWalk(r, st.mem, e, page, sys, write);
    AtcSearchMarksOn(r, st.mem, e, page, sys, write);
    MarksOnData(r, st.mem, AtcSearch(r, st.mem, e, page, sys, write).mem, sys, page);
    PutSame(st.atc, code, sys, page);
  }

  /** What a translation makes of a data word. */
  lemma DataAfter(r: Registers, st: State, page: bv32, sys: bool, code: bool, write: bool, w: Loc)
    requires Inv(r, st) && w in st.mem && !TableWord(r, st.mem, w)
    ensures var m' := Ptest(r, st, page, sys, code, write).1.mem;
            var late := RemembersData(r, st, page, sys, code, write) && Get(st.atc, code, sys, page).pgAddr == w;
            w in m' && m'[w] == if late then Modified(st.mem[w]) else st.mem[w]
  {
    hide BankOk, IndirectsApart, TrailOf, AtcSearch, Get, PtestTtr, Ptest, TableWord, Stale, MustModify, Modified;
    var e := Get(st.atc, code, sys, page);
    if ByTables(r, page, sys, code) && Stale(r, st, page, sys, code) {
      StaleSteps(r, st, page, sys, code, write);
      ValidRemembers(r, st, page, sys, code);
      NoMustModify(e, sys, write);
    } else {
      FreshKeepsData(r, st, page, sys, code, write);
    }
  }

  /** A translation leaves every data word alone if and only if no stale write sets M in one. */
  lemma DataKeptIff(r: Registers, st: State, page: bv32, sys: bool, code: bool, write: bool)
    requires Inv(r, st)
    ensures SameData(r, st.mem, st.mem, Ptest(r, st, page, sys, code, write).1.mem)
            <==> !(RemembersData(r, st, page, sys, code, write)
                   && Get(st.atc, code, sys, page).pgAddr in st.mem
                   && !MBit(st.mem[Get(st.atc, code, sys, page).pgAddr]))
  {
    hide BankOk, IndirectsApart, TrailOf, AtcSearch, Get, PtestTtr, Ptest, TableWord, Stale, MBit, MustModify;
    var e := Get(st.atc, code, sys, page);
    if ByTables(r, page, sys, code) && Stale(r, st, page, sys, code) {
      StaleSteps(r, st, page, sys, code, write);
      var m1 := AtcSearch(r, st.mem, e, page, sys, write).mem;
      ModifiedNot(m1[e.pgAddr]);
      ValidRemembers(r, st, page, sys, code);
      StaleKeys(r, st, page, sys, code, write);
      NoMustModify(e, sys, write);
    } else {
      FreshKeepsData(r, st, page, sys, code, write);
    }
  }

  lemma StaleKeys(r: Registers, st: State, page: bv32, sys: bool, code: bool, write: bool)
    requires Inv(r, st)
    ensures AtcSearch(r, st.mem, Get(st.atc, code, sys, page), page, sys, write).mem.Keys == st.mem.Keys
  {
    hide BankOk, IndirectsApart, TrailOf, AtcSearch, Get;
    AtcSearchMarksOn(r, st.mem, Get(st.atc, code, sys, page), page, sys, write);
  }

  /** Data stores and marks do not change what is remembered. */
  lemma RemembersKept(r: Registers, st: State, m': Memory, page: bv32, sys: bool, code: bool, write: bool)
    requires Shaped(st.atc) && Kept(r, st.mem, m')
    ensures RemembersData(r, State(m', st.atc), page, sys, code, write) == RemembersData(r, st, page, sys, code, write)
  {
    hide TrailOf, Kept, Get, PtestTtr, TableWord, MustModify;
    WalkStable(r, st.mem, m', sys, page);
    TableWordKept(r, st.mem, m', Get(st.atc, code, sys, page).pgAddr);
  }

  lemma TableWordKept(r: Registers, m: Memory, m': Memory, w: Loc)
    requires Kept(r, m, m')
    ensures TableWord(r, m', w) == TableWord(r, m, w)
  {
    hide TrailOf, Reads, Kept;
    forall sys: bool, page: bv32
      ensures Reads(TrailOf(r, m', sys, page), w) == Reads(TrailOf(r, m, sys, page), w)
    {
      WalkStable(r, m, m', sys, page);
    }
  }
}
