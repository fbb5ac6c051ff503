/**
 The four flushes and PTEST: exactly which entries are left, in which spaces, and that tables may be
 changed in any way at all before a flush of everything.
 */
module AtcFlushes {
  import opened Addresses
  import opened MmuTables
  import opened Atc
  import opened AtcInvariant
  import opened AtcTheorems
  import opened AtcLive
  import opened AtcRuns
  import opened MmuStatus
  import opened WalkNumbers

  // ---- What the flushes leave ----

  /** Supervisor entries are always flushed, user entries with DFC 1 or 2. */
  predicate InSpace(sys: bool, dfc: bv8) { sys || dfc == 1 || dfc == 2 }

  /** A page's entry lies in the slot of its number modulo 16. */
  predicate OfPage(page: bv32, j: nat, e: Slot) { j == (page % 16) as nat && e.laddr == page }

  /** Does a flush take V from a valid entry in slot j? */
  predicate Takes(f: Flush, j: nat, e: Slot) {
    match f
    case OnePage(page) => OfPage(page, j, e)
    case OnePageNonGlobal(page) => OfPage(page, j, e) && !e.G
    case All => true
    case AllNonGlobal => !e.G
  }

  lemma OfPageIs(page: bv32, j: nat, e: Slot)
    ensures j == Index(page) && e.laddr == page <==> OfPage(page, j, e)
  {
    hide Index;
    IndexNumber(page);
  }

  lemma SlotLeft(f: Flush, j: nat, e: Slot)
    ensures var e' := FlushSlot(f, j, e); e' == e.(V := e'.V) && (e'.V <==> e.V && !Takes(f, j, e))
  {
    hide Index, OfPage;
    if f.OnePage? || f.OnePageNonGlobal? {
      OfPageIs(f.page, j, e);
    }
  }

  lemma BankLeft(f: Flush, dfc: bv8, c: Caches, code: bool, sys: bool)
    requires Shaped(c)
    ensures Bank(FlushCaches(f, dfc, c), code, sys)
            == if InSpace(sys, dfc) then FlushBank(f, Bank(c, code, sys)) else Bank(c, code, sys)
  {
    hide FlushBank;
  }

  /** Every bank, slot and DFC: which entries a flush leaves.  Nothing else changes. */
  lemma FlushLeaves(f: Flush, dfc: bv8, c: Caches, code: bool, sys: bool, j: nat)
    requires Shaped(c) && j < 16
    ensures var e, e' := Bank(c, code, sys)[j], Bank(FlushCaches(f, dfc, c), code, sys)[j];
            e' == e.(V := e'.V) && (e'.V <==> e.V && !(InSpace(sys, dfc) && Takes(f, j, e)))
  {
    hide FlushCaches, FlushSlot, InSpace, Takes;
    BankLeft(f, dfc, c, code, sys);
    SlotLeft(f, j, Bank(c, code, sys)[j]);
  }

  /** In so many words: what PFLUSHA, PFLUSHAN, PFLUSH and PFLUSHN leave in the flushed spaces. */
  lemma FourFlushes(dfc: bv8, c: Caches, code: bool, sys: bool, j: nat, page: bv32)
    requires Shaped(c) && j < 16 && (sys || dfc == 1 || dfc == 2)
    ensures var e := Bank(c, code, sys)[j];
            && !Bank(FlushCaches(All, dfc, c), code, sys)[j].V
            && Bank(FlushCaches(AllNonGlobal, dfc, c), code, sys)[j].V == (e.V && e.G)
            && Bank(FlushCaches(OnePage(page), dfc, c), code, sys)[j].V == (e.V && !OfPage(page, j, e))
            && Bank(FlushCaches(OnePageNonGlobal(page), dfc, c), code, sys)[j].V
               == (e.V && (e.G || !OfPage(page, j, e)))
  {
    hide FlushCaches, OfPage;
    FlushLeaves(All, dfc, c, code, sys, j);
    FlushLeaves(AllNonGlobal, dfc, c, code, sys, j);
    FlushLeaves(OnePage(page), dfc, c, code, sys, j);
    FlushLeaves(OnePageNonGlobal(page), dfc, c, code, sys, j);
  }

  // ---- Changed tables ----

  /** PFLUSHA with DFC 1 or 2: whatever tables and registers are afterwards, every valid entry agrees
      with them. */
  lemma AnythingFlushed(r: Registers, m: Memory, c: Caches, dfc: bv8)
    requires Shaped(c) && (dfc == 1 || dfc == 2)
    ensures LiveCaches(r, m, FlushCaches(All, dfc, c))
  {
    hide WalkOf, Agrees, Index, FlushCaches;
    forall code: bool, sys: bool, j: nat | j < 16
      ensures LiveOk(r, m, sys, j, Bank(FlushCaches(All, dfc, c), code, sys)[j])
    {
      FlushLeaves(All, dfc, c, code, sys, j);
    }
    LiveByBanks(r, m, FlushCaches(All, dfc, c));
  }

  /** A flush and an edit: no entry is left whose walk read the word that is changed. */
  ghost predicate NoReaderLeft(r: Registers, m: Memory, at: Loc, c: Caches)
    requires Shaped(c)
  {
    forall code: bool, sys: bool, j: nat ::
      j < 16 && Bank(c, code, sys)[j].V ==> !Reads(TrailOf(r, m, sys, Bank(c, code, sys)[j].laddr), at)
  }

  /** Any of the four flushes after any edit leaves entries that agree with the new tables, if none is
      left whose walk read the word changed. */
  lemma EditFlushed(r: Registers, m: Memory, c: Caches, at: Loc, v: bv32, f: Flush, dfc: bv8)
    requires LiveCaches(r, m, c) && at in m && NoReaderLeft(r, m, at, FlushCaches(f, dfc, c))
    ensures LiveCaches(r, m[at := v], FlushCaches(f, dfc, c))
  {
    hide LiveOk, FlushCaches, LiveBank, TrailOf, Reads;
    FlushLive(r, m, c, f, dfc);
    forall code: bool, sys: bool, j: nat | j < 16
      ensures LiveOk(r, m[at := v], sys, j, Bank(FlushCaches(f, dfc, c), code, sys)[j])
    {
      LiveBankAt(r, m, FlushCaches(f, dfc, c), code, sys, j);
      EditedSlot(r, m, at, v, sys, j, Bank(FlushCaches(f, dfc, c), code, sys)[j]);
    }
    LiveByBanks(r, m[at := v], FlushCaches(f, dfc, c));
  }

  /** PFLUSHAN is enough for a word that no global entry's walk reads; without DFC 1 or 2 for one that
      no user page's walk reads either. */
  lemma NonGlobalFlushed(r: Registers, m: Memory, c: Caches, at: Loc, v: bv32, dfc: bv8)
    requires LiveCaches(r, m, c) && at in m
    requires forall code: bool, sys: bool, j: nat :: j < 16 && Bank(c, code, sys)[j].V
               && (Bank(c, code, sys)[j].G || !InSpace(sys, dfc))
               ==> !Reads(TrailOf(r, m, sys, Bank(c, code, sys)[j].laddr), at)
    ensures LiveCaches(r, m[at := v], FlushCaches(AllNonGlobal, dfc, c))
  {
    hide LiveBank, FlushCaches, TrailOf, Reads, InSpace;
    forall code: bool, sys: bool, j: nat | j < 16 && Bank(FlushCaches(AllNonGlobal, dfc, c), code, sys)[j].V
      ensures !Reads(TrailOf(r, m, sys, Bank(FlushCaches(AllNonGlobal, dfc, c), code, sys)[j].laddr), at)
    {
      FlushLeaves(AllNonGlobal, dfc, c, code, sys, j);
    }
    EditFlushed(r, m, c, at, v, AllNonGlobal, dfc);
  }

  // ---- PTEST ----

  /** DFC 1, 2, 5 and 6 are user data, user code, supervisor data and supervisor code. */
  lemma ProbeNumbers(dfc: bv8)
    ensures ProbeSpace(dfc) <==> dfc == 1 || dfc == 2 || dfc == 5 || dfc == 6
    ensures ProbeSpace(dfc) ==> (ProbeSys(dfc) <==> dfc / 4 == 1) && (ProbeCode(dfc) <==> dfc % 4 == 2)
  {}

  /** The space that PTEST drops the page's entry in: that entry alone loses V. */
  lemma DroppedLeaves(c: Caches, code: bool, sys: bool, page: bv32, code': bool, sys': bool, j: nat)
    requires Shaped(c) && j < 16
    ensures var e, e' := Bank(c, code', sys')[j], Bank(Dropped(c, code, sys, page), code', sys')[j];
            e' == if code' == code && sys' == sys && j == (page % 16) as nat then e.(V := false) else e
  {
    hide Index;
    IndexNumber(page);
  }

  lemma TablesNotTransparent(r: Registers, st: State, page: bv32, sys: bool, code: bool, write: bool)
    requires Shaped(st.atc) && ByTables(r, page, sys, code)
    ensures !Ptest(r, st, page, sys, code, write).0.T
  {
    hide PtestTtr, AtcSearch, Index, Get, Put;
  }

  /** The entry dropped, a page found, and no stale answer: every field of MMUSR but M, in the numbers
      of the page's descriptor. */
  lemma ProbeWord(r: Registers, st: State, addr: bv32, dfc: bv8, write: bool)
    requires LiveInv(r, st) && Aligned(r) && (dfc == 1 || dfc == 2 || dfc == 5 || dfc == 6)
    requires var sys, code := dfc / 4 == 1, dfc % 4 == 2;
             && r.tcrE && !Transparent(r, sys, addr, code)
             && !Stale(r, State(st.mem, Dropped(st.atc, code, sys, PageOf(addr))), PageOf(addr), sys, code)
    ensures var sys, code := dfc / 4 == 1, dfc % 4 == 2;
            var st0 := State(st.mem, Dropped(st.atc, code, sys, PageOf(addr)));
            var (re, st') := Ptest(r, st0, PageOf(addr), sys, code, write);
            var w := Walked(r, st'.mem, sys, addr).walk;
            w.Page? ==>
              w.desc in st'.mem &&
              var pg := st'.mem[w.desc];
              Packed(re) == Number(1, 0, Flag(w.wp || Protected(pg)), Flag(re.M), pg / 0x20 % 4,
                                   Flag(Supervised(pg)), pg / 0x100 % 4, Flag(Global(pg)), 0, pg / 0x1000)
  {
    hide Ptest, PtestTtr, LiveBank, Walked, PageOf, Stale, Aligned, Packed, Number, IndirectsApart, Transparent,
         Dropped, Protected, Supervised, Global, Fits;
    var sys, code := dfc / 4 == 1, dfc % 4 == 2;
    var page := PageOf(addr);
    DropLive(r, st.mem, st.atc, code, sys, page);
    TransparentIff(r, sys, addr, code);
    var st0 := State(st.mem, Dropped(st.atc, code, sys, page));
    AnswerNumbers(r, st0, sys, addr, code, write);
    LiveTransparent(r, st0, page, sys, code, write);
    TablesNotTransparent(r, st0, page, sys, code, write);
    var (re, st') := Ptest(r, st0, page, sys, code, write);
    if re.R {
      MatchesFits(st'.mem, WalkOf(r, st'.mem, sys, page), re);
      PackedNumber(re);
    }
  }
}
