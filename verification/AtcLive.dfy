/**
 The invariant of the entries that are valid.  An entry that is not valid may remember anything:
 it matters only when a search that stops at an invalid page descriptor uses it again.
 */
module AtcLive {
  import opened Addresses
  import opened MmuTables
  import opened Atc
  import opened AtcInvariant
  import opened AtcTheorems
  import opened AtcMarks
  import opened AtcStability

  // ---- The invariant ----

  ghost predicate LiveOk(r: Registers, m: Memory, sys: bool, j: nat, e: Slot) {
    e.V ==>
      && Index(e.laddr) == j
      && (e.R ==> Agrees(m, WalkOf(r, m, sys, e.laddr), e))
      && (!e.R ==> WalkOf(r, m, sys, e.laddr) == NoTable)
  }

  ghost predicate LiveBank(r: Registers, m: Memory, sys: bool, b: seq<Slot>) {
    forall j :: 0 <= j < |b| ==> LiveOk(r, m, sys, j, b[j])
  }

  ghost predicate LiveCaches(r: Registers, m: Memory, c: Caches) {
    Shaped(c) && LiveBank(r, m, false, c.dUser) && LiveBank(r, m, true, c.dSys) &&
    LiveBank(r, m, false, c.iUser) && LiveBank(r, m, true, c.iSys)
  }

  ghost predicate LiveInv(r: Registers, st: State) {
    LiveCaches(r, st.mem, st.atc) && IndirectsApart(r, st.mem)
  }

  /** What is left in the entries that are not valid does not point at an indirect descriptor. */
  ghost predicate LeftoversApart(r: Registers, m: Memory, c: Caches) {
    forall code: bool, sys: bool, j: nat ::
      j < |Bank(c, code, sys)| && Bank(c, code, sys)[j].R ==> !Indirect(r, m, Bank(c, code, sys)[j].pgAddr)
  }

  lemma LiveBankAt(r: Registers, m: Memory, c: Caches, code: bool, sys: bool, j: nat)
    requires LiveCaches(r, m, c) && j < 16
    ensures LiveOk(r, m, sys, j, Bank(c, code, sys)[j])
  {
    hide LiveOk;
  }

  lemma LiveByBanks(r: Registers, m: Memory, c: Caches)
    requires Shaped(c)
    requires forall code: bool, sys: bool, j: nat :: j < 16 ==> LiveOk(r, m, sys, j, Bank(c, code, sys)[j])
    ensures LiveCaches(r, m, c)
  {
    hide LiveOk;
    assert forall j :: 0 <= j < 16 ==> c.dUser[j] == Bank(c, false, false)[j] && c.dSys[j] == Bank(c, false, true)[j];
    assert forall j :: 0 <= j < 16 ==> c.iUser[j] == Bank(c, true, false)[j] && c.iSys[j] == Bank(c, true, true)[j];
  }

  // ---- Entries that are not valid, forgotten ----

  function ClearedSlot(e: Slot): Slot { if e.V then e else e.(R := false) }

  function ClearedBank(b: seq<Slot>): (b': seq<Slot>)
    ensures |b'| == |b| && forall j :: 0 <= j < |b| ==> b'[j] == ClearedSlot(b[j])
  {
    seq(|b|, j requires 0 <= j < |b| => ClearedSlot(b[j]))
  }

  function Cleared(c: Caches): Caches {
    Caches(ClearedBank(c.dUser), ClearedBank(c.dSys), ClearedBank(c.iUser), ClearedBank(c.iSys))
  }

  /** A valid resident entry is clear of indirect descriptors by itself. */
  lemma LiveSlot(r: Registers, m: Memory, sys: bool, j: nat, e: Slot)
    requires IndirectsApart(r, m)
    ensures LiveOk(r, m, sys, j, e) <==> SlotOk(r, m, sys, j, ClearedSlot(e))
  {
    hide TrailOf, Indirect, Index, UBit, MBit, WBit, SBit, GBit;
    if e.V && e.R && Agrees(m, WalkOf(r, m, sys, e.laddr), e) {
      assert Marks(TrailOf(r, m, sys, e.laddr), e.pgAddr);
    }
  }

  lemma LiveClearedBank(r: Registers, m: Memory, sys: bool, b: seq<Slot>)
    requires IndirectsApart(r, m)
    ensures LiveBank(r, m, sys, b) <==> BankOk(r, m, sys, ClearedBank(b))
  {
    hide LiveOk, SlotOk, ClearedSlot, IndirectsApart;
    forall j | 0 <= j < |b| ensures LiveOk(r, m, sys, j, b[j]) <==> SlotOk(r, m, sys, j, ClearedBank(b)[j]) {
      LiveSlot(r, m, sys, j, b[j]);
    }
  }

  lemma LiveCleared(r: Registers, st: State)
    ensures LiveInv(r, st) <==> Inv(r, State(st.mem, Cleared(st.atc)))
  {
    hide LiveBank, BankOk, IndirectsApart;
    if IndirectsApart(r, st.mem) {
      LiveClearedBank(r, st.mem, false, st.atc.dUser);
      LiveClearedBank(r, st.mem, true, st.atc.dSys);
      LiveClearedBank(r, st.mem, false, st.atc.iUser);
      LiveClearedBank(r, st.mem, true, st.atc.iSys);
    }
  }

  lemma InvLive(r: Registers, st: State)
    requires Inv(r, st)
    ensures LiveInv(r, st)
  {
    hide IndirectsApart, WalkOf, Agrees, Index, Indirect;
  }

  lemma LiveKept(r: Registers, m: Memory, m': Memory, c: Caches)
    requires LiveCaches(r, m, c) && IndirectsApart(r, m) && Kept(r, m, m')
    ensures LiveInv(r, State(m', c))
  {
    hide LiveCaches, CachesOk, IndirectsApart, Kept;
    LiveCleared(r, State(m, c));
    CachesKept(r, m, m', Cleared(c));
    ApartStable(r, m, m');
    LiveCleared(r, State(m', c));
  }

  // ---- Translating with them forgotten ----

  lemma GetCleared(c: Caches, code: bool, sys: bool, page: bv32)
    requires Shaped(c)
    ensures Shaped(Cleared(c)) && Get(Cleared(c), code, sys, page) == ClearedSlot(Get(c, code, sys, page))
  {
    hide Index;
  }

  lemma PutCleared(c: Caches, code: bool, sys: bool, page: bv32, e: Slot)
    requires Shaped(c)
    ensures Shaped(Cleared(c))
    ensures Cleared(Put(c, code, sys, page, e)) == Put(Cleared(c), code, sys, page, ClearedSlot(e))
  {
    hide Index, ClearedSlot;
    var j := Index(page);
    assert forall b: seq<Slot> :: |b| == 16 ==> ClearedBank(b[j := e]) == ClearedBank(b)[j := ClearedSlot(e)];
  }

  lemma FinishCleared(m: Memory, c: Caches, code: bool, sys: bool, page: bv32, write: bool)
    requires Shaped(c) && ClearedSlot(Get(c, code, sys, page)) == Get(c, code, sys, page)
    ensures Shaped(Cleared(c))
    ensures var (res, st') := Finish(m, c, code, sys, page, write);
            Finish(m, Cleared(c), code, sys, page, write) == (res, State(st'.mem, Cleared(st'.atc)))
  {
    hide Get, Put, Cleared, Modified;
    var e := Get(c, code, sys, page);
    GetCleared(c, code, sys, page);
    PutCleared(c, code, sys, page, e.(M := true));
  }

  lemma SetCleared(m: Memory, e: Slot, page: bv32, entry: Loc, write: bool, wp: bool, sys: bool)
    ensures var s := AtcSet(m, e, page, entry, write, wp, sys);
            AtcSet(m, ClearedSlot(e), page, entry, write, wp, sys) == s.(slot := ClearedSlot(s.slot))
  {
    hide MarkDescriptor, PageInvalid, Descriptor, WBit, GBit, SBit, MBit, Used;
  }

  lemma NotFoundCleared(e: Slot, page: bv32)
    ensures NotFound(ClearedSlot(e), page) == ClearedSlot(NotFound(e, page))
  {}

  /** SearchPointer past a resident pointer descriptor. */
  lemma PointerFound(r: Registers, m: Memory, e: Slot, page: bv32, sys: bool, write: bool, urp: bv32)
    requires PdtLookup(m, PointerEntry(urp, page)).Found?
    ensures var pt := PdtLookup(m, PointerEntry(urp, page)).word;
            SearchPointer(r, m, e, page, sys, write, urp)
            == AtcSet(m[PointerEntry(urp, page) := pt], e, page, PageEntry(r, pt, page), write,
                      WBit(urp) || WBit(pt), sys)
  {
    hide AtcSet, PointerEntry, PageEntry, PdtLookup, WBit, NotFound;
  }

  lemma PointerCleared(r: Registers, m: Memory, e: Slot, page: bv32, sys: bool, write: bool, urp: bv32)
    ensures var s := SearchPointer(r, m, e, page, sys, write, urp);
            SearchPointer(r, m, ClearedSlot(e), page, sys, write, urp) == s.(slot := ClearedSlot(s.slot))
  {
    if PdtLookup(m, PointerEntry(urp, page)).Found? {
      PointerFoundCleared(r, m, e, page, sys, write, urp);
    } else {
      hide AtcSet, PointerEntry, PageEntry, PdtLookup, WBit, NotFound, ClearedSlot;
      NotFoundCleared(e, page);
    }
  }

  lemma PointerFoundCleared(r: Registers, m: Memory, e: Slot, page: bv32, sys: bool, write: bool, urp: bv32)
    requires PdtLookup(m, PointerEntry(urp, page)).Found?
    ensures var s := SearchPointer(r, m, e, page, sys, write, urp);
            SearchPointer(r, m, ClearedSlot(e), page, sys, write, urp) == s.(slot := ClearedSlot(s.slot))
  {
    hide SearchPointer, AtcSet, PointerEntry, PageEntry, PdtLookup, WBit, NotFound, ClearedSlot;
    var pointer := PointerEntry(urp, page);
    var pt := PdtLookup(m, pointer).word;
    PointerFound(r, m, e, page, sys, write, urp);
    PointerFound(r, m, ClearedSlot(e), page, sys, write, urp);
    SetCleared(m[pointer := pt], e, page, PageEntry(r, pt, page), write, WBit(urp) || WBit(pt), sys);
  }

  lemma SearchCleared(r: Registers, m: Memory, e: Slot, page: bv32, sys: bool, write: bool)
    ensures var s := AtcSearch(r, m, e, page, sys, write);
            AtcSearch(r, m, ClearedSlot(e), page, sys, write) == s.(slot := ClearedSlot(s.slot))
  {
    hide SearchPointer, RootEntry, PdtLookup, NotFound, ClearedSlot;
    NotFoundCleared(e, page);
    var root := RootEntry(r, sys, page);
    match PdtLookup(m, root)
    case BusError =>
    case Absent =>
    case Found(urp) => PointerCleared(r, m[root := urp], e, page, sys, write, urp);
  }

  /** Does a search go back to what is left in an entry that is not valid? */
  predicate Leftover(r: Registers, st: State, page: bv32, sys: bool, code: bool)
    requires Shaped(st.atc)
  {
    Stale(r, st, page, sys, code) && !Get(st.atc, code, sys, page).V
  }

  lemma TablesCleared(r: Registers, st: State, page: bv32, sys: bool, code: bool, write: bool)
    requires Shaped(st.atc)
    requires var e := Get(st.atc, code, sys, page);
             var s := AtcSearch(r, st.mem, e, page, sys, write);
             Hit(e, page) || !s.ok || ClearedSlot(s.slot) == s.slot
    ensures Shaped(Cleared(st.atc))
    ensures var (res, st') := PtestTables(r, st, page, sys, code, write);
            PtestTables(r, State(st.mem, Cleared(st.atc)), page, sys, code, write)
                == (res, State(st'.mem, Cleared(st'.atc)))
  {
    hide Get, Put, Finish, AtcSearch, Cleared;
    var e := Get(st.atc, code, sys, page);
    var s := AtcSearch(r, st.mem, e, page, sys, write);
    GetCleared(st.atc, code, sys, page);
    if Hit(e, page) {
      FinishCleared(st.mem, st.atc, code, sys, page, write);
    } else {
      SearchCleared(r, st.mem, e, page, sys, write);
      if s.ok {
        PutCleared(st.atc, code, sys, page, s.slot);
        PutGet(st.atc, code, sys, page, s.slot);
        FinishCleared(s.mem, Put(st.atc, code, sys, page, s.slot), code, sys, page, write);
      }
    }
  }

  lemma SlotIsCleared(r: Registers, st: State, page: bv32, sys: bool, code: bool, write: bool)
    requires Shaped(st.atc) && IndirectsApart(r, st.mem) && !Leftover(r, st, page, sys, code)
    ensures var e := Get(st.atc, code, sys, page);
            var s := AtcSearch(r, st.mem, e, page, sys, write);
            Hit(e, page) || !s.ok || ClearedSlot(s.slot) == s.slot
  {
    hide Get, AtcSearch, IndirectsApart, TrailOf, Kept, UBit, WBit, GBit, MBit, SBit;
    var e := Get(st.atc, code, sys, page);
    AtcSearchWalk(r, st.mem, e, page, sys, write);
  }

  /** Unless what is left in an entry is used, it might as well be forgotten. */
  lemma PtestCleared(r: Registers, st: State, page: bv32, sys: bool, code: bool, write: bool)
    requires Shaped(st.atc) && IndirectsApart(r, st.mem)
    requires ByTables(r, page, sys, code) ==> !Leftover(r, st, page, sys, code)
    ensures Shaped(Cleared(st.atc))
    ensures var (res, st') := Ptest(r, st, page, sys, code, write);
            Ptest(r, State(st.mem, Cleared(st.atc)), page, sys, code, write) == (res, State(st'.mem, Cleared(st'.atc)))
  {
    hide PtestTables, PtestTtr, Leftover, Get, AtcSearch, Hit, Cleared, IndirectsApart;
    GetCleared(st.atc, code, sys, page);
    if ByTables(r, page, sys, code) {
      SlotIsCleared(r, st, page, sys, code, write);
      TablesCleared(r, st, page, sys, code, write);
    }
  }

  // ---- Translations ----

  /** Will the late M of a stale write hit an indirect descriptor? */
  ghost predicate LateHits(r: Registers, st: State, page: bv32, sys: bool, code: bool, write: bool)
    requires Shaped(st.atc)
  {
    var e := Get(st.atc, code, sys, page);
    && ByTables(r, page, sys, code) && Stale(r, st, page, sys, code)
    && MustModify(e, sys, write) && Indirect(r, st.mem, e.pgAddr) && e.pgAddr in st.mem && !MBit(st.mem[e.pgAddr])
  }

  lemma LiveIndirect(r: Registers, st: State, code: bool, sys: bool, page: bv32)
    requires LiveInv(r, st)
    ensures var e := Get(st.atc, code, sys, page); e.V && e.R ==> !Indirect(r, st.mem, e.pgAddr)
  {
    hide LiveBank, BankOk, IndirectsApart, Indirect, Cleared, Get, WalkOf, Agrees, Index;
    LiveCleared(r, st);
    GetCleared(st.atc, code, sys, page);
    GetOk(r, st.mem, Cleared(st.atc), code, sys, page);
  }

  lemma LivePut(r: Registers, m: Memory, c: Caches, code: bool, sys: bool, page: bv32, e: Slot)
    requires LiveCaches(r, m, c) && !e.V
    ensures LiveCaches(r, m, Put(c, code, sys, page, e))
  {
    hide Index, WalkOf, Agrees;
  }

  /** A stale answer out of an entry that is not valid. */
  lemma LeftoverStage(r: Registers, st: State, page: bv32, sys: bool, code: bool, write: bool)
    requires LiveInv(r, st) && ByTables(r, page, sys, code) && Leftover(r, st, page, sys, code)
    ensures var s := AtcSearch(r, st.mem, Get(st.atc, code, sys, page), page, sys, write);
            && s.ok && s.slot == Get(st.atc, code, sys, page)
            && Kept(r, st.mem, s.mem) && LiveInv(r, State(s.mem, st.atc)) && WalkOf(r, s.mem, sys, page) == NoPage
            && Ptest(r, st, page, sys, code, write) == Finish(s.mem, st.atc, code, sys, page, write)
  {
    hide PtestTtr, Get, Put, AtcSearch, Finish, LiveBank, IndirectsApart, Kept, TrailOf, UBit, WBit, Fill;
    var e := Get(st.atc, code, sys, page);
    AtcSearchWalk(r, st.mem, e, page, sys, write);
    var s := AtcSearch(r, st.mem, e, page, sys, write);
    LiveKept(r, st.mem, s.mem, st.atc);
    WalkStable(r, st.mem, s.mem, sys, page);
    PutSame(st.atc, code, sys, page);
  }

  /** What follows it. */
  lemma LeftoverFinish(r: Registers, m: Memory, c: Caches, code: bool, sys: bool, page: bv32, write: bool)
    requires LiveInv(r, State(m, c)) && !Get(c, code, sys, page).V
    requires var e := Get(c, code, sys, page);
             MustModify(e, sys, write) && e.pgAddr in m ==> MBit(m[e.pgAddr]) || !Indirect(r, m, e.pgAddr)
    ensures var st' := Finish(m, c, code, sys, page, write).1;
            LiveInv(r, st') && Kept(r, m, st'.mem)
  {
    hide Modified, MBit, MarkOf, UBit, Get, Put, LiveBank, IndirectsApart, Kept, Indirect;
    var e := Get(c, code, sys, page);
    KeptReflexive(r, m);
    if MustModify(e, sys, write) && e.pgAddr in m {
      var m' := m[e.pgAddr := Modified(m[e.pgAddr])];
      ModifiedMark(m[e.pgAddr]);
      ModifiedNew(m[e.pgAddr]);
      if MBit(m[e.pgAddr]) {
        assert m' == m;
      } else {
        MarkKept(r, m, e.pgAddr, m'[e.pgAddr]);
      }
      LiveKept(r, m, m', c);
      LivePut(r, m', c, code, sys, page, e.(M := true));
    }
  }

  lemma LateIndirect(r: Registers, m: Memory, m': Memory, w: Loc)
    requires Kept(r, m, m') && w in m
    ensures Indirect(r, m', w) == Indirect(r, m, w)
    ensures Indirect(r, m, w) ==> m'[w] == m[w]
  {
    hide Indirect, Reads, TrailOf;
    IndirectStable(r, m, m', w);
  }

  /** Every translation keeps the invariant of the valid entries and every walk, unless the
      late M of a stale write hits an indirect descriptor. */
  lemma PtestLive(r: Registers, st: State, page: bv32, sys: bool, code: bool, write: bool)
    requires LiveInv(r, st) && !LateHits(r, st, page, sys, code, write)
    ensures var st' := Ptest(r, st, page, sys, code, write).1;
            LiveInv(r, st') && Kept(r, st.mem, st'.mem)
  {
    hide Ptest, PtestTtr, Get, AtcSearch, Finish, LiveBank, BankOk, IndirectsApart, Kept, Indirect, Cleared, MBit,
         TrailOf;
    if ByTables(r, page, sys, code) && Leftover(r, st, page, sys, code) {
      var e := Get(st.atc, code, sys, page);
      var s := AtcSearch(r, st.mem, e, page, sys, write);
      LeftoverStage(r, st, page, sys, code, write);
      KeptIsKeys(r, st.mem, s.mem);
      if e.pgAddr in st.mem {
        LateIndirect(r, st.mem, s.mem, e.pgAddr);
      }
      LeftoverFinish(r, s.mem, st.atc, code, sys, page, write);
      KeptTransitive(r, st.mem, s.mem, Finish(s.mem, st.atc, code, sys, page, write).1.mem);
    } else {
      PtestCleared(r, st, page, sys, code, write);
      LiveCleared(r, st);
      PtestInv(r, State(st.mem, Cleared(st.atc)), page, sys, code, write);
      LiveCleared(r, Ptest(r, st, page, sys, code, write).1);
      PtestShaped(r, st, page, sys, code, write);
    }
  }

  lemma PtestShaped(r: Registers, st: State, page: bv32, sys: bool, code: bool, write: bool)
    requires Shaped(st.atc)
    ensures Shaped(Ptest(r, st, page, sys, code, write).1.atc)
  {}

  lemma KeptIsKeys(r: Registers, m: Memory, m': Memory)
    requires Kept(r, m, m')
    ensures m'.Keys == m.Keys
  {}

  /** A mark on any one word leaves a walk that stops at an invalid page descriptor where it was. */
  lemma NoPageStays(r: Registers, m: Memory, w: Loc, v: bv32, sys: bool, page: bv32)
    requires IndirectsApart(r, m) && WalkOf(r, m, sys, page) == NoPage && w in m && MarkOf(m[w], v)
    ensures TrailOf(r, m[w := v], sys, page) == TrailOf(r, m, sys, page)
  {
    hide RootEntry, PointerEntry, PageEntry, TableResident, PageInvalid, PageIndirect, WBit, MarkOf, Kept,
         IndirectTarget;
    var t := TrailOf(r, m, sys, page);
    if Indirect(r, m, w) {
      TypesExclude(m[w]);
      assert !Marks(t, w);
      UnreadWord(r, m, w, v, sys, page);
    } else {
      MarkKept(r, m, w, v);
      WalkStable(r, m, m[w := v], sys, page);
    }
  }

  lemma LeftoverAnswer(r: Registers, m: Memory, c: Caches, code: bool, sys: bool, page: bv32, write: bool)
    requires Shaped(c) && IndirectsApart(r, m) && WalkOf(r, m, sys, page) == NoPage && Get(c, code, sys, page).R
    ensures var (res, st') := Finish(m, c, code, sys, page, write);
            !Matches(st'.mem, WalkOf(r, st'.mem, sys, page), res)
  {
    hide Modified, MarkOf, UBit, MBit, Get, Put, IndirectsApart, TrailOf;
    var e := Get(c, code, sys, page);
    if MustModify(e, sys, write) && e.pgAddr in m {
      ModifiedMark(m[e.pgAddr]);
      NoPageStays(r, m, e.pgAddr, Modified(m[e.pgAddr]), sys, page);
    }
  }

  /** Transparency with nothing asked of the entries that are not valid. */
  lemma LiveTransparent(r: Registers, st: State, page: bv32, sys: bool, code: bool, write: bool)
    requires LiveInv(r, st) && ByTables(r, page, sys, code)
    ensures var (res, st') := Ptest(r, st, page, sys, code, write);
            Matches(st'.mem, WalkOf(r, st'.mem, sys, page), res) <==> !Stale(r, st, page, sys, code)
  {
    hide Ptest, PtestTtr, Get, AtcSearch, Finish, LiveBank, BankOk, IndirectsApart, Kept, Cleared, TrailOf, Matches;
    var e := Get(st.atc, code, sys, page);
    if Leftover(r, st, page, sys, code) {
      LeftoverStage(r, st, page, sys, code, write);
      LeftoverAnswer(r, AtcSearch(r, st.mem, e, page, sys, write).mem, st.atc, code, sys, page, write);
    } else {
      PtestCleared(r, st, page, sys, code, write);
      GetCleared(st.atc, code, sys, page);
      LiveCleared(r, st);
      PtestTransparent(r, State(st.mem, Cleared(st.atc)), page, sys, code, write);
    }
  }

  lemma OwnMarks(r: Registers, m: Memory, sys: bool, page: bv32, write: bool, w: Loc)
    requires IndirectsApart(r, m) && SearchMark(TrailOf(r, m, sys, page), m, sys, write, w)
    ensures !Indirect(r, m, w)
  {
    hide TrailOf, Indirect, UBit, MBit, WBit, SBit, MayModify;
    assert Marks(TrailOf(r, m, sys, page), w);
  }

  /** Exactly when a translation moves a walk: a stale write whose late M newly hits an
      indirect descriptor. */
  lemma LateHitsIff(r: Registers, st: State, page: bv32, sys: bool, code: bool, write: bool)
    requires LiveInv(r, st)
    ensures var m' := Ptest(r, st, page, sys, code, write).1.mem;
            (forall s: bool, p: bv32 :: TrailOf(r, m', s, p) == TrailOf(r, st.mem, s, p))
            <==> !LateHits(r, st, page, sys, code, write)
  {
    hide Ptest, PtestTtr, Get, LiveBank, IndirectsApart, Indirect, TrailOf, SearchMark, MBit, MustModify, ByTables;
    var e := Get(st.atc, code, sys, page);
    PtestWalksIff(r, st, page, sys, code, write);
    LiveIndirect(r, st, code, sys, page);
    NoMustModify(e, sys, write);
    if LateHits(r, st, page, sys, code, write) {
      assert NewlyMarked(r, st, page, sys, code, write, e.pgAddr);
    } else {
      forall w: Loc | NewlyMarked(r, st, page, sys, code, write, w) ensures !Indirect(r, st.mem, w) {
        if SearchMark(TrailOf(r, st.mem, sys, page), st.mem, sys, write, w) {
          OwnMarks(r, st.mem, sys, page, write, w);
        }
      }
    }
  }
}
