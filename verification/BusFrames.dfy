/**
 Which frames a long access at offset 0xffd needs to be right whatever the data: the two pages'
 frames have to be adjacent, and inside one 8K page they are.
 */
module BusFrames {
  import opened Addresses
  import opened MmuTables
  import opened Atc
  import opened AtcInvariant
  import opened AtcTheorems
  import opened AtcData
  import opened AtcMarks
  import opened AtcWrites
  import opened BusAccess
  import opened BusTheorems
  import opened BusWrites
  import opened BusRoundTrip
  import opened BusUnsplitReads

  // ---- What a translation answers, from the memory before it ----

  /** Alike in everything an access depends on. */
  predicate SameAccess(res: MmuResult, res': MmuResult) {
    && res.R == res'.R && res.B == res'.B
    && (res.R ==> res.paddr == res'.paddr && res.W == res'.W && res.S == res'.S)
  }

  lemma MatchesKept(r: Registers, m: Memory, m': Memory, sys: bool, page: bv32, res: MmuResult)
    requires Kept(r, m, m') && Matches(m', WalkOf(r, m, sys, page), res)
    ensures Matches(m, WalkOf(r, m, sys, page), res)
  {
    hide TrailOf, Indirect, MarkOf, TakenFrom;
    var t := TrailOf(r, m, sys, page);
    if t.walk.Page? {
      assert Reads(t, t.walk.desc);
      TakenBack(res, m[t.walk.desc], m'[t.walk.desc], t.walk.wp);
    }
  }

  lemma TakenBack(res: MmuResult, pg: bv32, pg': bv32, wp: bool)
    requires MarkOf(pg, pg') && TakenFrom(res, pg', wp)
    ensures TakenFrom(res, pg, wp)
  {
    hide UBit, MBit, WBit, SBit, GBit, Same;
    SameAttributes(pg, pg');
  }

  lemma MatchesBefore(r: Registers, st: State, page: bv32, sys: bool, write: bool)
    requires Inv(r, st) && ByTables(r, page, sys, false) && !Stale(r, st, page, sys, false)
    ensures Matches(st.mem, WalkOf(r, st.mem, sys, page), Ptest(r, st, page, sys, false, write).0)
  {
    hide Ptest, BankOk, IndirectsApart, PtestTtr, TrailOf, Kept, Matches, Get;
    var (res, st') := Ptest(r, st, page, sys, false, write);
    PtestInv(r, st, page, sys, false, write);
    PtestTransparent(r, st, page, sys, false, write);
    WalkStable(r, st.mem, st'.mem, sys, page);
    MatchesKept(r, st.mem, st'.mem, sys, page, res);
  }

  lemma StaleAnswerIs(r: Registers, st: State, page: bv32, sys: bool, write: bool)
    requires Inv(r, st) && ByTables(r, page, sys, false) && Stale(r, st, page, sys, false)
    ensures SameAccess(Ptest(r, st, page, sys, false, write).0, SlotResult(Get(st.atc, false, sys, page)))
  {
    hide BankOk, IndirectsApart, PtestTtr, TrailOf, Kept, Get, Put, AtcSearch, Finish;
    var e := Get(st.atc, false, sys, page);
    SearchedCachesOk(r, st, page, sys, false, write);
    var s := AtcSearch(r, st.mem, e, page, sys, write);
    PutSame(st.atc, false, sys, page);
    FinishOk(r, s.mem, st.atc, false, sys, page, write);
    PutGet(st.atc, false, sys, page, e.(M := true));
  }

  lemma MatchesAlike(m: Memory, m': Memory, w: Walk, res: MmuResult, res': MmuResult)
    requires Matches(m, w, res) && Matches(m', w, res')
             && (w.Page? ==> w.desc in m && w.desc in m' && m'[w.desc] == m[w.desc])
    ensures SameAccess(res, res')
  {
    hide SBit, GBit, WBit;
  }

  /** Words that no walk of the page reads take no part in the answer. */
  lemma ResultAlike(r: Registers, st: State, m': Memory, page: bv32, sys: bool, write: bool)
    requires Inv(r, st) && Inv(r, State(m', st.atc)) && SameTrailWords(r, st.mem, m', sys, page)
    ensures SameAccess(Ptest(r, st, page, sys, false, write).0, Ptest(r, State(m', st.atc), page, sys, false, write).0)
  {
    hide Ptest, BankOk, IndirectsApart, PtestTtr, TrailOf, Matches, Get, SameAccess, Reads;
    TrailAgrees(r, st.mem, m', sys, page);
    var res, res' := Ptest(r, st, page, sys, false, write).0, Ptest(r, State(m', st.atc), page, sys, false, write).0;
    if !ByTables(r, page, sys, false) {
      DirectAlike(r, st, m', page, sys, write);
    } else if Stale(r, st, page, sys, false) {
      StaleAnswerIs(r, st, page, sys, write);
      StaleAnswerIs(r, State(m', st.atc), page, sys, write);
      AlikeTwice(res, res', SlotResult(Get(st.atc, false, sys, page)));
    } else {
      MatchesBefore(r, st, page, sys, write);
      MatchesBefore(r, State(m', st.atc), page, sys, write);
      DescThere(st.mem, WalkOf(r, st.mem, sys, page), res);
      DescRead(r, st.mem, sys, page);
      MatchesAlike(st.mem, m', WalkOf(r, st.mem, sys, page), res, res');
    }
  }

  lemma AlikeTwice(res: MmuResult, res': MmuResult, other: MmuResult)
    requires SameAccess(res, other) && SameAccess(res', other)
    ensures SameAccess(res, res')
  {}

  lemma DescThere(m: Memory, w: Walk, res: MmuResult)
    requires Matches(m, w, res)
    ensures w.Page? ==> w.desc in m
  {}

  lemma DescRead(r: Registers, m: Memory, sys: bool, page: bv32)
    ensures var t := TrailOf(r, m, sys, page); t.walk.Page? ==> Reads(t, t.walk.desc)
  {
    hide TrailOf;
  }

  /** Without tables the answer depends on the registers and the page number. */
  lemma DirectAlike(r: Registers, st: State, m': Memory, page: bv32, sys: bool, write: bool)
    requires Shaped(st.atc) && !ByTables(r, page, sys, false)
    ensures SameAccess(Ptest(r, st, page, sys, false, write).0, Ptest(r, State(m', st.atc), page, sys, false, write).0)
  {
    hide PtestTtr, PtestTables;
  }

  lemma CheckAlike(r: Registers, res: MmuResult, res': MmuResult, sys: bool, write: bool, addr: bv32)
    requires SameAccess(res, res')
    ensures Check(r, res, sys, write, addr) == Check(r, res', sys, write, addr)
  {
    hide PhysAddr;
  }

  // ---- Whatever the data ----

  /** The state with a byte of data stored at a. */
  function Stored(st: State, a: bv32, b: bv32): (st': State)
    requires Mapped(st.mem, a)
    ensures st'.atc == st.atc
  {
    State(StoreByte(st.mem, a, b), st.atc)
  }

  /** The byte behind the first three in their frame. */
  function BehindPhys(r: Registers, st: State, sys: bool, addr: bv32, write: bool): bv32
    requires Shaped(st.atc) && PtestAndCheck(r, st, sys, addr, false, write).0.Phys?
  {
    Skip(FirstPhys(r, st, sys, addr, write), 3)
  }

  /** What the next page's translation says of the fourth byte. */
  function NextCheck(r: Registers, st: State, sys: bool, addr: bv32, write: bool): (result: (Checked, State))
    requires Shaped(st.atc)
    ensures Shaped(result.1.atc)
  {
    PtestAndCheck(r, PtestAndCheck(r, st, sys, addr, false, write).1, sys, Skip(addr, 3), false, write)
  }

  lemma MarkedBit(v: bv32, w: bv32, lane: bv32)
    requires MarkOf(v, w)
    ensures GetByte(v, lane) & 1 == GetByte(w, lane) & 1
  {}

  lemma MarkedByte(m: Memory, m': Memory, a: bv32)
    requires OnlyMarks(m, m') && Mapped(m, a)
    ensures Mapped(m', a) && MemByte(m', a) & 1 == MemByte(m, a) & 1
  {
    hide MarkOf, GetByte, WordAt, Lane;
    MarkedBit(m[WordAt(a)], m'[WordAt(a)], Lane(a));
  }

  /** The first page's translation after a byte of data has been stored. */
  lemma FirstAgain(r: Registers, st: State, sys: bool, addr: bv32, lock: bool, a: bv32, b: bv32)
    requires Inv(r, st) && WholePages(st.mem) && ReadB(r, st, sys, addr, lock).0.Data?
    requires var st1 := ReadB(r, st, sys, addr, lock).1; Mapped(st1.mem, a) && !TableWord(r, st1.mem, WordAt(a))
    ensures var st1 := ReadB(r, st, sys, addr, lock).1;
            var sb := Stored(st1, a, b);
            && Inv(r, sb) && WholePages(sb.mem) && Kept(r, st1.mem, sb.mem) && sb.mem.Keys == st1.mem.Keys
            && PtestAndCheck(r, sb, sys, addr, false, lock) == (PtestAndCheck(r, st, sys, addr, false, lock).0, sb)
            && ReadB(r, sb, sys, addr, lock).0.Data? && ReadB(r, sb, sys, addr, lock).1 == sb
  {
    hide Ptest, PageOf, Check, BankOk, IndirectsApart, WholePages, TableWord, StoreByte, Mapped, WordAt, TrailOf, Kept;
    var st1 := ReadB(r, st, sys, addr, lock).1;
    var sb := Stored(st1, a, b);
    PtestInv(r, st, PageOf(addr), sys, false, lock);
    KeptKeys(r, st.mem, st1.mem);
    StoreByteInv(r, st1, a, b);
    KeptKeys(r, st1.mem, sb.mem);
    WholePagesKeys(st.mem, sb.mem);
    SameReflexive(r, st1.mem, sys, PageOf(addr));
    StoreTrailWords(r, st1.mem, st1.mem, sys, PageOf(addr), a, b);
    PtestAgain(r, st, PageOf(addr), sys, false, lock, sb.mem);
    StillReadable(r, st, sb, sys, addr, lock);
  }

  lemma StillReadable(r: Registers, st: State, sb: State, sys: bool, addr: bv32, lock: bool)
    requires Shaped(st.atc) && Shaped(sb.atc) && ReadB(r, st, sys, addr, lock).0.Data?
    requires sb.mem.Keys == ReadB(r, st, sys, addr, lock).1.mem.Keys
    requires PtestAndCheck(r, sb, sys, addr, false, lock) == (PtestAndCheck(r, st, sys, addr, false, lock).0, sb)
    ensures ReadB(r, sb, sys, addr, lock).0.Data? && ReadB(r, sb, sys, addr, lock).1 == sb
  {
    hide PtestAndCheck, MemByte, WordAt, Succ, Append;
  }

  /** And the next page's. */
  lemma NextAlike(r: Registers, st1: State, sys: bool, addr: bv32, lock: bool, a: bv32, b: bv32)
    requires Inv(r, st1) && Mapped(st1.mem, a) && !TableWord(r, st1.mem, WordAt(a)) && Inv(r, Stored(st1, a, b))
    ensures PtestAndCheck(r, Stored(st1, a, b), sys, addr, false, lock).0
            == PtestAndCheck(r, st1, sys, addr, false, lock).0
  {
    hide Ptest, PageOf, Check, BankOk, IndirectsApart, TableWord, StoreByte, Mapped, WordAt, TrailOf, SameAccess;
    SameReflexive(r, st1.mem, sys, PageOf(addr));
    StoreTrailWords(r, st1.mem, st1.mem, sys, PageOf(addr), a, b);
    ResultAlike(r, st1, StoreByte(st1.mem, a, b), PageOf(addr), sys, lock);
    CheckAlike(r, Ptest(r, st1, PageOf(addr), sys, false, lock).0,
               Ptest(r, Stored(st1, a, b), PageOf(addr), sys, false, lock).0,
               sys, lock, addr);
  }

  lemma ByteRead(r: Registers, st: State, sys: bool, addr: bv32, lock: bool, p: bv32)
    requires Shaped(st.atc) && PtestAndCheck(r, st, sys, addr, false, lock).0 == Phys(p)
    requires Mapped(PtestAndCheck(r, st, sys, addr, false, lock).1.mem, p)
    ensures var st1 := PtestAndCheck(r, st, sys, addr, false, lock).1;
            ReadB(r, st, sys, addr, lock) == (Data(MemByte(st1.mem, p)), st1)
  {
    hide PtestAndCheck, MemByte, Mapped;
    OneByte(PtestAndCheck(r, st, sys, addr, false, lock).1.mem, p);
  }

  lemma CheckMarks(r: Registers, st: State, sys: bool, addr: bv32, write: bool)
    requires Shaped(st.atc)
    ensures OnlyMarks(st.mem, PtestAndCheck(r, st, sys, addr, false, write).1.mem)
  {
    hide Ptest, Check, PageOf, MarkOf;
    PtestMarks(r, st, PageOf(addr), sys, false, write);
  }

  /** The setting of the theorem: at offset 0xffd, both pages can be read, and the byte behind the first
      three is data. */
  ghost predicate BothReadable(r: Registers, st: State, sys: bool, addr: bv32, lock: bool) {
    && Inv(r, st) && WholePages(st.mem) && Unsplit(addr) && ReadB(r, st, sys, addr, lock).0.Data?
    && LastRead(r, st, sys, addr, lock).0.Data?
    && PtestAndCheck(r, st, sys, addr, false, lock).0.Phys?
    && var st1, a3 := ReadB(r, st, sys, addr, lock).1, BehindPhys(r, st, sys, addr, lock);
       && st1 == PtestAndCheck(r, st, sys, addr, false, lock).1
       && Mapped(st1.mem, a3) && !TableWord(r, st1.mem, WordAt(a3))
  }

  /** Does the second translation, of a locked read, set M in that byte? */
  ghost predicate LateBetween(r: Registers, st: State, sys: bool, addr: bv32, lock: bool)
    requires BothReadable(r, st, sys, addr, lock)
  {
    var st1, a3 := ReadB(r, st, sys, addr, lock).1, BehindPhys(r, st, sys, addr, lock);
    RemembersData(r, st1, PageOf(Skip(addr, 3)), sys, false, lock)
    && HoldsM(Get(st1.atc, false, sys, PageOf(Skip(addr, 3))).pgAddr, a3)
  }

  lemma ReadState(r: Registers, st: State, sys: bool, addr: bv32, lock: bool)
    requires Shaped(st.atc)
    ensures ReadB(r, st, sys, addr, lock).1 == PtestAndCheck(r, st, sys, addr, false, lock).1
  {
    hide PtestAndCheck, Mapped;
  }

  lemma NextReadable(r: Registers, st: State, sys: bool, addr: bv32, lock: bool)
    requires Shaped(st.atc) && ReadB(r, st, sys, addr, lock).0.Data?
    ensures var (c, st1) := PtestAndCheck(r, st, sys, addr, false, lock);
            c.Phys? && Mapped(st1.mem, c.a)
  {
    hide PtestAndCheck, Mapped;
  }

  /** With b stored behind the first three bytes, the two agree just when the next page finds b. */
  lemma AgreeWith(r: Registers, st: State, sys: bool, addr: bv32, lock: bool, b: bv32)
    requires BothReadable(r, st, sys, addr, lock)
    ensures var st1, a3 := ReadB(r, st, sys, addr, lock).1, BehindPhys(r, st, sys, addr, lock);
            var sb := Stored(st1, a3, b);
            var (c, st2) := PtestAndCheck(r, sb, sys, Skip(addr, 3), false, lock);
            && c == NextCheck(r, st, sys, addr, lock).0 && c.Phys? && Mapped(st2.mem, c.a)
            && Inv(r, sb) && Kept(r, st1.mem, sb.mem) && OnlyMarks(sb.mem, st2.mem) && Mapped(sb.mem, c.a)
            && (ReadL(r, sb, sys, addr, lock).0 == ReadBytes(r, sb, sys, addr, 4, lock, 0, true).0
                <==> MemByte(st2.mem, c.a) == b & 0xff)
  {
    hide ReadL, ReadBytes, PtestAndCheck, BankOk, IndirectsApart, WholePages, TableWord, StoreByte, Mapped, WordAt,
         RemembersData, Present, Kept, Skip, Unsplit, MemByte, ReadB, MarkOf;
    var st1, a3 := ReadB(r, st, sys, addr, lock).1, BehindPhys(r, st, sys, addr, lock);
    var sb := Stored(st1, a3, b);
    FirstAgain(r, st, sys, addr, lock, a3, b);
    ReadInv(r, st, sys, addr, lock);
    NextAlike(r, st1, sys, Skip(addr, 3), lock, a3, b);
    NextReadable(r, st1, sys, Skip(addr, 3), lock);
    var (c, st2) := PtestAndCheck(r, sb, sys, Skip(addr, 3), false, lock);
    CheckMarks(r, sb, sys, Skip(addr, 3), lock);
    CheckMarks(r, st1, sys, Skip(addr, 3), lock);
    MappedAlike(st1.mem, PtestAndCheck(r, st1, sys, Skip(addr, 3), false, lock).1.mem, c.a);
    MappedAlike(st1.mem, sb.mem, c.a);
    MappedAlike(sb.mem, st2.mem, c.a);
    ByteRead(r, sb, sys, Skip(addr, 3), lock, c.a);
    UnsplitReadIff(r, sb, sys, addr, lock);
    StoreSame(st1.mem, a3, b);
  }

  lemma ReadInv(r: Registers, st: State, sys: bool, addr: bv32, lock: bool)
    requires Inv(r, st)
    ensures Inv(r, ReadB(r, st, sys, addr, lock).1)
  {
    hide Ptest, Check, BankOk, IndirectsApart, Mapped, PageOf;
    PtestInv(r, st, PageOf(addr), sys, false, lock);
  }

  lemma MappedAlike(m: Memory, m': Memory, a: bv32)
    requires m'.Keys == m.Keys || OnlyMarks(m, m')
    ensures Mapped(m', a) == Mapped(m, a)
  {
    hide WordAt, MarkOf;
  }

  lemma FlipBit(x: bv32)
    ensures var b := if x & 1 == 0 then 1 else 0; b & 0xff == b && b & 1 != x & 1
  {}

  lemma SameByte(m: Memory, m': Memory, a: bv32)
    requires Mapped(m, a) && WordAt(a) in m' && m'[WordAt(a)] == m[WordAt(a)]
    ensures Mapped(m', a) && MemByte(m', a) == MemByte(m, a)
  {
    hide WordAt, GetByte;
  }

  /** What the second translation makes of a data byte. */
  lemma ByteAfter(r: Registers, st: State, sys: bool, other: bv32, write: bool, a: bv32)
    requires Inv(r, st) && Mapped(st.mem, a) && !TableWord(r, st.mem, WordAt(a))
    ensures var m' := PtestAndCheck(r, st, sys, other, false, write).1.mem;
            var late := RemembersData(r, st, PageOf(other), sys, false, write)
                        && HoldsM(Get(st.atc, false, sys, PageOf(other)).pgAddr, a);
            Mapped(m', a) && MemByte(m', a) == if late then ByteWithM(MemByte(st.mem, a)) else MemByte(st.mem, a)
  {
    LaneRange(a);
    hide Ptest, PageOf, BankOk, IndirectsApart, TableWord, WordAt, Lane, RemembersData, Modified, Check, GetByte,
         ByteWithM, Get;
    DataAfter(r, st, PageOf(other), sys, false, write, WordAt(a));
    ModifiedByte(st.mem[WordAt(a)], Lane(a));
  }

  /** Adjacent frames: the next page finds the byte stored, with M if that comes between. */
  lemma AdjacentByte(r: Registers, st: State, sys: bool, addr: bv32, lock: bool, b: bv32)
    requires BothReadable(r, st, sys, addr, lock)
    requires NextCheck(r, st, sys, addr, lock).0 == Phys(BehindPhys(r, st, sys, addr, lock))
    ensures var sb := Stored(ReadB(r, st, sys, addr, lock).1, BehindPhys(r, st, sys, addr, lock), b);
            ReadL(r, sb, sys, addr, lock).0 == ReadBytes(r, sb, sys, addr, 4, lock, 0, true).0
            <==> (if LateBetween(r, st, sys, addr, lock) then ByteWithM(b & 0xff) else b & 0xff) == b & 0xff
  {
    hide ReadL, ReadBytes, PtestAndCheck, BankOk, IndirectsApart, WholePages, TableWord, StoreByte, Mapped, WordAt,
         RemembersData, Present, Kept, Skip, Unsplit, MemByte, ReadB, OnlyMarks, HoldsM, ByteWithM, Get;
    AgreeWith(r, st, sys, addr, lock, b);
    var st1, a3 := ReadB(r, st, sys, addr, lock).1, BehindPhys(r, st, sys, addr, lock);
    var sb := Stored(st1, a3, b);
    RemembersKept(r, st1, sb.mem, PageOf(Skip(addr, 3)), sys, false, lock);
    TableWordKept(r, st1.mem, sb.mem, WordAt(a3));
    StoreSame(st1.mem, a3, b);
    ByteAfter(r, sb, sys, Skip(addr, 3), lock, a3);
  }

  lemma MappedIs(m: Memory, a: bv32)
    ensures Mapped(m, a) == (WordAt(a) in m)
  {}

  /** Other frames: some byte does not. */
  lemma ApartDisagrees(r: Registers, st: State, sys: bool, addr: bv32, lock: bool) returns (b: bv32)
    requires BothReadable(r, st, sys, addr, lock)
    requires NextCheck(r, st, sys, addr, lock).0 != Phys(BehindPhys(r, st, sys, addr, lock))
    ensures var sb := Stored(ReadB(r, st, sys, addr, lock).1, BehindPhys(r, st, sys, addr, lock), b);
            ReadL(r, sb, sys, addr, lock).0 != ReadBytes(r, sb, sys, addr, 4, lock, 0, true).0
  {
    hide ReadL, ReadBytes, PtestAndCheck, BankOk, IndirectsApart, WholePages, TableWord, StoreByte, Mapped,
         RemembersData, Present, Kept, Skip, Unsplit, MemByte, ReadB, OnlyMarks;
    AgreeWith(r, st, sys, addr, lock, 0);
    var st1, a3 := ReadB(r, st, sys, addr, lock).1, BehindPhys(r, st, sys, addr, lock);
    var p := NextCheck(r, st, sys, addr, lock).0.a;
    StoredKeys(st1, a3, 0, p);
    var x := MemByte(st1.mem, p);
    b := if x & 1 == 0 then 1 else 0;
    FlipBit(x);
    AgreeWith(r, st, sys, addr, lock, b);
    var sb := Stored(st1, a3, b);
    StoreOther(st1.mem, a3, b, p);
    MarkedByte(sb.mem, PtestAndCheck(r, sb, sys, Skip(addr, 3), false, lock).1.mem, p);
  }

  lemma StoredKeys(st: State, a: bv32, b: bv32, p: bv32)
    requires Mapped(st.mem, a)
    ensures Mapped(Stored(st, a, b).mem, p) == Mapped(st.mem, p)
  {
    hide SetByte;
  }

  /**
   Over all data: the unsplit read has the value of the four byte reads whatever byte lies behind
   the first three, if and only if the next page's frame is adjacent to the first page's and no
   late M is set in that byte.
   */
  lemma UnsplitFrames(r: Registers, st: State, sys: bool, addr: bv32, lock: bool)
    requires BothReadable(r, st, sys, addr, lock)
    ensures (forall b: bv32 ::
               var sb := Stored(ReadB(r, st, sys, addr, lock).1, BehindPhys(r, st, sys, addr, lock), b);
               ReadL(r, sb, sys, addr, lock).0 == ReadBytes(r, sb, sys, addr, 4, lock, 0, true).0)
            <==> NextCheck(r, st, sys, addr, lock).0 == Phys(BehindPhys(r, st, sys, addr, lock))
                 && !LateBetween(r, st, sys, addr, lock)
  {
    hide ReadL, ReadBytes, PtestAndCheck, BankOk, IndirectsApart, WholePages, TableWord, StoreByte, Mapped, WordAt,
         RemembersData, Present, Kept, Skip, Unsplit, MemByte, ReadB, LateBetween, ByteWithM;
    if NextCheck(r, st, sys, addr, lock).0 != Phys(BehindPhys(r, st, sys, addr, lock)) {
      var b := ApartDisagrees(r, st, sys, addr, lock);
    } else if LateBetween(r, st, sys, addr, lock) {
      AdjacentByte(r, st, sys, addr, lock, 0);
      NoMInZero();
    } else {
      forall b: bv32 ensures
          var sb := Stored(ReadB(r, st, sys, addr, lock).1, BehindPhys(r, st, sys, addr, lock), b);
          ReadL(r, sb, sys, addr, lock).0 == ReadBytes(r, sb, sys, addr, 4, lock, 0, true).0
      {
        AdjacentByte(r, st, sys, addr, lock, b);
      }
    }
  }

  lemma NoMInZero()
    ensures (0 as bv32) & 0xff == 0 && ByteWithM(0) != 0
  {}

  // ---- Inside one 8K page ----

  /** Offset 0xffd of an 8K page: the four bytes lie in one page, whose two halves have tags of their own. */
  predicate MidPage(addr: bv32) { addr & 0x1fff == 0xffd }

  predicate Even(n: bv32) { n & 1 == 0 }

  lemma MidPages(addr: bv32)
    requires MidPage(addr)
    ensures Unsplit(addr)
    ensures PageOf(Skip(addr, 3)) == Succ(PageOf(addr)) && Even(PageOf(addr))
  {
    Skip3(addr);
    hide Skip;
  }

  lemma PairBits(page: bv32)
    requires page & 1 == 0
    ensures (page + 1) >> 13 == page >> 13
    ensures (page + 1) >> 6 == page >> 6
  {}

  lemma PairRoot(page: bv32)
    requires Even(page)
    ensures RootIndex(Succ(page)) == RootIndex(page)
  {
    PairBits(page);
  }

  lemma PairPointer(page: bv32)
    requires Even(page)
    ensures PointerIndex(Succ(page)) == PointerIndex(page)
  {
    PairBits(page);
  }

  lemma PairRootEntry(r: Registers, sys: bool, page: bv32)
    requires Even(page)
    ensures RootEntry(r, sys, Succ(page)) == RootEntry(r, sys, page)
  {
    hide Even, Succ, RootIndex;
    PairRoot(page);
  }

  lemma PairPointerEntry(page: bv32, v: bv32)
    requires Even(page)
    ensures PointerEntry(v, Succ(page)) == PointerEntry(v, page)
  {
    hide Even, Succ, PointerIndex;
    PairPointer(page);
  }

  lemma PairPage(page: bv32, v: bv32)
    requires Even(page)
    ensures LargePageEntry(v, Succ(page)) == LargePageEntry(v, page)
  {
    assert (page + 1) >> 1 == page >> 1;
  }

  /** The two halves of an 8K page have one walk. */
  lemma PairTrail(r: Registers, m: Memory, sys: bool, page: bv32)
    requires r.tcrP && Even(page)
    ensures TrailOf(r, m, sys, Succ(page)) == TrailOf(r, m, sys, page)
  {
    hide RootEntry, PointerEntry, LargePageEntry, TableResident, PageLevel, WBit, Succ, Even;
    PairRootEntry(r, sys, page);
    var root := RootEntry(r, sys, page);
    if root in m {
      PairPointerEntry(page, m[root]);
      var pointer := PointerEntry(m[root], page);
      if pointer in m {
        PairPage(page, m[pointer]);
      }
    }
  }

  lemma PairTtr(t: Ttr, page: bv32, sys: bool)
    requires Even(page)
    ensures var x, y := TestTtr(t, page, sys), TestTtr(t, Succ(page), sys);
            && x.R == y.R && x.W == y.W && !x.S && !y.S && !x.B && !y.B
            && (x.R ==> x.paddr == page && y.paddr == Succ(page))
  {
    hide TtrByte, TtrCovers, Succ, Even;
    PairByte(page);
  }

  lemma PairByte(page: bv32)
    requires Even(page)
    ensures TtrByte(Succ(page)) == TtrByte(page)
  {}

  lemma PairDirect(r: Registers, st: State, st1: State, page: bv32, sys: bool, write: bool)
    requires Shaped(st.atc) && Shaped(st1.atc) && Even(page) && !ByTables(r, page, sys, false)
    ensures var res, res' := Ptest(r, st, page, sys, false, write).0, Ptest(r, st1, Succ(page), sys, false, write).0;
            && Permits(res, sys, write) == Permits(res', sys, write)
            && (Permits(res, sys, write) ==> res.paddr == page && res'.paddr == Succ(page))
  {
    hide TestTtr, PtestTables, Succ, Even;
    PairTtr(r.dttr0, page, sys);
    PairTtr(r.dttr1, page, sys);
  }

  lemma PairByTables(r: Registers, page: bv32, sys: bool)
    requires Even(page)
    ensures ByTables(r, Succ(page), sys, false) == ByTables(r, page, sys, false)
  {
    hide TestTtr, Succ, Even;
    PairTtr(r.dttr0, page, sys);
    PairTtr(r.dttr1, page, sys);
  }

  lemma PairTables(r: Registers, st: State, page: bv32, sys: bool, write: bool)
    requires Inv(r, st) && r.tcrP && Even(page) && ByTables(r, page, sys, false) && !Stale(r, st, page, sys, false)
    requires var st1 := Ptest(r, st, page, sys, false, write).1;
             Inv(r, st1) && ByTables(r, Succ(page), sys, false) && !Stale(r, st1, Succ(page), sys, false)
    ensures var (res, st1) := Ptest(r, st, page, sys, false, write);
            SameAccess(res, Ptest(r, st1, Succ(page), sys, false, write).0)
  {
    hide Ptest, BankOk, IndirectsApart, PtestTtr, TrailOf, Matches, Kept, SameAccess, Succ, Even;
    var (res, st1) := Ptest(r, st, page, sys, false, write);
    PtestTransparent(r, st, page, sys, false, write);
    PairTrail(r, st1.mem, sys, page);
    MatchesBefore(r, st1, Succ(page), sys, write);
    DescThere(st1.mem, WalkOf(r, st1.mem, sys, page), res);
    MatchesAlike(st1.mem, st1.mem, WalkOf(r, st1.mem, sys, page), res, Ptest(r, st1, Succ(page), sys, false, write).0);
  }

  lemma OneFrame(frame: bv32, addr: bv32)
    requires MidPage(addr)
    ensures LargePhys(frame, Skip(addr, 3)) == Skip(LargePhys(frame, addr), 3) <==> Even(frame)
  {
    Skip3(addr);
    Skip3(LargePhys(frame, addr));
    hide Skip;
  }

  lemma Skip3Is(addr: bv32)
    ensures Skip(addr, 3) == addr + 3
  {
    Skip3(addr);
  }

  lemma SuccIs(addr: bv32)
    ensures Succ(addr) == addr + 1
  {}

  lemma OwnFrame(page: bv32, addr: bv32)
    requires MidPage(addr) && page == PageOf(addr)
    ensures LargePhys(page + 1, addr + 3) == LargePhys(page, addr) + 3
  {}

  lemma OwnFrames(addr: bv32)
    requires MidPage(addr)
    ensures LargePhys(Succ(PageOf(addr)), Skip(addr, 3)) == Skip(LargePhys(PageOf(addr), addr), 3)
  {
    hide Skip, LargePhys, PageOf, MidPage, Succ;
    Skip3Is(addr);
    Skip3Is(LargePhys(PageOf(addr), addr));
    SuccIs(PageOf(addr));
    OwnFrame(PageOf(addr), addr);
  }

  /** Neither half of the page is answered from a stale slot. */
  predicate HalvesFresh(r: Registers, st: State, sys: bool, addr: bv32, write: bool)
    requires Shaped(st.atc)
  {
    var st1 := PtestAndCheck(r, st, sys, addr, false, write).1;
    ByTables(r, PageOf(addr), sys, false)
    ==> !Stale(r, st, PageOf(addr), sys, false) && !Stale(r, st1, PageOf(Skip(addr, 3)), sys, false)
  }

  /** Inside one 8K page the frames are adjacent if and only if the frame number is even. */
  lemma MidPageIff(r: Registers, st: State, sys: bool, addr: bv32, write: bool)
    requires Inv(r, st) && r.tcrP && MidPage(addr) && HalvesFresh(r, st, sys, addr, write)
    requires PtestAndCheck(r, st, sys, addr, false, write).0.Phys?
    ensures NextCheck(r, st, sys, addr, write).0 == Phys(BehindPhys(r, st, sys, addr, write))
            <==> Even(Ptest(r, st, PageOf(addr), sys, false, write).0.paddr)
  {
    hide Ptest, LargePhys, PageOf, Permits, BankOk, IndirectsApart, Succ, Skip, Even, MidPage, PtestTtr, Stale,
         SameAccess, TrailOf, Unsplit;
    var page := PageOf(addr);
    var (res, st1) := Ptest(r, st, page, sys, false, write);
    MidPages(addr);
    PtestInv(r, st, page, sys, false, write);
    PairByTables(r, page, sys);
    OneFrame(res.paddr, addr);
    OwnFrames(addr);
    if ByTables(r, page, sys, false) {
      PairTables(r, st, page, sys, write);
      CheckAlike(r, res, Ptest(r, st1, Succ(page), sys, false, write).0, sys, write, Skip(addr, 3));
    } else {
      PairDirect(r, st, st1, page, sys, write);
    }
  }

  lemma MatchedPage(m: Memory, w: Walk, res: MmuResult)
    requires Matches(m, w, res) && res.R
    ensures w != NoPage
  {}

  /** If the first half can be accessed, the second has a page too. */
  lemma HalfPresent(r: Registers, st: State, sys: bool, addr: bv32, write: bool)
    requires Inv(r, st) && r.tcrP && MidPage(addr) && HalvesFresh(r, st, sys, addr, write)
    requires PtestAndCheck(r, st, sys, addr, false, write).0.Phys?
    ensures Present(r, PtestAndCheck(r, st, sys, addr, false, write).1.mem, sys, Skip(addr, 3))
  {
    hide Ptest, LargePhys, PageOf, BankOk, IndirectsApart, Succ, Skip, Even, MidPage, PtestTtr, Stale, Matches, TrailOf,
         Unsplit;
    var page := PageOf(addr);
    var (res, st1) := Ptest(r, st, page, sys, false, write);
    MidPages(addr);
    PairByTables(r, page, sys);
    if ByTables(r, page, sys, false) {
      PtestTransparent(r, st, page, sys, false, write);
      PairTrail(r, st1.mem, sys, page);
      MatchedPage(st1.mem, WalkOf(r, st1.mem, sys, page), res);
    }
  }

  /** A long read inside one 8K page with an even frame has the value of its four byte reads, if
      and only if RAM does not end between the halves of the page. */
  lemma MidPageRead(r: Registers, st: State, sys: bool, addr: bv32, lock: bool)
    requires Inv(r, st) && WholePages(st.mem) && r.tcrP && MidPage(addr) && HalvesFresh(r, st, sys, addr, lock)
    requires ReadB(r, st, sys, addr, lock).0.Data? && PtestAndCheck(r, st, sys, addr, false, lock).0.Phys?
    requires Even(Ptest(r, st, PageOf(addr), sys, false, lock).0.paddr)
    requires !TableWord(r, ReadB(r, st, sys, addr, lock).1.mem, WordAt(BehindPhys(r, st, sys, addr, lock)))
    ensures ReadL(r, st, sys, addr, lock).0 == ReadBytes(r, st, sys, addr, 4, lock, 0, true).0
            <==> Mapped(ReadB(r, st, sys, addr, lock).1.mem, BehindPhys(r, st, sys, addr, lock))
  {
    hide ReadL, ReadBytes, ReadB, PtestAndCheck, BankOk, IndirectsApart, WholePages, TableWord, Mapped, WordAt, Present,
         Skip, Unsplit, MemByte, MidPage, OnlyMarks, PageOf, HalvesFresh, Ptest, Even;
    MidPages(addr);
    ReadState(r, st, sys, addr, lock);
    ReadInv(r, st, sys, addr, lock);
    MidPageIff(r, st, sys, addr, lock);
    HalfPresent(r, st, sys, addr, lock);
    UnsplitReadIff(r, st, sys, addr, lock);
    var st1, a3 := ReadB(r, st, sys, addr, lock).1, BehindPhys(r, st, sys, addr, lock);
    if Mapped(st1.mem, a3) {
      MappedIs(st1.mem, a3);
      CheckMarks(r, st1, sys, Skip(addr, 3), lock);
      MappedAlike(st1.mem, PtestAndCheck(r, st1, sys, Skip(addr, 3), false, lock).1.mem, a3);
      PresentForgets(r, st1, sys, Skip(addr, 3), lock);
      TranslationKeepsWord(r, st1, sys, Skip(addr, 3), lock, WordAt(a3));
      SameByte(st1.mem, PtestAndCheck(r, st1, sys, Skip(addr, 3), false, lock).1.mem, a3);
      ByteRead(r, st1, sys, Skip(addr, 3), lock, a3);
    }
  }
}
