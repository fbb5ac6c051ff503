/**
 Long accesses when entries that are not valid may remember anything: as long as no translation on
 the way goes back to such an entry, the access is that of a state in which they are forgotten.
 */
module BusLive {
  import opened Addresses
  import opened MmuTables
  import opened Atc
  import opened AtcInvariant
  import opened AtcTheorems
  import opened AtcData
  import opened AtcLive
  import opened BusAccess
  import opened BusTheorems
  import opened BusWrites
  import opened BusUnsplitReads
  import opened BusUnsplitWrites

  /** The state with the entries that are not valid forgotten. */
  function Clean(st: State): State { State(st.mem, Cleared(st.atc)) }

  /** Does the translation of the address leave such entries alone? */
  predicate Fresh(r: Registers, st: State, sys: bool, addr: bv32)
    requires Shaped(st.atc)
  {
    ByTables(r, PageOf(addr), sys, false) ==> !Leftover(r, st, PageOf(addr), sys, false)
  }

  lemma CleanShaped(st: State)
    requires Shaped(st.atc)
    ensures Shaped(Clean(st).atc)
  {}

  lemma CheckClean(r: Registers, st: State, sys: bool, addr: bv32, write: bool)
    requires Shaped(st.atc) && IndirectsApart(r, st.mem) && Fresh(r, st, sys, addr)
    ensures Shaped(Clean(st).atc)
    ensures var (c, st') := PtestAndCheck(r, st, sys, addr, false, write);
            PtestAndCheck(r, Clean(st), sys, addr, false, write) == (c, Clean(st'))
  {
    hide Ptest, PageOf, Leftover, IndirectsApart, Cleared, Check, ByTables;
    PtestCleared(r, st, PageOf(addr), sys, false, write);
  }

  lemma FreshNoLate(r: Registers, st: State, sys: bool, addr: bv32, write: bool)
    requires LiveInv(r, st) && Fresh(r, st, sys, addr)
    ensures !LateHits(r, st, PageOf(addr), sys, false, write)
  {
    hide LiveBank, IndirectsApart, Indirect, PageOf, PtestTtr, TrailOf, MBit, Get;
    LiveIndirect(r, st, false, sys, PageOf(addr));
    NoMustModify(Get(st.atc, false, sys, PageOf(addr)), sys, write);
  }

  lemma CheckLive(r: Registers, st: State, sys: bool, addr: bv32, write: bool)
    requires LiveInv(r, st) && Fresh(r, st, sys, addr)
    ensures var (c, st') := PtestAndCheck(r, st, sys, addr, false, write);
            && LiveInv(r, st') && Kept(r, st.mem, st'.mem) && Shaped(Clean(st).atc)
            && PtestAndCheck(r, Clean(st), sys, addr, false, write) == (c, Clean(st'))
  {
    hide Ptest, PageOf, Leftover, IndirectsApart, LiveBank, Cleared, Check, ByTables, LateHits, Kept;
    FreshNoLate(r, st, sys, addr, write);
    PtestLive(r, st, PageOf(addr), sys, false, write);
    CheckClean(r, st, sys, addr, write);
  }

  // ---- Reads ----

  lemma ReadPieceClean(r: Registers, st: State, sys: bool, addr: bv32, n: nat, lock: bool)
    requires LiveInv(r, st) && Fresh(r, st, sys, addr)
    ensures var (x, st') := ReadPiece(r, st, sys, addr, n, false, lock);
            && LiveInv(r, st') && Shaped(Clean(st).atc)
               && ReadPiece(r, Clean(st), sys, addr, n, false, lock) == (x, Clean(st'))
  {
    hide PtestAndCheck, Fresh, LiveBank, IndirectsApart, Cleared, MappedRun, LoadRun, Kept;
    CheckLive(r, st, sys, addr, lock);
  }

  /** No byte read of the run goes back to what is forgotten. */
  predicate FreshReads(r: Registers, st: State, sys: bool, addr: bv32, n: nat, lock: bool)
    requires Shaped(st.atc)
    decreases n
  {
    n > 0 ==>
      && Fresh(r, st, sys, addr)
      && var (x, st') := ReadB(r, st, sys, addr, lock); (x.Data? ==> FreshReads(r, st', sys, Succ(addr), n - 1, lock))
  }

  lemma {:induction false} ReadBytesClean(r: Registers, st: State, sys: bool, addr: bv32, n: nat, lock: bool, acc: bv32,
                                          first: bool)
    requires LiveInv(r, st) && FreshReads(r, st, sys, addr, n, lock)
    ensures var (x, st') := ReadBytes(r, st, sys, addr, n, lock, acc, first);
            && Shaped(Clean(st).atc) && ReadBytes(r, Clean(st), sys, addr, n, lock, acc, first) == (x, Clean(st'))
    decreases n
  {
    CleanShaped(st);
    hide ReadPiece, Fresh, LiveBank, IndirectsApart, Cleared, Succ, Append, Misaligned;
    if n > 0 {
      ReadPieceClean(r, st, sys, addr, 1, lock);
      var (x, st') := ReadB(r, st, sys, addr, lock);
      if x.Data? {
        ReadBytesClean(r, st', sys, Succ(addr), n - 1, lock, Append(acc, x.v), false);
      }
    }
  }

  /** The same for the translations that ReadW and ReadL make. */
  predicate FreshReadW(r: Registers, st: State, sys: bool, addr: bv32, lock: bool)
    requires Shaped(st.atc)
  {
    Fresh(r, st, sys, addr)
    && (addr & 1 != 0 && ReadB(r, st, sys, addr, lock).0.Data?
        ==> Fresh(r, ReadB(r, st, sys, addr, lock).1, sys, Succ(addr)))
  }

  predicate FreshReadL(r: Registers, st: State, sys: bool, addr: bv32, lock: bool)
    requires Shaped(st.atc)
  {
    if addr & 2 == 0 then Fresh(r, st, sys, addr)
    else
      && FreshReadW(r, st, sys, addr, lock)
      && var (x, st') := ReadW(r, st, sys, addr, false, lock); (x.Data? ==> FreshReadW(r, st', sys, addr + 2, lock))
  }

  lemma ReadWClean(r: Registers, st: State, sys: bool, addr: bv32, lock: bool)
    requires LiveInv(r, st) && FreshReadW(r, st, sys, addr, lock)
    ensures var (x, st') := ReadW(r, st, sys, addr, false, lock);
            && LiveInv(r, st') && Shaped(Clean(st).atc)
               && ReadW(r, Clean(st), sys, addr, false, lock) == (x, Clean(st'))
  {
    hide ReadPiece, Fresh, LiveBank, IndirectsApart, Cleared, Succ, Combine, Misaligned;
    if addr & 1 != 0 {
      ReadPieceClean(r, st, sys, addr, 1, lock);
      var (x, st') := ReadB(r, st, sys, addr, lock);
      if x.Data? {
        ReadPieceClean(r, st', sys, Succ(addr), 1, lock);
      }
    } else {
      ReadPieceClean(r, st, sys, addr, 2, lock);
    }
  }

  lemma ReadLClean(r: Registers, st: State, sys: bool, addr: bv32, lock: bool)
    requires LiveInv(r, st) && FreshReadL(r, st, sys, addr, lock)
    ensures var (x, st') := ReadL(r, st, sys, addr, lock);
            && LiveInv(r, st') && Shaped(Clean(st).atc) && ReadL(r, Clean(st), sys, addr, lock) == (x, Clean(st'))
  {
    hide ReadPiece, ReadW, FreshReadW, Fresh, LiveBank, IndirectsApart, Cleared, Combine, Misaligned;
    if addr & 2 != 0 {
      ReadWClean(r, st, sys, addr, lock);
      var (x, st') := ReadW(r, st, sys, addr, false, lock);
      if x.Data? {
        ReadWClean(r, st', sys, addr + 2, lock);
      }
    } else {
      ReadPieceClean(r, st, sys, addr, 4, lock);
    }
  }

  /** ReadL under the invariant of the valid entries: as ReadLBytes has it of the clean state, with
      the final states the same up to what is forgotten. */
  lemma LiveReadLBytes(r: Registers, st: State, sys: bool, addr: bv32, lock: bool)
    requires LiveInv(r, st) && WholePages(st.mem)
    requires FreshReadL(r, st, sys, addr, lock) && FreshReads(r, st, sys, addr, 4, lock)
    ensures Shaped(Clean(st).atc)
    ensures var (x, stL) := ReadL(r, st, sys, addr, lock);
            var (y, stB) := ReadBytes(r, st, sys, addr, 4, lock, 0, true);
            && (!Deviates(r, Clean(st), sys, addr, lock) ==> x == y && Clean(stL) == Clean(stB))
            && (x == y <==> (Deviates(r, Clean(st), sys, addr, lock) ==> NextByteSame(r, Clean(st), sys, addr, lock)))
  {
    CleanShaped(st);
    LiveCleared(r, st);
    hide ReadL, ReadBytes, FreshReadL, FreshReads, LiveBank, BankOk, IndirectsApart, Cleared, Unsplit, ReadB,
         NextByteSame, WholePages;
    ReadLClean(r, st, sys, addr, lock);
    ReadBytesClean(r, st, sys, addr, 4, lock, 0, true);
    ReadLBytes(r, Clean(st), sys, addr, lock);
  }

  // ---- Writes ----

  lemma WritePieceClean(r: Registers, st: State, sys: bool, addr: bv32, n: nat, v: bv32)
    requires Shaped(st.atc) && Inv(r, Clean(st)) && Fresh(r, st, sys, addr)
    ensures var (x, st') := WritePiece(r, st, sys, addr, n, v);
            WritePiece(r, Clean(st), sys, addr, n, v) == (x, Clean(st'))
  {
    hide PtestAndCheck, Fresh, BankOk, IndirectsApart, Cleared, MappedRun, StoreRun;
    CheckClean(r, st, sys, addr, true);
  }

  /** No byte write of the run goes back to what is forgotten. */
  predicate FreshWrites(r: Registers, st: State, sys: bool, addr: bv32, n: nat, v: bv32)
    requires Shaped(st.atc)
    decreases n
  {
    n > 0 ==>
      && Fresh(r, st, sys, addr)
      && var (x, st') := WriteB(r, st, sys, addr, TopByte(v, n));
         (x.Done? ==> FreshWrites(r, st', sys, Succ(addr), n - 1, v))
  }

  lemma {:induction false} WriteBytesClean(r: Registers, st: State, sys: bool, addr: bv32, n: nat, v: bv32, first: bool)
    requires Shaped(st.atc) && Inv(r, Clean(st)) && WholePages(st.mem)
    requires WriteApart(r, Clean(st), sys, addr, n, v) && FreshWrites(r, st, sys, addr, n, v)
    ensures var (x, st') := WriteBytes(r, st, sys, addr, n, v, first);
            WriteBytes(r, Clean(st), sys, addr, n, v, first) == (x, Clean(st'))
    decreases n
  {
    hide WritePiece, Fresh, BankOk, IndirectsApart, Cleared, Succ, TopByte, Misaligned, WriteApart, WholePages, Kept;
    if n > 0 {
      WritePieceClean(r, st, sys, addr, 1, TopByte(v, n));
      WriteBInv(r, Clean(st), sys, addr, n, v);
      var (x, st') := WriteB(r, st, sys, addr, TopByte(v, n));
      if x.Done? {
        WriteBytesClean(r, st', sys, Succ(addr), n - 1, v, false);
      }
    }
  }

  /** The same for the translations that WriteW and WriteL make. */
  predicate FreshWriteW(r: Registers, st: State, sys: bool, addr: bv32, w: bv32)
    requires Shaped(st.atc)
  {
    Fresh(r, st, sys, addr)
    && (addr & 1 != 0 && WriteB(r, st, sys, addr, UpperByte(w)).0.Done?
        ==> Fresh(r, WriteB(r, st, sys, addr, UpperByte(w)).1, sys, Succ(addr)))
  }

  predicate FreshWriteL(r: Registers, st: State, sys: bool, addr: bv32, l: bv32)
    requires Shaped(st.atc)
  {
    if addr & 2 == 0 then Fresh(r, st, sys, addr)
    else
      && FreshWriteW(r, st, sys, addr, l >> 16)
      && var (x, st') := WriteW(r, st, sys, addr, l >> 16); (x.Done? ==> FreshWriteW(r, st', sys, addr + 2, l))
  }

  lemma WriteWClean(r: Registers, st: State, sys: bool, addr: bv32, w: bv32)
    requires Shaped(st.atc) && Inv(r, Clean(st)) && WholePages(st.mem)
    requires WriteApart(r, Clean(st), sys, addr, 2, w) && FreshWriteW(r, st, sys, addr, w)
    ensures var (x, st') := WriteW(r, st, sys, addr, w);
            && WriteW(r, Clean(st), sys, addr, w) == (x, Clean(st'))
            && Inv(r, Clean(st')) && WholePages(st'.mem)
  {
    hide WritePiece, Fresh, BankOk, IndirectsApart, Cleared, Succ, TopByte, UpperByte, Misaligned, WriteApart,
         WholePages, Kept, WriteBytes;
    WriteWBytes(r, Clean(st), sys, addr, w);
    if addr & 1 != 0 {
      WritePieceClean(r, st, sys, addr, 1, UpperByte(w));
      WriteBInv(r, Clean(st), sys, addr, 2, w);
      WriteBUpper(r, Clean(st), sys, addr, w);
      var (x, st') := WriteB(r, st, sys, addr, UpperByte(w));
      if x.Done? {
        WritePieceClean(r, st', sys, Succ(addr), 1, w);
      }
    } else {
      WritePieceClean(r, st, sys, addr, 2, w);
    }
  }

  lemma WriteLClean(r: Registers, st: State, sys: bool, addr: bv32, l: bv32)
    requires Shaped(st.atc) && Inv(r, Clean(st)) && WholePages(st.mem)
    requires WriteApart(r, Clean(st), sys, addr, 4, l) && FreshWriteL(r, st, sys, addr, l)
    ensures var (x, st') := WriteL(r, st, sys, addr, l);
            WriteL(r, Clean(st), sys, addr, l) == (x, Clean(st'))
  {
    hide WritePiece, WriteW, FreshWriteW, Fresh, BankOk, IndirectsApart, Cleared, Misaligned, WriteApart, WholePages,
         WriteBytes;
    if addr & 2 != 0 {
      ApartHalves(r, Clean(st), sys, addr, l);
      WriteWBytes(r, Clean(st), sys, addr, l >> 16);
      WriteWClean(r, st, sys, addr, l >> 16);
      var (x, st') := WriteW(r, st, sys, addr, l >> 16);
      if x.Done? {
        WriteWClean(r, st', sys, addr + 2, l);
      }
    } else {
      WritePieceClean(r, st, sys, addr, 4, l);
    }
  }

  /** WriteL under the invariant of the valid entries: as WriteLBytes has it of the clean state, with
      the final states the same up to what is forgotten. */
  lemma LiveWriteLBytes(r: Registers, st: State, sys: bool, addr: bv32, l: bv32)
    requires LiveInv(r, st) && WholePages(st.mem) && Shaped(Clean(st).atc) && LongApart(r, Clean(st), sys, addr, l)
    requires FreshWriteL(r, st, sys, addr, l) && FreshWrites(r, st, sys, addr, 4, l)
    ensures var (x, stL) := WriteL(r, st, sys, addr, l);
            var (y, stB) := WriteBytes(r, st, sys, addr, 4, l, true);
            (!DeviatesWrite(r, Clean(st), sys, addr) ==> x == y && Clean(stL) == Clean(stB))
    ensures SameStores(r, st, sys, addr, l)
            <==> (DeviatesWrite(r, Clean(st), sys, addr)
                  ==> CanWrite(r, Clean(st), sys, addr) && LastFits(r, Clean(st), sys, addr, l))
  {
    LiveCleared(r, st);
    hide WriteL, WriteBytes, FreshWriteL, FreshWrites, LiveBank, BankOk, IndirectsApart, Cleared, Unsplit, CanWrite,
         LastFits, WholePages, WriteApart, SameData, RemembersData;
    WriteLClean(r, st, sys, addr, l);
    WriteBytesClean(r, st, sys, addr, 4, l, true);
    WriteLBytes(r, Clean(st), sys, addr, l);
  }
}
