/**
 Whole runs of translations, flushes, probes, data stores and table edits, from any state in which
 the valid entries agree with the tables.
 */
module AtcRuns {
  import opened Addresses
  import opened MmuTables
  import opened Atc
  import opened AtcInvariant
  import opened AtcTheorems
  import opened AtcLive
  import opened AtcWrites

  // ---- Flushes ----

  /** A flush of one page drops every valid entry of that page in the spaces it
      covers and no other entry: each valid entry sits in the slot of its own page. */
  lemma FlushExact(r: Registers, m: Memory, c: Caches, dfc: bv8, page: bv32, code: bool, sys: bool, j: nat)
    requires LiveCaches(r, m, c) && j < 16
    ensures var e := Bank(c, code, sys)[j];
            var e' := Bank(FlushCaches(OnePage(page), dfc, c), code, sys)[j];
            && e' == e.(V := e'.V)
            && (e'.V <==> e.V && !(e.laddr == page && (sys || FlushesUser(dfc))))
  {
    hide Index, WalkOf, Agrees;
    LiveBankAt(r, m, c, code, sys, j);
  }

  lemma FlushLive(r: Registers, m: Memory, c: Caches, f: Flush, dfc: bv8)
    requires LiveCaches(r, m, c)
    ensures LiveCaches(r, m, FlushCaches(f, dfc, c))
  {
    hide WalkOf, Agrees, Index;
  }

  lemma {:induction false} FlushPagesDrop(r: Registers, m: Memory, c: Caches, dfc: bv8, pages: seq<bv32>,
                                          code: bool, sys: bool, j: nat)
    requires LiveCaches(r, m, c) && j < 16
    ensures var e := Bank(c, code, sys)[j];
            var e' := Bank(FlushPages(c, dfc, pages), code, sys)[j];
            && e' == e.(V := e'.V)
            && (e'.V <==> e.V && !(e.laddr in pages && (sys || FlushesUser(dfc))))
    decreases |pages|
  {
    hide LiveBank, FlushCaches;
    if pages != [] {
      var c1 := FlushCaches(OnePage(pages[0]), dfc, c);
      FlushLive(r, m, c, OnePage(pages[0]), dfc);
      FlushExact(r, m, c, dfc, pages[0], code, sys, j);
      FlushPagesDrop(r, m, c1, dfc, pages[1..], code, sys, j);
    }
  }

  // ---- Page numbers ----

  /** A page number is what is left of an address of 32 bits without its lowest twelve. */
  predicate RealPage(page: bv32) { page < 0x10_0000 }

  lemma PageOfReal(addr: bv32)
    ensures RealPage(PageOf(addr))
  {}

  ghost predicate TaggedBank(b: seq<Slot>) { forall j :: 0 <= j < |b| && b[j].V ==> RealPage(b[j].laddr) }

  /** The tags of the valid entries are page numbers. */
  ghost predicate Tagged(c: Caches) {
    Shaped(c) && TaggedBank(c.dUser) && TaggedBank(c.dSys) && TaggedBank(c.iUser) && TaggedBank(c.iSys)
  }

  lemma TaggedAt(c: Caches, code: bool, sys: bool, j: nat)
    requires Tagged(c) && j < 16
    ensures Bank(c, code, sys)[j].V ==> RealPage(Bank(c, code, sys)[j].laddr)
  {
    hide RealPage;
  }

  lemma TaggedPut(c: Caches, code: bool, sys: bool, page: bv32, e: Slot)
    requires Tagged(c) && (e.V ==> RealPage(e.laddr))
    ensures Tagged(Put(c, code, sys, page, e))
  {
    hide Index, RealPage;
  }

  lemma TaggedGet(c: Caches, code: bool, sys: bool, page: bv32)
    requires Tagged(c)
    ensures Get(c, code, sys, page).V ==> RealPage(Get(c, code, sys, page).laddr)
  {
    hide Index, RealPage;
  }

  lemma SetTag(m: Memory, e: Slot, page: bv32, entry: Loc, write: bool, wp: bool, sys: bool)
    ensures var s := AtcSet(m, e, page, entry, write, wp, sys); s.slot == e || s.slot.laddr == page
  {
    hide MarkDescriptor, PageInvalid, Descriptor, WBit, GBit, SBit, MBit, Used;
  }

  lemma PointerTag(r: Registers, m: Memory, e: Slot, page: bv32, sys: bool, write: bool, urp: bv32)
    ensures var s := SearchPointer(r, m, e, page, sys, write, urp); s.slot == e || s.slot.laddr == page
  {
    hide AtcSet, PointerEntry, PageEntry, PdtLookup, WBit;
    var pointer := PointerEntry(urp, page);
    if PdtLookup(m, pointer).Found? {
      var pt := PdtLookup(m, pointer).word;
      PointerFound(r, m, e, page, sys, write, urp);
      SetTag(m[pointer := pt], e, page, PageEntry(r, pt, page), write, WBit(urp) || WBit(pt), sys);
    }
  }

  /** A search leaves the slot or gives it the page's tag. */
  lemma SearchTag(r: Registers, m: Memory, e: Slot, page: bv32, sys: bool, write: bool)
    ensures var s := AtcSearch(r, m, e, page, sys, write); s.slot == e || s.slot.laddr == page
  {
    hide SearchPointer, RootEntry, PdtLookup;
    var root := RootEntry(r, sys, page);
    match PdtLookup(m, root)
    case BusError =>
    case Absent =>
    case Found(urp) => PointerTag(r, m[root := urp], e, page, sys, write, urp);
  }

  lemma FinishTagged(m: Memory, c: Caches, code: bool, sys: bool, page: bv32, write: bool)
    requires Tagged(c)
    ensures Tagged(Finish(m, c, code, sys, page, write).1.atc)
  {
    hide Get, Put, TaggedBank, Modified, RealPage;
    TaggedGet(c, code, sys, page);
    TaggedPut(c, code, sys, page, Get(c, code, sys, page).(M := true));
  }

  lemma PtestTagged(r: Registers, st: State, page: bv32, sys: bool, code: bool, write: bool)
    requires Tagged(st.atc) && RealPage(page)
    ensures Tagged(Ptest(r, st, page, sys, code, write).1.atc)
  {
    hide Get, Put, Finish, AtcSearch, Hit, PtestTtr, RealPage;
    var e := Get(st.atc, code, sys, page);
    var s := AtcSearch(r, st.mem, e, page, sys, write);
    TaggedGet(st.atc, code, sys, page);
    SearchTag(r, st.mem, e, page, sys, write);
    TaggedPut(st.atc, code, sys, page, s.slot);
    FinishTagged(st.mem, st.atc, code, sys, page, write);
    FinishTagged(s.mem, Put(st.atc, code, sys, page, s.slot), code, sys, page, write);
  }

  lemma FlushTagged(c: Caches, f: Flush, dfc: bv8)
    requires Tagged(c)
    ensures Tagged(FlushCaches(f, dfc, c))
  {
    hide Index, RealPage;
  }

  lemma {:induction false} FlushPagesTagged(c: Caches, dfc: bv8, pages: seq<bv32>)
    requires Tagged(c)
    ensures Tagged(FlushPages(c, dfc, pages))
    decreases |pages|
  {
    hide TaggedBank, FlushCaches;
    if pages != [] {
      FlushTagged(c, OnePage(pages[0]), dfc);
      FlushPagesTagged(FlushCaches(OnePage(pages[0]), dfc, c), dfc, pages[1..]);
    }
  }

  // ---- Table edits ----

  /** Is every page flushed whose walk reads the word? */
  ghost predicate ReadersFlushed(r: Registers, m: Memory, at: Loc, dfc: bv8, pages: seq<bv32>) {
    forall sys: bool, page: bv32 ::
      RealPage(page) && Reads(TrailOf(r, m, sys, page), at) ==> page in pages && (sys || FlushesUser(dfc))
  }

  lemma EditedSlot(r: Registers, m: Memory, at: Loc, v: bv32, sys: bool, j: nat, e: Slot)
    requires LiveOk(r, m, sys, j, e) && at in m && (e.V ==> !Reads(TrailOf(r, m, sys, e.laddr), at))
    ensures LiveOk(r, m[at := v], sys, j, e)
  {
    hide TrailOf, Index, UBit, MBit, WBit, SBit, GBit;
    if e.V {
      UnreadWord(r, m, at, v, sys, e.laddr);
    }
  }

  lemma FlushedSlot(r: Registers, m: Memory, c: Caches, at: Loc, v: bv32, dfc: bv8, pages: seq<bv32>,
                    code: bool, sys: bool, j: nat)
    requires LiveCaches(r, m, c) && Tagged(c) && at in m && ReadersFlushed(r, m, at, dfc, pages) && j < 16
    ensures LiveOk(r, m[at := v], sys, j, Bank(FlushPages(c, dfc, pages), code, sys)[j])
  {
    hide TrailOf, Reads, FlushPages, Index, LiveBank, Agrees, RealPage;
    FlushPagesDrop(r, m, c, dfc, pages, code, sys, j);
    LiveBankAt(r, m, c, code, sys, j);
    TaggedAt(c, code, sys, j);
    EditedSlot(r, m, at, v, sys, j, Bank(FlushPages(c, dfc, pages), code, sys)[j]);
  }

  /**
   Coherence: after software changes any word of the tables in any way and flushes the pages whose
   walks read it, every valid entry agrees with the new tables.  Nothing is asked of the new
   tables, nor of what the flushed entries remember.
   */
  lemma EditLive(r: Registers, m: Memory, c: Caches, at: Loc, v: bv32, dfc: bv8, pages: seq<bv32>)
    requires LiveCaches(r, m, c) && Tagged(c) && at in m && ReadersFlushed(r, m, at, dfc, pages)
    ensures LiveCaches(r, m[at := v], FlushPages(c, dfc, pages))
  {
    hide LiveOk, FlushPages, ReadersFlushed, LiveBank;
    forall code: bool, sys: bool, j: nat | j < 16
      ensures LiveOk(r, m[at := v], sys, j, Bank(FlushPages(c, dfc, pages), code, sys)[j])
    {
      FlushedSlot(r, m, c, at, v, dfc, pages, code, sys, j);
    }
    LiveByBanks(r, m[at := v], FlushPages(c, dfc, pages));
  }

  // ---- Events ----

  /** One event of a run: a translation, a flush, PTEST (op_ptest), a data store of one
      long word, or a table edit by software with the flushes that follow it. */
  datatype Event =
    | Translate(page: bv32, sys: bool, code: bool, write: bool)
    | FlushEvent(flush: Flush, dfc: bv8)
    | Probe(page: bv32, dfc: bv8, write: bool)
    | Store(at: Loc, word: bv32)
    | Edit(at: Loc, word: bv32, dfc: bv8, pages: seq<bv32>)

  function Before(st: State, ev: Event): (st': State)
    requires Shaped(st.atc)
    ensures Shaped(st'.atc)
  {
    if ev.Probe? then State(st.mem, Dropped(st.atc, ProbeCode(ev.dfc), ProbeSys(ev.dfc), ev.page)) else st
  }

  function Next(r: Registers, st: State, ev: Event): (st': State)
    requires Shaped(st.atc)
    ensures Shaped(st'.atc)
  {
    match ev
    case Translate(page, sys, code, write) => Ptest(r, st, page, sys, code, write).1
    case FlushEvent(f, dfc) => State(st.mem, FlushCaches(f, dfc, st.atc))
    case Probe(page, dfc, write) =>
      if ProbeSpace(dfc) then Ptest(r, Before(st, ev), page, ProbeSys(dfc), ProbeCode(dfc), write).1 else st
    case Store(at, word) => State(st.mem[at := word], st.atc)
    case Edit(at, word, dfc, pages) => State(st.mem[at := word], FlushPages(st.atc, dfc, pages))
  }

  /** The invariant of runs. */
  ghost predicate RunInv(r: Registers, st: State) { LiveInv(r, st) && Tagged(st.atc) }

  /**
   What a run may do.  Data stores stay off the tables; table edits keep indirect descriptors
   apart from descriptors that get marked, and come with their flushes; and no stale write may
   have its late M hit an indirect descriptor, which is exactly when a walk would move.
   */
  ghost predicate Allowed(r: Registers, st: State, ev: Event)
    requires Shaped(st.atc)
  {
    match ev
    case Translate(page, sys, code, write) => RealPage(page) && !LateHits(r, st, page, sys, code, write)
    case FlushEvent(_, _) => true
    case Probe(page, dfc, write) =>
      RealPage(page) && (ProbeSpace(dfc) ==> !LateHits(r, Before(st, ev), page, ProbeSys(dfc), ProbeCode(dfc), write))
    case Store(at, _) => at in st.mem && !TableWord(r, st.mem, at)
    case Edit(at, word, dfc, pages) =>
      at in st.mem && IndirectsApart(r, st.mem[at := word]) && ReadersFlushed(r, st.mem, at, dfc, pages)
  }

  /** Does the translation an event makes say what a fresh walk says, and does a write that it lets
      through find its page Used and Modified, unless stale? */
  ghost predicate Faithful(r: Registers, st: State, page: bv32, sys: bool, code: bool, write: bool)
    requires Shaped(st.atc)
  {
    ByTables(r, page, sys, code) ==>
      var (res, st') := Ptest(r, st, page, sys, code, write);
      && (Matches(st'.mem, WalkOf(r, st'.mem, sys, page), res) <==> !Stale(r, st, page, sys, code))
      && (write && Permits(res, sys, write)
          ==> (WriteCovered(st'.mem, WalkOf(r, st'.mem, sys, page), sys) <==> !Stale(r, st, page, sys, code)))
  }

  ghost predicate EventFaithful(r: Registers, st: State, ev: Event)
    requires Shaped(st.atc)
  {
    match ev
    case Translate(page, sys, code, write) => Faithful(r, st, page, sys, code, write)
    case Probe(page, dfc, write) =>
      ProbeSpace(dfc) ==> Faithful(r, Before(st, ev), page, ProbeSys(dfc), ProbeCode(dfc), write)
    case _ => true
  }

  lemma TranslateOk(r: Registers, st: State, page: bv32, sys: bool, code: bool, write: bool)
    requires LiveInv(r, st) && !LateHits(r, st, page, sys, code, write)
    ensures var st' := Ptest(r, st, page, sys, code, write).1; LiveInv(r, st') && Kept(r, st.mem, st'.mem)
    ensures Faithful(r, st, page, sys, code, write)
  {
    hide Ptest, LiveBank, IndirectsApart, Stale, Matches, PtestTtr, Kept, LateHits, WriteCovered, Permits;
    PtestLive(r, st, page, sys, code, write);
    if ByTables(r, page, sys, code) {
      LiveTransparent(r, st, page, sys, code, write);
      if write && Permits(Ptest(r, st, page, sys, code, write).0, sys, write) {
        WriteIsModified(r, st, page, sys, code);
      }
    }
  }

  lemma DropLive(r: Registers, m: Memory, c: Caches, code: bool, sys: bool, page: bv32)
    requires LiveCaches(r, m, c)
    ensures LiveCaches(r, m, Dropped(c, code, sys, page))
  {
    hide LiveBank, Index;
    LivePut(r, m, c, code, sys, page, Get(c, code, sys, page).(V := false));
  }

  lemma StoreLive(r: Registers, st: State, at: Loc, v: bv32)
    requires LiveInv(r, st) && at in st.mem && !TableWord(r, st.mem, at)
    ensures LiveInv(r, State(st.mem[at := v], st.atc)) && Kept(r, st.mem, st.mem[at := v])
  {
    hide TableWord, LiveCaches, IndirectsApart, Kept;
    StoreKept(r, st.mem, at, v);
    LiveKept(r, st.mem, st.mem[at := v], st.atc);
  }

  lemma DropTagged(c: Caches, code: bool, sys: bool, page: bv32)
    requires Tagged(c)
    ensures Tagged(Dropped(c, code, sys, page))
  {
    hide TaggedBank, Put, Get;
    TaggedPut(c, code, sys, page, Get(c, code, sys, page).(V := false));
  }

  lemma NextTagged(r: Registers, st: State, ev: Event)
    requires Tagged(st.atc) && (ev.Translate? || ev.Probe? ==> RealPage(ev.page))
    ensures Tagged(Next(r, st, ev).atc)
  {
    hide Ptest, FlushPages, FlushCaches, Put, Index, TaggedBank, RealPage;
    match ev
    case Translate(page, sys, code, write) => PtestTagged(r, st, page, sys, code, write);
    case FlushEvent(f, dfc) => FlushTagged(st.atc, f, dfc);
    case Probe(page, dfc, write) =>
      DropTagged(st.atc, ProbeCode(dfc), ProbeSys(dfc), page);
      PtestTagged(r, Before(st, ev), page, ProbeSys(dfc), ProbeCode(dfc), write);
    case Store(at, word) =>
    case Edit(at, word, dfc, pages) => FlushPagesTagged(st.atc, dfc, pages);
  }

  lemma NextOk(r: Registers, st: State, ev: Event)
    requires RunInv(r, st) && Allowed(r, st, ev)
    ensures RunInv(r, Next(r, st, ev)) && EventFaithful(r, st, ev)
    ensures !ev.Edit? ==> Kept(r, st.mem, Next(r, st, ev).mem)
  {
    hide Ptest, LiveBank, IndirectsApart, ReadersFlushed, TableWord, Stale, Matches, PtestTtr, FlushPages, FlushCaches,
         Kept, Put, Index, LateHits, TaggedBank, RealPage;
    KeptReflexive(r, st.mem);
    NextTagged(r, st, ev);
    match ev
    case Translate(page, sys, code, write) => TranslateOk(r, st, page, sys, code, write);
    case FlushEvent(f, dfc) => FlushLive(r, st.mem, st.atc, f, dfc);
    case Probe(page, dfc, write) =>
      DropLive(r, st.mem, st.atc, ProbeCode(dfc), ProbeSys(dfc), page);
      if ProbeSpace(dfc) {
        TranslateOk(r, Before(st, ev), page, ProbeSys(dfc), ProbeCode(dfc), write);
      }
    case Store(at, word) => StoreLive(r, st, at, word);
    case Edit(at, word, dfc, pages) => EditLive(r, st.mem, st.atc, at, word, dfc, pages);
  }

  // ---- Runs ----

  function Run(r: Registers, st: State, evs: seq<Event>): State
    requires Shaped(st.atc)
    decreases |evs|
  {
    if evs == [] then st else Run(r, Next(r, st, evs[0]), evs[1..])
  }

  ghost predicate RunAllowed(r: Registers, st: State, evs: seq<Event>)
    requires Shaped(st.atc)
    decreases |evs|
  {
    evs != [] ==>
      Allowed(r, st, evs[0]) && RunAllowed(r, Next(r, st, evs[0]), evs[1..])
  }

  ghost predicate RunFaithful(r: Registers, st: State, evs: seq<Event>)
    requires Shaped(st.atc)
    decreases |evs|
  {
    evs != [] ==>
      EventFaithful(r, st, evs[0]) && RunFaithful(r, Next(r, st, evs[0]), evs[1..])
  }

  predicate NoEdits(evs: seq<Event>) {
    forall i :: 0 <= i < |evs| ==> !evs[i].Edit?
  }

  /** Transparency and walk stability over whole runs. */
  lemma {:induction false} RunTransparent(r: Registers, st: State, evs: seq<Event>)
    requires RunInv(r, st) && RunAllowed(r, st, evs)
    ensures RunFaithful(r, st, evs) && RunInv(r, Run(r, st, evs))
    ensures NoEdits(evs) ==> Kept(r, st.mem, Run(r, st, evs).mem)
    decreases |evs|
  {
    hide Next, LiveBank, IndirectsApart, Allowed, EventFaithful, Kept, TaggedBank;
    KeptReflexive(r, st.mem);
    if evs != [] {
      var st' := Next(r, st, evs[0]);
      NextOk(r, st, evs[0]);
      RunTransparent(r, st', evs[1..]);
      if NoEdits(evs) {
        KeptTransitive(r, st.mem, st'.mem, Run(r, st, evs).mem);
      }
    }
  }

  // ---- Runs in which no late M can hit ----

  /** Edits that leave alone what entries remember; every other event of a run. */
  ghost predicate Quiet(r: Registers, st: State, ev: Event)
    requires Shaped(st.atc)
  {
    match ev
    case Store(at, _) => at in st.mem && !TableWord(r, st.mem, at)
    case Edit(at, word, dfc, pages) =>
      && at in st.mem && IndirectsApart(r, st.mem[at := word]) && ReadersFlushed(r, st.mem, at, dfc, pages)
      && LeftoversApart(r, st.mem[at := word], st.atc)
    case Translate(page, _, _, _) => RealPage(page)
    case Probe(page, _, _) => RealPage(page)
    case FlushEvent(_, _) => true
  }

  ghost predicate RunQuiet(r: Registers, st: State, evs: seq<Event>)
    requires Shaped(st.atc)
    decreases |evs|
  {
    evs != [] ==>
      Quiet(r, st, evs[0]) && RunQuiet(r, Next(r, st, evs[0]), evs[1..])
  }

  lemma NeverHits(r: Registers, st: State, page: bv32, sys: bool, code: bool, write: bool)
    requires Inv(r, st)
    ensures !LateHits(r, st, page, sys, code, write)
  {
    hide BankOk, IndirectsApart, Indirect, Index, WalkOf, MBit, PtestTtr;
    GetOk(r, st.mem, st.atc, code, sys, page);
  }

  lemma DropOk(r: Registers, m: Memory, c: Caches, code: bool, sys: bool, page: bv32)
    requires CachesOk(r, m, c)
    ensures CachesOk(r, m, Dropped(c, code, sys, page))
  {
    hide BankOk, Index, Indirect, TrailOf, Agrees;
    GetOk(r, m, c, code, sys, page);
    PutOk(r, m, c, code, sys, page, Get(c, code, sys, page).(V := false));
  }

  lemma QuietSlot(r: Registers, m: Memory, at: Loc, v: bv32, sys: bool, j: nat, e: Slot, e': Slot)
    requires at in m && SlotOk(r, m, sys, j, e) && e' == e.(V := e'.V) && (e'.V ==> e.V)
    requires LiveOk(r, m[at := v], sys, j, e') && (e.R ==> !Indirect(r, m[at := v], e.pgAddr))
    ensures SlotOk(r, m[at := v], sys, j, e')
  {
    hide TrailOf, Indirect, Index, Agrees;
  }

  lemma QuietEdit(r: Registers, st: State, at: Loc, v: bv32, dfc: bv8, pages: seq<bv32>)
    requires Inv(r, st) && Tagged(st.atc) && at in st.mem && ReadersFlushed(r, st.mem, at, dfc, pages)
    requires LeftoversApart(r, st.mem[at := v], st.atc)
    ensures CachesOk(r, st.mem[at := v], FlushPages(st.atc, dfc, pages))
  {
    hide TrailOf, IndirectsApart, FlushPages, Indirect, ReadersFlushed, SlotOk, LiveOk, Index, TaggedBank;
    InvLive(r, st);
    var c' := FlushPages(st.atc, dfc, pages);
    forall code: bool, sys: bool, j: nat | j < 16
      ensures SlotOk(r, st.mem[at := v], sys, j, Bank(c', code, sys)[j])
    {
      FlushPagesDrop(r, st.mem, st.atc, dfc, pages, code, sys, j);
      FlushedSlot(r, st.mem, st.atc, at, v, dfc, pages, code, sys, j);
      assert SlotOk(r, st.mem, sys, j, Bank(st.atc, code, sys)[j]);
      QuietSlot(r, st.mem, at, v, sys, j, Bank(st.atc, code, sys)[j], Bank(c', code, sys)[j]);
    }
    assert forall j ::
        0 <= j < 16 ==> c'.dUser[j] == Bank(c', false, false)[j] && c'.dSys[j] == Bank(c', false, true)[j];
    assert forall j :: 0 <= j < 16 ==> c'.iUser[j] == Bank(c', true, false)[j] && c'.iSys[j] == Bank(c', true, true)[j];
  }

  lemma QuietNext(r: Registers, st: State, ev: Event)
    requires Inv(r, st) && Tagged(st.atc) && Quiet(r, st, ev)
    ensures Allowed(r, st, ev) && Inv(r, Next(r, st, ev)) && Tagged(Next(r, st, ev).atc)
  {
    hide Ptest, BankOk, IndirectsApart, ReadersFlushed, TableWord, PtestTtr, FlushPages, FlushCaches, Kept, Put, Index,
         LateHits, LeftoversApart, TaggedBank, RealPage;
    NextTagged(r, st, ev);
    match ev
    case Translate(page, sys, code, write) =>
      NeverHits(r, st, page, sys, code, write);
      PtestInv(r, st, page, sys, code, write);
    case FlushEvent(f, dfc) => FlushOk(r, st.mem, st.atc, f, dfc);
    case Probe(page, dfc, write) =>
      DropOk(r, st.mem, st.atc, ProbeCode(dfc), ProbeSys(dfc), page);
      NeverHits(r, Before(st, ev), page, ProbeSys(dfc), ProbeCode(dfc), write);
      PtestInv(r, Before(st, ev), page, ProbeSys(dfc), ProbeCode(dfc), write);
    case Store(at, word) => StoreOk(r, st, at, word);
    case Edit(at, word, dfc, pages) => QuietEdit(r, st, at, word, dfc, pages);
  }

  /** Without such edits nothing has to be asked of the translations. */
  lemma {:induction false} QuietAllowed(r: Registers, st: State, evs: seq<Event>)
    requires Inv(r, st) && Tagged(st.atc) && RunQuiet(r, st, evs)
    ensures RunAllowed(r, st, evs)
    decreases |evs|
  {
    hide Next, BankOk, IndirectsApart, Allowed, Quiet, TaggedBank;
    if evs != [] {
      QuietNext(r, st, evs[0]);
      QuietAllowed(r, Next(r, st, evs[0]), evs[1..]);
    }
  }

  // ---- From empty caches ----

  predicate Empty(b: seq<Slot>) {
    |b| == 16 && forall j :: 0 <= j < 16 ==> !b[j].V && !b[j].R
  }

  predicate AllEmpty(c: Caches) { Empty(c.dUser) && Empty(c.dSys) && Empty(c.iUser) && Empty(c.iSys) }

  lemma EmptyInv(r: Registers, st: State)
    requires AllEmpty(st.atc) && IndirectsApart(r, st.mem)
    ensures Inv(r, st) && Tagged(st.atc)
  {
    hide IndirectsApart, Indirect, WalkOf, Agrees, Index;
  }

  /** From empty caches, on tables that keep indirect descriptors apart. */
  lemma RunFromEmpty(r: Registers, st: State, evs: seq<Event>)
    requires AllEmpty(st.atc) && IndirectsApart(r, st.mem)
    requires RunAllowed(r, st, evs) || RunQuiet(r, st, evs)
    ensures RunFaithful(r, st, evs)
    ensures NoEdits(evs) ==> forall sys: bool, page: bv32 ::
              TrailOf(r, Run(r, st, evs).mem, sys, page) == TrailOf(r, st.mem, sys, page)
  {
    hide Next, Allowed, Quiet, EventFaithful, TrailOf, IndirectsApart, BankOk, LiveBank, Kept, TaggedBank;
    EmptyInv(r, st);
    InvLive(r, st);
    if RunQuiet(r, st, evs) {
      QuietAllowed(r, st, evs);
    }
    RunTransparent(r, st, evs);
    if NoEdits(evs) {
      forall sys: bool, page: bv32
        ensures TrailOf(r, Run(r, st, evs).mem, sys, page) == TrailOf(r, st.mem, sys, page)
      {
        WalkStable(r, st.mem, Run(r, st, evs).mem, sys, page);
      }
    }
  }
}
