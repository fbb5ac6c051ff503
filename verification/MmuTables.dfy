/**
 Translation tables of the 68040: descriptor words in memory, the addresses a
 three-level walk reads, and the walk itself as a pure function that writes
 nothing.  It is the simple thing the address translation cache speeds up.
 */
module MmuTables {
  import opened Addresses

  /** Aligned big-endian long words by address; an address that is no key is a bus error. */
  type Memory = map<Loc, bv32>

  /** One transparent translation register (the fields TEST_TTR looks at). */
  datatype Ttr = Ttr(base: bv8, mask: bv8, e: bool, s: bv8, w: bool)

  /** The MMU registers a translation depends on. */
  datatype Registers = Registers(tcrE: bool, tcrP: bool, urp: bv32, srp: bv32,
                                 dttr0: Ttr, dttr1: Ttr, ittr0: Ttr, ittr1: Ttr)

  // ---- Descriptor bits ----

  predicate WBit(word: bv32) { word & 0x4 != 0 }
  predicate UBit(word: bv32) { word & 0x8 != 0 }
  predicate MBit(word: bv32) { word & 0x10 != 0 }
  predicate SBit(word: bv32) { word & 0x80 != 0 }
  predicate GBit(word: bv32) { word & 0x400 != 0 }
  predicate TableResident(word: bv32) { word & 3 >= 2 }
  predicate PageInvalid(word: bv32) { word & 3 == 0 }
  predicate PageIndirect(word: bv32) { word & 3 == 2 }
  function IndirectTarget(word: bv32): Loc { At(word & 0xFFFF_FFFC) }
  function Used(word: bv32): bv32 { word | 0x8 }
  function Modified(word: bv32): bv32 { word | 0x10 }

  /** Equal but for the Used and Modified bits. */
  predicate Same(v: bv32, w: bv32) {
    v & 0xFFFF_FFE7 == w & 0xFFFF_FFE7
  }

  /** w is v with Used or Modified possibly set, and nothing else changed. */
  predicate MarkOf(v: bv32, w: bv32) {
    Same(v, w) && (UBit(v) ==> UBit(w)) && (MBit(v) ==> MBit(w))
  }

  // ---- The index fields of a page number (the constructor of addr_e) ----

  function RootIndex(page: bv32): bv32 { (page >> 13) & 0x7f }
  function PointerIndex(page: bv32): bv32 { (page >> 6) & 0x7f }
  function LargeIndex(page: bv32): bv32 { (page >> 1) & 0x1f }
  function SmallIndex(page: bv32): bv32 { page & 0x3f }

  /** The start of the table that a descriptor points to. */
  function PointerTable(word: bv32): bv32 { word & 0xFFFF_FE00 }
  function LargeTable(word: bv32): bv32 { word & 0xFFFF_FF80 }
  function SmallTable(word: bv32): bv32 { word & 0xFFFF_FF00 }

  function Entry(table: bv32, index: bv32): bv32 { table | (index << 2) }

  function RootEntry(r: Registers, sys: bool, page: bv32): Loc {
    At(Entry(if sys then r.srp else r.urp, RootIndex(page)))
  }

  function PointerEntry(root: bv32, page: bv32): Loc {
    At(Entry(PointerTable(root), PointerIndex(page)))
  }

  function LargePageEntry(pointer: bv32, page: bv32): Loc {
    At(Entry(LargeTable(pointer), LargeIndex(page)))
  }

  function SmallPageEntry(pointer: bv32, page: bv32): Loc {
    At(Entry(SmallTable(pointer), SmallIndex(page)))
  }

  function PageEntry(r: Registers, pointer: bv32, page: bv32): Loc {
    if r.tcrP then LargePageEntry(pointer, page) else SmallPageEntry(pointer, page)
  }

  // ---- The walk ----

  /** What a walk arrives at: a word outside memory, a table descriptor that is not
      resident, an invalid page descriptor, or the address of the page descriptor
      together with the write protection of the two table levels. */
  datatype Walk = Fault(at: Loc) | NoTable | NoPage | Page(desc: Loc, wp: bool)

  /** How far a walk gets, the descriptor addresses it goes through, and its outcome. */
  datatype Trail =
    | AtRoot(root: Loc, walk: Walk)
    | AtPointer(root: Loc, pointer: Loc, walk: Walk)
    | AtPage(root: Loc, pointer: Loc, entry: Loc, walk: Walk)

  function Descriptor(entry: Loc, word: bv32): Loc {
    if PageIndirect(word) then IndirectTarget(word) else entry
  }

  function PageLevel(m: Memory, entry: Loc, wp: bool): Walk {
    if entry !in m then Fault(entry)
    else if PageInvalid(m[entry]) then NoPage
    else
      var desc := Descriptor(entry, m[entry]);
      if desc !in m then Fault(desc) else Page(desc, wp)
  }

  function PointerLevel(r: Registers, m: Memory, page: bv32, root: Loc, pointer: Loc, rootW: bool): Trail {
    if pointer !in m then AtPointer(root, pointer, Fault(pointer))
    else if !TableResident(m[pointer]) then AtPointer(root, pointer, NoTable)
    else
      var entry := PageEntry(r, m[pointer], page);
      AtPage(root, pointer, entry, PageLevel(m, entry, rootW || WBit(m[pointer])))
  }

  /** The three-level walk for a page, on tables that stay as they are. */
  function TrailOf(r: Registers, m: Memory, sys: bool, page: bv32): Trail {
    var root := RootEntry(r, sys, page);
    if root !in m then AtRoot(root, Fault(root))
    else if !TableResident(m[root]) then AtRoot(root, NoTable)
    else PointerLevel(r, m, page, root, PointerEntry(m[root], page), WBit(m[root]))
  }

  function WalkOf(r: Registers, m: Memory, sys: bool, page: bv32): Walk {
    TrailOf(r, m, sys, page).walk
  }

  /** Is w a word the walk may mark Used or Modified? */
  predicate Marks(t: Trail, w: Loc) {
    w == t.root || (!t.AtRoot? && w == t.pointer) || (t.walk.Page? && w == t.walk.desc)
  }

  /** Is w a word the walk reads? */
  predicate Reads(t: Trail, w: Loc) {
    Marks(t, w) || (t.AtPage? && w == t.entry)
  }

  /** Is w the indirect page descriptor of the walk? */
  predicate IndirectAt(t: Trail, m: Memory, w: Loc) {
    t.AtPage? && w == t.entry && w in m && PageIndirect(m[w])
  }

  ghost predicate TableWord(r: Registers, m: Memory, w: Loc) {
    exists sys: bool, page: bv32 :: Reads(TrailOf(r, m, sys, page), w)
  }

  ghost predicate Indirect(r: Registers, m: Memory, w: Loc) {
    exists sys: bool, page: bv32 :: IndirectAt(TrailOf(r, m, sys, page), m, w)
  }

  /** The domain of the stability results: an indirect descriptor, whose bits 3 and 4
      are part of an address, is never at the same time a word that gets marked. */
  ghost predicate IndirectsApart(r: Registers, m: Memory) {
    forall sys: bool, page: bv32, w: Loc :: Marks(TrailOf(r, m, sys, page), w) ==> !Indirect(r, m, w)
  }

  // ---- Stability of walks ----

  /** m' is m with some Used and Modified bits of table words set, indirect
      descriptors untouched, and anything done to words no walk reads. */
  ghost predicate Kept(r: Registers, m: Memory, m': Memory) {
    && m.Keys == m'.Keys
    && (forall sys: bool, page: bv32, w: Loc :: Reads(TrailOf(r, m, sys, page), w) && w in m ==> MarkOf(m[w], m'[w]))
    && (forall w: Loc :: w in m && Indirect(r, m, w) ==> m'[w] == m[w])
  }

  lemma SameType(v: bv32, w: bv32)
    requires Same(v, w)
    ensures TableResident(v) == TableResident(w)
    ensures PageInvalid(v) == PageInvalid(w)
    ensures PageIndirect(v) == PageIndirect(w)
  {}

  lemma SameWBit(v: bv32, w: bv32)
    requires Same(v, w)
    ensures WBit(v) == WBit(w)
  {}

  lemma SamePointerEntry(v: bv32, w: bv32, page: bv32)
    requires Same(v, w)
    ensures PointerEntry(v, page) == PointerEntry(w, page)
  {}

  lemma SameSmallPageEntry(v: bv32, w: bv32, page: bv32)
    requires Same(v, w)
    ensures SmallPageEntry(v, page) == SmallPageEntry(w, page)
  {}

  lemma SameLargePageEntry(v: bv32, w: bv32, page: bv32)
    requires Same(v, w)
    ensures LargePageEntry(v, page) == LargePageEntry(w, page)
  {}

  /** Used and Modified take no part in any table index, address, type or protection. */
  lemma SameWord(r: Registers, v: bv32, w: bv32, page: bv32)
    requires Same(v, w)
    ensures TableResident(v) == TableResident(w)
    ensures PageInvalid(v) == PageInvalid(w)
    ensures PageIndirect(v) == PageIndirect(w)
    ensures WBit(v) == WBit(w)
    ensures PointerEntry(v, page) == PointerEntry(w, page)
    ensures PageEntry(r, v, page) == PageEntry(r, w, page)
  {
    hide TableResident, PageInvalid, PageIndirect, WBit, PointerEntry, SmallPageEntry, LargePageEntry, Same;
    SameType(v, w);
    SameWBit(v, w);
    SamePointerEntry(v, w, page);
    SameSmallPageEntry(v, w, page);
    SameLargePageEntry(v, w, page);
  }

  lemma SameAttributes(v: bv32, w: bv32)
    requires Same(v, w)
    ensures WBit(v) == WBit(w) && SBit(v) == SBit(w) && GBit(v) == GBit(w)
    ensures v >> 12 == w >> 12 && (v >> 8) & 3 == (w >> 8) & 3 && (v >> 5) & 3 == (w >> 5) & 3
  {}

  lemma EntryStable(r: Registers, m: Memory, m': Memory, sys: bool, page: bv32, entry: Loc, wp: bool)
    requires Kept(r, m, m')
    requires var t := TrailOf(r, m, sys, page); t.AtPage? && t.entry == entry
    ensures PageLevel(m', entry, wp) == PageLevel(m, entry, wp)
    ensures IndirectAt(TrailOf(r, m, sys, page), m, entry) == IndirectAt(TrailOf(r, m, sys, page), m', entry)
  {
    hide TableResident, PageInvalid, PageIndirect, IndirectTarget, WBit, PointerEntry, PageEntry, RootEntry, Same,
         TrailOf;
    if entry in m {
      assert Reads(TrailOf(r, m, sys, page), entry);
      SameWord(r, m[entry], m'[entry], page);
      if PageIndirect(m[entry]) {
        assert IndirectAt(TrailOf(r, m, sys, page), m, entry);
        assert Indirect(r, m, entry);
      }
    }
  }

  /** Marking keeps a walk where it was: the same descriptors, the same outcome. */
  lemma WalkStable(r: Registers, m: Memory, m': Memory, sys: bool, page: bv32)
    requires Kept(r, m, m')
    ensures TrailOf(r, m', sys, page) == TrailOf(r, m, sys, page)
  {
    hide TableResident, PageInvalid, PageIndirect, IndirectTarget, WBit, PointerEntry, PageEntry, RootEntry, Same,
         PageLevel, Indirect, IndirectAt;
    var root := RootEntry(r, sys, page);
    assert Reads(TrailOf(r, m, sys, page), root);
    if root in m {
      SameWord(r, m[root], m'[root], page);
      var pointer := PointerEntry(m[root], page);
      if TableResident(m[root]) && pointer in m {
        assert Reads(TrailOf(r, m, sys, page), pointer);
        SameWord(r, m[pointer], m'[pointer], page);
        if TableResident(m[pointer]) {
          EntryStable(r, m, m', sys, page, PageEntry(r, m[pointer], page), WBit(m[root]) || WBit(m[pointer]));
        }
      }
    }
  }

  lemma IndirectStable(r: Registers, m: Memory, m': Memory, w: Loc)
    requires Kept(r, m, m')
    ensures Indirect(r, m', w) == Indirect(r, m, w)
  {
    hide TrailOf, PageIndirect, PageLevel;
    forall sys: bool, page: bv32
      ensures IndirectAt(TrailOf(r, m', sys, page), m', w) == IndirectAt(TrailOf(r, m, sys, page), m, w)
    {
      WalkStable(r, m, m', sys, page);
      var t := TrailOf(r, m, sys, page);
      if t.AtPage? {
        EntryStable(r, m, m', sys, page, t.entry, false);
      }
    }
  }

  lemma ApartStable(r: Registers, m: Memory, m': Memory)
    requires Kept(r, m, m') && IndirectsApart(r, m)
    ensures IndirectsApart(r, m')
  {
    hide Indirect, Marks, TrailOf;
    forall sys: bool, page: bv32, w: Loc | Marks(TrailOf(r, m', sys, page), w) ensures !Indirect(r, m', w) {
      WalkStable(r, m, m', sys, page);
      IndirectStable(r, m, m', w);
    }
  }

  lemma KeptTransitive(r: Registers, m0: Memory, m1: Memory, m2: Memory)
    requires Kept(r, m0, m1) && Kept(r, m1, m2)
    ensures Kept(r, m0, m2)
  {
    hide Indirect, Reads, TrailOf;
    forall sys: bool, page: bv32, w: Loc | Reads(TrailOf(r, m0, sys, page), w) && w in m0 ensures MarkOf(m0[w], m2[w]) {
      WalkStable(r, m0, m1, sys, page);
    }
    forall w: Loc | w in m0 && Indirect(r, m0, w) ensures m2[w] == m0[w] {
      IndirectStable(r, m0, m1, w);
    }
  }

  /** Marking one word that is no indirect descriptor. */
  lemma MarkKept(r: Registers, m: Memory, w: Loc, v: bv32)
    requires w in m && MarkOf(m[w], v) && !Indirect(r, m, w)
    ensures Kept(r, m, m[w := v])
  {
    hide Reads, Indirect, TrailOf;
    var m' := m[w := v];
    assert m'.Keys == m.Keys;
  }
}
