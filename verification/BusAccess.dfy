/**
 Misaligned access: byte, word and long reads and writes through the MMU, split into
 pieces at odd addresses and between the halves of a long word.
 */
module BusAccess {
  import opened Addresses
  import opened MmuTables
  import opened Atc

  // ---- Bytes of memory ----

  function WordAt(a: bv32): Loc { At(a & 0xFFFF_FFFC) }

  function Lane(a: bv32): bv32 { a & 3 }

  function GetByte(word: bv32, lane: bv32): bv32 {
    if lane == 0 then word >> 24
    else if lane == 1 then (word >> 16) & 0xff
    else if lane == 2 then (word >> 8) & 0xff
    else word & 0xff
  }

  function SetByte(word: bv32, lane: bv32, b: bv32): bv32 {
    if lane == 0 then (word & 0x00FF_FFFF) | (b << 24)
    else if lane == 1 then (word & 0xFF00_FFFF) | ((b & 0xff) << 16)
    else if lane == 2 then (word & 0xFFFF_00FF) | ((b & 0xff) << 8)
    else (word & 0xFFFF_FF00) | (b & 0xff)
  }

  /** The address of the next byte. */
  function Succ(a: bv32): bv32 { a + 1 }

  /** One more byte of a big-endian value. */
  function Append(acc: bv32, b: bv32): bv32 { (acc << 8) | b }

  predicate Mapped(m: Memory, a: bv32) { WordAt(a) in m }

  function MemByte(m: Memory, a: bv32): bv32
    requires Mapped(m, a)
  {
    GetByte(m[WordAt(a)], Lane(a))
  }

  function StoreByte(m: Memory, a: bv32, b: bv32): Memory
    requires Mapped(m, a)
  {
    m[WordAt(a) := SetByte(m[WordAt(a)], Lane(a), b)]
  }

  /** The n bytes from a on; RAM ends at a page boundary, so they are mapped together. */
  predicate MappedRun(m: Memory, a: bv32, n: nat)
    decreases n
  {
    n == 0 || (Mapped(m, a) && MappedRun(m, Succ(a), n - 1))
  }

  /** Big-endian value of n bytes behind the bytes already in acc. */
  function LoadRun(m: Memory, a: bv32, n: nat, acc: bv32): bv32
    requires MappedRun(m, a, n)
    decreases n
  {
    if n == 0 then acc else LoadRun(m, Succ(a), n - 1, Append(acc, MemByte(m, a)))
  }

  /** The first of n bytes of v, most significant first. */
  function TopByte(v: bv32, n: nat): bv32 {
    if n == 4 then v >> 24 else if n == 3 then (v >> 16) & 0xff else if n == 2 then (v >> 8) & 0xff else v & 0xff
  }

  function StoreRun(m: Memory, a: bv32, n: nat, v: bv32): (m': Memory)
    requires MappedRun(m, a, n)
    ensures m'.Keys == m.Keys
    decreases n
  {
    if n == 0 then m
    else
      MappedKeys(m, StoreByte(m, a, TopByte(v, n)), Succ(a), n - 1);
      StoreRun(StoreByte(m, a, TopByte(v, n)), Succ(a), n - 1, v)
  }

  lemma MappedKeys(m: Memory, m': Memory, a: bv32, n: nat)
    requires m.Keys == m'.Keys
    ensures MappedRun(m, a, n) == MappedRun(m', a, n)
    decreases n
  {}

  // ---- Reads ----

  datatype Read = Data(v: bv32) | ReadError(ssw: bv16)
  datatype Write = Done | WriteError(ssw: bv16)

  function Misaligned(e: bv16): bv16 { e | 0x800 }

  /** One translation and one bus cycle of n bytes. */
  function ReadPiece(r: Registers, st: State, sys: bool, addr: bv32, n: nat, code: bool, lock: bool)
      : (result: (Read, State))
    requires Shaped(st.atc)
    ensures Shaped(result.1.atc)
  {
    var (c, st') := PtestAndCheck(r, st, sys, addr, code, lock);
    match c
    case Fail(e) => (ReadError(e), st')
    case Phys(a) => ((if MappedRun(st'.mem, a, n) then Data(LoadRun(st'.mem, a, n, 0)) else ReadError(0)), st')
  }

  function ReadB(r: Registers, st: State, sys: bool, addr: bv32, lock: bool): (result: (Read, State))
    requires Shaped(st.atc)
    ensures Shaped(result.1.atc)
  {
    ReadPiece(r, st, sys, addr, 1, false, lock)
  }

  function Combine(first: bv32, shift: bv32, second: bv32): bv32
    requires shift <= 32
  {
    (first << shift) | second
  }

  function Joined(first: bv32, shift: bv32, second: Read): Read
    requires shift <= 32
  {
    match second
    case Data(v) => Data(Combine(first, shift, v))
    case ReadError(e) => ReadError(Misaligned(e))
  }

  function ReadW(r: Registers, st: State, sys: bool, addr: bv32, code: bool, lock: bool): (result: (Read, State))
    requires Shaped(st.atc)
    ensures Shaped(result.1.atc)
  {
    if !code && addr & 1 != 0 then
      var (x1, st1) := ReadB(r, st, sys, addr, lock);
      if x1.ReadError? then (x1, st1)
      else
        var (x2, st2) := ReadB(r, st1, sys, Succ(addr), lock);
        (Joined(x1.v, 8, x2), st2)
    else ReadPiece(r, st, sys, addr, 2, code, lock)
  }

  function ReadL(r: Registers, st: State, sys: bool, addr: bv32, lock: bool): (result: (Read, State))
    requires Shaped(st.atc)
    ensures Shaped(result.1.atc)
  {
    if addr & 2 != 0 then
      var (x1, st1) := ReadW(r, st, sys, addr, false, lock);
      if x1.ReadError? then (x1, st1)
      else
        var (x2, st2) := ReadW(r, st1, sys, addr + 2, false, lock);
        (Joined(x1.v, 16, x2), st2)
    else ReadPiece(r, st, sys, addr, 4, false, lock)
  }

  // ---- Writes ----

  function WritePiece(r: Registers, st: State, sys: bool, addr: bv32, n: nat, v: bv32): (result: (Write, State))
    requires Shaped(st.atc)
    ensures Shaped(result.1.atc)
  {
    var (c, st') := PtestAndCheck(r, st, sys, addr, false, true);
    match c
    case Fail(e) => (WriteError(e), st')
    case Phys(a) =>
      if MappedRun(st'.mem, a, n) then (Done, State(StoreRun(st'.mem, a, n, v), st'.atc)) else (WriteError(0), st')
  }

  function WriteB(r: Registers, st: State, sys: bool, addr: bv32, b: bv32): (result: (Write, State))
    requires Shaped(st.atc)
    ensures Shaped(result.1.atc)
  {
    WritePiece(r, st, sys, addr, 1, b)
  }

  /** What w >> 8 hands to WriteB, which takes its low eight bits. */
  function UpperByte(w: bv32): bv32 { w >> 8 }

  function Later(w: Write): Write {
    if w.Done? then w else WriteError(Misaligned(w.ssw))
  }

  function WriteW(r: Registers, st: State, sys: bool, addr: bv32, w: bv32): (result: (Write, State))
    requires Shaped(st.atc)
    ensures Shaped(result.1.atc)
  {
    if addr & 1 != 0 then
      var (x1, st1) := WriteB(r, st, sys, addr, UpperByte(w));
      if x1.WriteError? then (x1, st1)
      else
        var (x2, st2) := WriteB(r, st1, sys, Succ(addr), w);
        (Later(x2), st2)
    else WritePiece(r, st, sys, addr, 2, w)
  }

  function WriteL(r: Registers, st: State, sys: bool, addr: bv32, l: bv32): (result: (Write, State))
    requires Shaped(st.atc)
    ensures Shaped(result.1.atc)
  {
    if addr & 2 != 0 then
      var (x1, st1) := WriteW(r, st, sys, addr, l >> 16);
      if x1.WriteError? then (x1, st1)
      else
        var (x2, st2) := WriteW(r, st1, sys, addr + 2, l);
        (Later(x2), st2)
    else WritePiece(r, st, sys, addr, 4, l)
  }

  // ---- The reference: one byte after the other, each translated on its own ----

  /** n byte reads; an error at any but the first byte carries SSW_MA. */
  function ReadBytes(r: Registers, st: State, sys: bool, addr: bv32, n: nat, lock: bool, acc: bv32, first: bool)
      : (result: (Read, State))
    requires Shaped(st.atc)
    ensures Shaped(result.1.atc)
    decreases n
  {
    if n == 0 then (Data(acc), st)
    else
      var (x, st') := ReadB(r, st, sys, addr, lock);
      match x
      case Data(b) => ReadBytes(r, st', sys, Succ(addr), n - 1, lock, Append(acc, b), false)
      case ReadError(e) => (ReadError(if first then e else Misaligned(e)), st')
  }

  /** n byte writes, most significant first; the bytes before an error stay written. */
  function WriteBytes(r: Registers, st: State, sys: bool, addr: bv32, n: nat, v: bv32, first: bool)
      : (result: (Write, State))
    requires Shaped(st.atc)
    ensures Shaped(result.1.atc)
    decreases n
  {
    if n == 0 then (Done, st)
    else
      var (x, st') := WriteB(r, st, sys, addr, TopByte(v, n));
      match x
      case Done => WriteBytes(r, st', sys, Succ(addr), n - 1, v, false)
      case WriteError(e) => (WriteError(if first then e else Misaligned(e)), st')
  }
}
