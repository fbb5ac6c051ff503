/**
 The bit field instructions on memory, in the five branches of the source.  A method whose
 access faults stops there; `done` counts the bytes it has written by then.
 */
module BitFieldOps {
  import opened BitStrings
  import opened BitFieldRegister
  import opened BitFieldBytes
  import opened BitAddresses
  import opened Addresses
  import opened ByteBus
  import opened BitFieldMemory
  import opened CpuFlags

  // ---- The branches ----

  lemma Steps(o: bv6, w: bv6)
    requires InByte(o, w)
    ensures Reach(o, w) > 8 <==> Span(o, w) > 1
    ensures Reach(o, w) > 16 <==> Span(o, w) > 2
    ensures Reach(o, w) > 24 <==> Span(o, w) > 3
    ensures Reach(o, w) > 32 <==> Span(o, w) > 4
    ensures 0 < Span(o, w) <= 5
    ensures Single(o, w) <==> !(Reach(o, w) > 8)
  {}

  lemma OrZero(x: bv32)
    ensures Or(0, x) == x && Or(x, 0) == x
  {}

  lemma AllFive(m: Bytes, base: bv32, n: bv6)
    requires n <= 5
    requires 0 < n ==> Byte(base, 0) in m
    requires 1 < n ==> Byte(base, 1) in m
    requires 2 < n ==> Byte(base, 2) in m
    requires 3 < n ==> Byte(base, 3) in m
    requires 4 < n ==> Byte(base, 4) in m
    ensures Readable(m, base, n)
  {
    hide Byte;
    forall k: bv6 | k < n ensures Byte(base, k) in m {
      FiveCases(k);
    }
  }

  method BfM(bus: Bus, addr: bv32, offset: bv32, w: bv6) returns (ok: bool, x: bv32)
    requires 1 <= w <= 32
    ensures InByte(Low(offset), w)
    ensures ok <==> Readable(bus.bytes, Base(addr, offset), Span(Low(offset), w))
    ensures ok ==> x == FieldM(bus.bytes, Base(addr, offset), Low(offset), w)
  {
    hide Byte, Span, Reach, Base, Low, Or, And, Ones, Term, Single;
    LowIs(offset);
    var base, o := Base(addr, offset), Low(offset);
    Steps(o, w);
    var v, b := 0, 0;
    x := 0;
    ok, b := bus.ReadB(Byte(base, 0));
    if !ok { return; }
    v := Or(v, Term(b, o, 0));
    OrZero(Term(b, o, 0));
    OrZero(v);
    if Reach(o, w) > 8 {
      ok, b := bus.ReadB(Byte(base, 1));
      if !ok { return; }
      v := Or(v, Term(b, o, 1));
    }
    OrZero(v);
    if Reach(o, w) > 16 {
      ok, b := bus.ReadB(Byte(base, 2));
      if !ok { return; }
      v := Or(v, Term(b, o, 2));
    }
    OrZero(v);
    if Reach(o, w) > 24 {
      ok, b := bus.ReadB(Byte(base, 3));
      if !ok { return; }
      v := Or(v, Term(b, o, 3));
    }
    OrZero(v);
    if Reach(o, w) > 32 {
      ok, b := bus.ReadB(Byte(base, 4));
      if !ok { return; }
      v := Or(v, Term(b, o, 4));
    }
    AllFive(bus.bytes, base, Span(o, w));
    x := And(v, Ones(w));
  }

  /** BFTST: the flags are set only when every byte could be read. */
  method BfTst(cpu: Cpu, bus: Bus, addr: bv32, offset: bv32, w: bv6) returns (ok: bool, x: bv32)
    requires 1 <= w <= 32
    modifies cpu
    ensures InByte(Low(offset), w)
    ensures ok <==> Readable(bus.bytes, Base(addr, offset), Span(Low(offset), w))
    ensures ok ==> x == FieldM(bus.bytes, Base(addr, offset), Low(offset), w) && Tested(cpu, x)
    ensures !ok ==> cpu.N == old(cpu.N) && cpu.Z == old(cpu.Z) && cpu.V == old(cpu.V) && cpu.C == old(cpu.C)
    ensures cpu.X == old(cpu.X)
  {
    hide Base, Low, Span, FieldM, Negative, Readable;
    ok, x := BfM(bus, addr, offset, w);
    if ok {
      cpu.V := false;
      cpu.C := false;
      cpu.TestL(x);
    }
  }

  // ---- BFCHG, BFCLR and BFSET ----

  ghost predicate Written(bus: Bus, base: bv32, n: bv6) {
    forall k: bv6 :: k < n ==> Byte(base, k) in bus.writable
  }

  lemma OneMoreWritten(bus: Bus, base: bv32, n: bv6)
    requires Written(bus, base, n) && n < 5 && Byte(base, n) in bus.writable
    ensures Written(bus, base, n + 1)
  {
    hide Byte;
    forall k: bv6 | k < n + 1 ensures Byte(base, k) in bus.writable {
      assert k < n || k == n;
    }
  }

  /** One statement of a branch: WriteB(addr + k, ReadB(addr + k) op mask). */
  method AlterOne(bus: Bus, op: Change, base: bv32, k: bv6, mask: bv8,
                  ghost m: Bytes, ghost o: bv6, ghost w: bv6) returns (ok: bool, done: bv6)
    requires Covered(o, w, k) && mask == ByteMask(o, w, k)
    requires Readable(m, base, Span(o, w)) && Written(bus, base, k)
    requires Partly(Alter(op), m, bus.bytes, base, o, w, k)
    modifies bus
    ensures Partly(Alter(op), m, bus.bytes, base, o, w, done) && Written(bus, base, done)
    ensures ok ==> done == k + 1
    ensures !ok ==> done == k && Byte(base, k) !in bus.writable
  {
    hide Byte, Behind, Offset, Span, ByteMask, AlterByte, Covered;
    Shifts(o, w, k);
    OneByte(Alter(op), m, bus.bytes, base, o, w, k);
    done := k;
    var b: bv8;
    ok, b := bus.ReadB(Byte(base, k));
    assert ok;
    ok := bus.WriteB(Byte(base, k), AlterByte(op, b, mask));
    if ok {
      OneMoreWritten(bus, base, k);
      done := k + 1;
    }
  }

  /** A byte inside the field: ~ReadB for BFCHG, 0 for BFCLR and 0xFF for BFSET. */
  method AlterWhole(bus: Bus, op: Change, base: bv32, k: bv6,
                    ghost m: Bytes, ghost o: bv6, ghost w: bv6) returns (ok: bool, done: bv6)
    requires Covered(o, w, k) && ByteMask(o, w, k) == Full()
    requires Readable(m, base, Span(o, w)) && Written(bus, base, k)
    requires Partly(Alter(op), m, bus.bytes, base, o, w, k)
    modifies bus
    ensures Partly(Alter(op), m, bus.bytes, base, o, w, done) && Written(bus, base, done)
    ensures ok ==> done == k + 1
    ensures !ok ==> done == k && Byte(base, k) !in bus.writable
  {
    hide Byte, Behind, Offset, Span, ByteMask, AlterByte, Covered, Full;
    Shifts(o, w, k);
    OneByte(Alter(op), m, bus.bytes, base, o, w, k);
    WholeByte(m[Byte(base, k)]);
    done := k;
    var b: bv8 := 0;
    match op {
      case Chg =>
        ok, b := bus.ReadB(Byte(base, k));
        assert ok;
        b := Flipped(b);
      case Clr =>
        b := 0;
      case Set =>
        b := 0xFF;
    }
    ok := bus.WriteB(Byte(base, k), b);
    if ok {
      OneMoreWritten(bus, base, k);
      done := k + 1;
    }
  }

  function Flipped(b: bv8): bv8 { !b }

  lemma WholeByte(b: bv8)
    ensures AlterByte(Chg, b, Full()) == Flipped(b)
    ensures AlterByte(Clr, b, Full()) == 0
    ensures AlterByte(Set, b, Full()) == 0xFF
  {}

  /** The masks of the branch for n bytes. */
  lemma Masks(o: bv6, w: bv6)
    requires InByte(o, w)
    ensures Span(o, w) == 1 ==> Single(o, w) && ByteMask(o, w, 0) == OneMask(o, w)
    ensures Span(o, w) > 1 ==> ByteMask(o, w, 0) == FirstMask(o)
    ensures Span(o, w) == 2 ==> 16 - Reach(o, w) < 8 && ByteMask(o, w, 1) == LastMask(16 - Reach(o, w))
    ensures Span(o, w) > 2 ==> ByteMask(o, w, 1) == Full()
    ensures Span(o, w) == 3 ==> 24 - Reach(o, w) < 8 && ByteMask(o, w, 2) == LastMask(24 - Reach(o, w))
    ensures Span(o, w) > 3 ==> ByteMask(o, w, 2) == Full()
    ensures Span(o, w) == 4 ==> 32 - Reach(o, w) < 8 && ByteMask(o, w, 3) == LastMask(32 - Reach(o, w))
    ensures Span(o, w) > 4 ==> ByteMask(o, w, 3) == Full()
    ensures Span(o, w) == 5 ==> 40 - Reach(o, w) < 8 && ByteMask(o, w, 4) == LastMask(40 - Reach(o, w))
  {
    hide OneMask, FirstMask, LastMask, Full;
  }

  /** BFCHG, BFCLR and BFSET on memory: BFTST, then the bytes from the first to the last. */
  method ChangeField(cpu: Cpu, bus: Bus, op: Change, addr: bv32, offset: bv32, w: bv6) returns (ok: bool, done: bv6)
    requires 1 <= w <= 32
    modifies cpu, bus
    ensures InByte(Low(offset), w)
    ensures Partly(Alter(op), old(bus.bytes), bus.bytes, Base(addr, offset), Low(offset), w, done)
    ensures Written(bus, Base(addr, offset), done)
    ensures ok ==> Updated(Alter(op), old(bus.bytes), bus.bytes, Base(addr, offset), Low(offset), w)
    ensures if Readable(old(bus.bytes), Base(addr, offset), Span(Low(offset), w))
            then Tested(cpu, FieldM(old(bus.bytes), Base(addr, offset), Low(offset), w))
            else !ok && cpu.N == old(cpu.N) && cpu.Z == old(cpu.Z) && cpu.V == old(cpu.V) && cpu.C == old(cpu.C)
    ensures !ok ==> if Readable(old(bus.bytes), Base(addr, offset), Span(Low(offset), w))
                    then done < Span(Low(offset), w) && Byte(Base(addr, offset), done) !in bus.writable
                    else done == 0
    ensures cpu.X == old(cpu.X)
  {
    hide Byte, Span, Base, Low, FieldM, Negative, Readable, Partly, Written, ByteMask, Reach, OneMask, FirstMask,
         LastMask, Full, Single;
    var x: bv32;
    ghost var m := bus.bytes;
    ok, x := BfTst(cpu, bus, addr, offset, w);
    done := 0;
    var base, o := Base(addr, offset), Low(offset);
    NothingYet(Alter(op), m, base, o, w);
    NoneWritten(bus, base);
    if !ok { return; }
    Steps(o, w);
    Masks(o, w);
    var ln := Reach(o, w);
    if ln <= 8 {
      ok, done := AlterOne(bus, op, base, 0, OneMask(o, w), m, o, w);
    } else if ln <= 16 {
      ok, done := AlterOne(bus, op, base, 0, FirstMask(o), m, o, w);
      if !ok { return; }
      ok, done := AlterOne(bus, op, base, 1, LastMask(16 - ln), m, o, w);
    } else if ln <= 24 {
      ok, done := AlterOne(bus, op, base, 0, FirstMask(o), m, o, w);
      if !ok { return; }
      ok, done := AlterWhole(bus, op, base, 1, m, o, w);
      if !ok { return; }
      ok, done := AlterOne(bus, op, base, 2, LastMask(24 - ln), m, o, w);
    } else if ln <= 32 {
      ok, done := AlterOne(bus, op, base, 0, FirstMask(o), m, o, w);
      if !ok { return; }
      ok, done := AlterWhole(bus, op, base, 1, m, o, w);
      if !ok { return; }
      ok, done := AlterWhole(bus, op, base, 2, m, o, w);
      if !ok { return; }
      ok, done := AlterOne(bus, op, base, 3, LastMask(32 - ln), m, o, w);
    } else {
      ok, done := AlterOne(bus, op, base, 0, FirstMask(o), m, o, w);
      if !ok { return; }
      ok, done := AlterWhole(bus, op, base, 1, m, o, w);
      if !ok { return; }
      ok, done := AlterWhole(bus, op, base, 2, m, o, w);
      if !ok { return; }
      ok, done := AlterWhole(bus, op, base, 3, m, o, w);
      if !ok { return; }
      ok, done := AlterOne(bus, op, base, 4, LastMask(40 - ln), m, o, w);
    }
  }

  lemma NoneWritten(bus: Bus, base: bv32)
    ensures Written(bus, base, 0)
  {}

  // ---- BFINS ----

  lemma OneMoreReadable(m: Bytes, base: bv32, n: bv6)
    requires Readable(m, base, n) && n < 5 && Byte(base, n) in m
    ensures Readable(m, base, n + 1)
  {
    hide Byte;
    forall k: bv6 | k < n + 1 ensures Byte(base, k) in m {
      assert k < n || k == n;
    }
  }

  /** What BFINS stores in an edge byte: the bits of keep stay, those of part come in. */
  function Merged(b: bv8, keep: bv8, part: bv8): bv8 { ByteOr(ByteAnd(b, keep), part) }

  method InsertOne(bus: Bus, ghost v: bv32, base: bv32, k: bv6, keep: bv8, part: bv8,
                   ghost m: Bytes, ghost o: bv6, ghost w: bv6) returns (ok: bool, done: bv6)
    requires Covered(o, w, k)
    requires forall b: bv8 :: Merged(b, keep, part) == InsertByte(v, o, w, k, b)
    requires Readable(m, base, k) && Written(bus, base, k)
    requires Partly(Insert(v), m, bus.bytes, base, o, w, k)
    modifies bus
    ensures Partly(Insert(v), m, bus.bytes, base, o, w, done) && Readable(m, base, done) && Written(bus, base, done)
    ensures ok ==> done == k + 1
    ensures !ok ==> done == k && !(Byte(base, k) in m && Byte(base, k) in bus.writable)
  {
    hide Byte, Behind, Offset, Span, InsertByte, Covered, Merged;
    Shifts(o, w, k);
    done := k;
    var b: bv8;
    ok, b := bus.ReadB(Byte(base, k));
    if !ok { return; }
    OneByte(Insert(v), m, bus.bytes, base, o, w, k);
    ok := bus.WriteB(Byte(base, k), Merged(b, keep, part));
    if ok {
      OneMoreReadable(m, base, k);
      OneMoreWritten(bus, base, k);
      done := k + 1;
    }
  }

  method InsertWhole(bus: Bus, ghost v: bv32, base: bv32, k: bv6, part: bv8,
                     ghost m: Bytes, ghost o: bv6, ghost w: bv6) returns (ok: bool, done: bv6)
    requires Covered(o, w, k)
    requires forall b: bv8 :: InsertByte(v, o, w, k, b) == part
    requires Readable(m, base, k) && Written(bus, base, k)
    requires Partly(Insert(v), m, bus.bytes, base, o, w, k)
    modifies bus
    ensures Partly(Insert(v), m, bus.bytes, base, o, w, done) && Readable(m, base, done) && Written(bus, base, done)
    ensures ok ==> done == k + 1
    ensures !ok ==> done == k && !(Byte(base, k) in m && Byte(base, k) in bus.writable)
  {
    hide Byte, Behind, Offset, Span, InsertByte, Covered;
    Shifts(o, w, k);
    done := k;
    ok := bus.WriteB(Byte(base, k), part);
    if ok {
      OneByte(Insert(v), m, old(bus.bytes), base, o, w, k);
      OneMoreReadable(m, base, k);
      OneMoreWritten(bus, base, k);
      done := k + 1;
    }
  }

  lemma ClearIsKeep(b: bv8, mask: bv8)
    ensures ByteClear(b, mask) == ByteAnd(b, Flipped(mask))
  {}

  lemma SinglePart(v: bv32, o: bv6, w: bv6)
    requires InByte(o, w) && Span(o, w) == 1
    ensures Covered(o, w, 0) && Single(o, w) && 8 - Reach(o, w) < 8
    ensures forall b: bv8 :: Merged(b, Flipped(OneMask(o, w)), ByteAnd(Up(v, 8 - Reach(o, w)), OneMask(o, w)))
                             == InsertByte(v, o, w, 0, b)
  {
    hide OneMask, Up, ByteAnd, ByteClear, ByteOr, Flipped;
    forall b: bv8 ensures ByteClear(b, OneMask(o, w)) == ByteAnd(b, Flipped(OneMask(o, w))) {
      ClearIsKeep(b, OneMask(o, w));
    }
  }

  lemma FirstPart(v: bv32, o: bv6, w: bv6)
    requires InByte(o, w) && Span(o, w) > 1
    ensures Covered(o, w, 0) && Reach(o, w) - 8 < 32
    ensures forall b: bv8 :: Merged(b, Flipped(FirstMask(o)), Down(v, Reach(o, w) - 8)) == InsertByte(v, o, w, 0, b)
    ensures NotFirstMask(o) == Flipped(FirstMask(o))
  {
    NotFirstMaskIs(o);
    hide FirstMask, NotFirstMask, Down, ByteAnd, ByteClear, ByteOr;
    assert NotFirstMask(o) == Flipped(FirstMask(o));
    hide Flipped;
    forall b: bv8 ensures ByteClear(b, FirstMask(o)) == ByteAnd(b, Flipped(FirstMask(o))) {
      ClearIsKeep(b, FirstMask(o));
    }
  }

  lemma LastPart(v: bv32, o: bv6, w: bv6, k: bv6)
    requires InByte(o, w) && 0 < k && Span(o, w) == k + 1
    ensures Covered(o, w, k) && Spare(o, w) < 8
    ensures forall b: bv8 :: Merged(b, Flipped(LastMask(Spare(o, w))), Up(v, Spare(o, w))) == InsertByte(v, o, w, k, b)
  {
    hide LastMask, Up, ByteAnd, ByteClear, ByteOr, Flipped;
    Shifts(o, w, k);
    forall b: bv8 ensures ByteClear(b, LastMask(Spare(o, w))) == ByteAnd(b, Flipped(LastMask(Spare(o, w)))) {
      ClearIsKeep(b, LastMask(Spare(o, w)));
    }
  }

  lemma WholePart(v: bv32, o: bv6, w: bv6, k: bv6)
    requires InByte(o, w) && 0 < k < 5 && k + 1 < Span(o, w)
    ensures Covered(o, w, k) && Above(o, w, k) < 32
    ensures forall b: bv8 :: InsertByte(v, o, w, k, b) == Down(v, Above(o, w, k))
  {
    hide Down;
    Shifts(o, w, k);
  }

  lemma Amounts(o: bv6, w: bv6)
    requires InByte(o, w)
    ensures Span(o, w) == 2 ==> Spare(o, w) == 16 - Reach(o, w)
    ensures Span(o, w) == 3 ==> Spare(o, w) == 24 - Reach(o, w)
    ensures Span(o, w) == 4 ==> Spare(o, w) == 32 - Reach(o, w)
    ensures Span(o, w) == 5 ==> Spare(o, w) == 40 - Reach(o, w)
    ensures Above(o, w, 1) == Reach(o, w) - 16
    ensures Above(o, w, 2) == Reach(o, w) - 24
    ensures Above(o, w, 3) == Reach(o, w) - 32
  {}

  /** How far BFINS has come: the bytes before `done` hold v's part, and only a byte that cannot be
      read or written stops it. */
  ghost predicate Inserted(bus: Bus, v: bv32, m: Bytes, base: bv32, o: bv6, w: bv6, ok: bool, done: bv6)
    requires InByte(o, w)
    reads bus
  {
    && Partly(Insert(v), m, bus.bytes, base, o, w, done) && Readable(m, base, done) && Written(bus, base, done)
    && (ok ==> done == Span(o, w))
    && (!ok ==> done < Span(o, w) && !(Byte(base, done) in m && Byte(base, done) in bus.writable))
  }

  lemma NoneReadable(m: Bytes, base: bv32)
    ensures Readable(m, base, 0)
  {}

  lemma NothingInserted(bus: Bus, v: bv32, base: bv32, o: bv6, w: bv6)
    requires InByte(o, w)
    ensures Partly(Insert(v), bus.bytes, bus.bytes, base, o, w, 0) && Readable(bus.bytes, base, 0)
            && Written(bus, base, 0)
  {
    hide Partly, Readable, Written;
    NothingYet(Insert(v), bus.bytes, base, o, w);
    NoneWritten(bus, base);
    NoneReadable(bus.bytes, base);
  }

  // One method for each branch of the source, by the number of bytes the field lies in.

  method InsertIn1(bus: Bus, v: bv32, base: bv32, o: bv6, w: bv6) returns (ok: bool, done: bv6)
    requires InByte(o, w) && Span(o, w) == 1
    modifies bus
    ensures Inserted(bus, v, old(bus.bytes), base, o, w, ok, done)
  {
    hide Byte, Span, Readable, Partly, Written, InsertByte, Reach, OneMask, FirstMask, NotFirstMask, LastMask, Full,
         Single, Covered, Spare, Above, Up, Down, Merged, ByteAnd, Flipped;
    ghost var m := bus.bytes;
    NothingInserted(bus, v, base, o, w);
    Amounts(o, w);
    SinglePart(v, o, w);
    var mask := OneMask(o, w);
    ok, done := InsertOne(bus, v, base, 0, Flipped(mask), ByteAnd(Up(v, 8 - Reach(o, w)), mask), m, o, w);
  }

  method InsertIn2(bus: Bus, v: bv32, base: bv32, o: bv6, w: bv6) returns (ok: bool, done: bv6)
    requires InByte(o, w) && Span(o, w) == 2
    modifies bus
    ensures Inserted(bus, v, old(bus.bytes), base, o, w, ok, done)
  {
    hide Byte, Span, Readable, Partly, Written, InsertByte, Reach, OneMask, FirstMask, NotFirstMask, LastMask, Full,
         Single, Covered, Spare, Above, Up, Down, Merged, ByteAnd, Flipped;
    ghost var m := bus.bytes;
    NothingInserted(bus, v, base, o, w);
    Amounts(o, w);
    var ln := Reach(o, w);
    FirstPart(v, o, w);
    ok, done := InsertOne(bus, v, base, 0, NotFirstMask(o), Down(v, ln - 8), m, o, w);
    if !ok { return; }
    LastPart(v, o, w, 1);
    ok, done := InsertOne(bus, v, base, 1, Flipped(LastMask(16 - ln)), Up(v, 16 - ln), m, o, w);
  }

  method InsertIn3(bus: Bus, v: bv32, base: bv32, o: bv6, w: bv6) returns (ok: bool, done: bv6)
    requires InByte(o, w) && Span(o, w) == 3
    modifies bus
    ensures Inserted(bus, v, old(bus.bytes), base, o, w, ok, done)
  {
    hide Byte, Span, Readable, Partly, Written, InsertByte, Reach, OneMask, FirstMask, NotFirstMask, LastMask, Full,
         Single, Covered, Spare, Above, Up, Down, Merged, ByteAnd, Flipped;
    ghost var m := bus.bytes;
    NothingInserted(bus, v, base, o, w);
    Amounts(o, w);
    var ln := Reach(o, w);
    FirstPart(v, o, w);
    ok, done := InsertOne(bus, v, base, 0, Flipped(FirstMask(o)), Down(v, ln - 8), m, o, w);
    if !ok { return; }
    WholePart(v, o, w, 1);
    ok, done := InsertWhole(bus, v, base, 1, Down(v, ln - 16), m, o, w);
    if !ok { return; }
    LastPart(v, o, w, 2);
    ok, done := InsertOne(bus, v, base, 2, Flipped(LastMask(24 - ln)), Up(v, 24 - ln), m, o, w);
  }

  method InsertIn4(bus: Bus, v: bv32, base: bv32, o: bv6, w: bv6) returns (ok: bool, done: bv6)
    requires InByte(o, w) && Span(o, w) == 4
    modifies bus
    ensures Inserted(bus, v, old(bus.bytes), base, o, w, ok, done)
  {
    hide Byte, Span, Readable, Partly, Written, InsertByte, Reach, OneMask, FirstMask, NotFirstMask, LastMask, Full,
         Single, Covered, Spare, Above, Up, Down, Merged, ByteAnd, Flipped;
    ghost var m := bus.bytes;
    NothingInserted(bus, v, base, o, w);
    Amounts(o, w);
    var ln := Reach(o, w);
    FirstPart(v, o, w);
    ok, done := InsertOne(bus, v, base, 0, NotFirstMask(o), Down(v, ln - 8), m, o, w);
    if !ok { return; }
    WholePart(v, o, w, 1);
    ok, done := InsertWhole(bus, v, base, 1, Down(v, ln - 16), m, o, w);
    if !ok { return; }
    WholePart(v, o, w, 2);
    ok, done := InsertWhole(bus, v, base, 2, Down(v, ln - 24), m, o, w);
    if !ok { return; }
    LastPart(v, o, w, 3);
    ok, done := InsertOne(bus, v, base, 3, Flipped(LastMask(32 - ln)), Up(v, 32 - ln), m, o, w);
  }

  method InsertIn5(bus: Bus, v: bv32, base: bv32, o: bv6, w: bv6) returns (ok: bool, done: bv6)
    requires InByte(o, w) && Span(o, w) == 5
    modifies bus
    ensures Inserted(bus, v, old(bus.bytes), base, o, w, ok, done)
  {
    hide Byte, Span, Readable, Partly, Written, InsertByte, Reach, OneMask, FirstMask, NotFirstMask, LastMask, Full,
         Single, Covered, Spare, Above, Up, Down, Merged, ByteAnd, Flipped;
    ghost var m := bus.bytes;
    NothingInserted(bus, v, base, o, w);
    Amounts(o, w);
    var ln := Reach(o, w);
    FirstPart(v, o, w);
    ok, done := InsertOne(bus, v, base, 0, NotFirstMask(o), Down(v, ln - 8), m, o, w);
    if !ok { return; }
    WholePart(v, o, w, 1);
    ok, done := InsertWhole(bus, v, base, 1, Down(v, ln - 16), m, o, w);
    if !ok { return; }
    WholePart(v, o, w, 2);
    ok, done := InsertWhole(bus, v, base, 2, Down(v, ln - 24), m, o, w);
    if !ok { return; }
    WholePart(v, o, w, 3);
    ok, done := InsertWhole(bus, v, base, 3, Down(v, ln - 32), m, o, w);
    if !ok { return; }
    LastPart(v, o, w, 4);
    ok, done := InsertOne(bus, v, base, 4, Flipped(LastMask(40 - ln)), Up(v, 40 - ln), m, o, w);
  }

  /**
   BFINS on memory.  N and Z are set first and V and C never; each byte is read, merged and
   written before the next one is read, so a fault leaves the bytes before it written.
   */
  method BfIns(cpu: Cpu, bus: Bus, addr: bv32, offset: bv32, w: bv6, v: bv32) returns (ok: bool, done: bv6)
    requires 1 <= w <= 32
    modifies cpu, bus
    ensures InByte(Low(offset), w)
    ensures Inserted(bus, v, old(bus.bytes), Base(addr, offset), Low(offset), w, ok, done)
    ensures cpu.N == Negative(Aligned(v, w)) && cpu.Z == (Aligned(v, w) == 0)
    ensures cpu.V == old(cpu.V) && cpu.C == old(cpu.C) && cpu.X == old(cpu.X)
  {
    hide Span, Base, Low, Aligned, Negative, Reach, Inserted;
    cpu.TestL(Aligned(v, w));
    LowIs(offset);
    var base, o := Base(addr, offset), Low(offset);
    Steps(o, w);
    var ln := Reach(o, w);
    if ln <= 8 {
      ok, done := InsertIn1(bus, v, base, o, w);
    } else if ln <= 16 {
      ok, done := InsertIn2(bus, v, base, o, w);
    } else if ln <= 24 {
      ok, done := InsertIn3(bus, v, base, o, w);
    } else if ln <= 32 {
      ok, done := InsertIn4(bus, v, base, o, w);
    } else {
      ok, done := InsertIn5(bus, v, base, o, w);
    }
  }

  // ---- BFEXTU, BFEXTS and BFFFO ----

  method BfExtU(cpu: Cpu, bus: Bus, addr: bv32, offset: bv32, w: bv6) returns (ok: bool, r: bv32)
    requires 1 <= w <= 32
    modifies cpu
    ensures InByte(Low(offset), w)
    ensures ok <==> Readable(bus.bytes, Base(addr, offset), Span(Low(offset), w))
    ensures ok ==> r == Lowered(FieldM(bus.bytes, Base(addr, offset), Low(offset), w), w)
    ensures ok ==> Tested(cpu, FieldM(bus.bytes, Base(addr, offset), Low(offset), w))
    ensures !ok ==> cpu.N == old(cpu.N) && cpu.Z == old(cpu.Z) && cpu.V == old(cpu.V) && cpu.C == old(cpu.C)
    ensures cpu.X == old(cpu.X)
  {
    hide Base, Low, Span, FieldM, Negative, Readable, Lowered;
    ok, r := BfTst(cpu, bus, addr, offset, w);
    if ok {
      r := Lowered(r, w);
    }
  }

  method BfExtS(cpu: Cpu, bus: Bus, addr: bv32, offset: bv32, w: bv6) returns (ok: bool, r: bv32)
    requires 1 <= w <= 32
    modifies cpu
    ensures InByte(Low(offset), w)
    ensures ok <==> Readable(bus.bytes, Base(addr, offset), Span(Low(offset), w))
    ensures ok ==> r == SignLowered(FieldM(bus.bytes, Base(addr, offset), Low(offset), w), w)
    ensures ok ==> Tested(cpu, FieldM(bus.bytes, Base(addr, offset), Low(offset), w))
    ensures !ok ==> cpu.N == old(cpu.N) && cpu.Z == old(cpu.Z) && cpu.V == old(cpu.V) && cpu.C == old(cpu.C)
    ensures cpu.X == old(cpu.X)
  {
    hide Base, Low, Span, FieldM, Negative, Readable, SignLowered;
    ok, r := BfTst(cpu, bus, addr, offset, w);
    if ok {
      r := SignLowered(r, w);
    }
  }

  method BfFfo(cpu: Cpu, bus: Bus, addr: bv32, offset: bv32, w: bv6) returns (ok: bool, r: bv32)
    requires 1 <= w <= 32
    modifies cpu
    ensures InByte(Low(offset), w)
    ensures ok <==> Readable(bus.bytes, Base(addr, offset), Span(Low(offset), w))
    ensures ok ==> r == Moved(offset, FirstOne(FieldM(bus.bytes, Base(addr, offset), Low(offset), w), w))
    ensures ok ==> Tested(cpu, FieldM(bus.bytes, Base(addr, offset), Low(offset), w))
    ensures !ok ==> cpu.N == old(cpu.N) && cpu.Z == old(cpu.Z) && cpu.V == old(cpu.V) && cpu.C == old(cpu.C)
    ensures cpu.X == old(cpu.X)
  {
    hide Base, Low, Span, FieldM, Negative, Readable, Moved, CountLZero;
    ok, r := BfTst(cpu, bus, addr, offset, w);
    if ok {
      r := Moved(offset, if r != 0 then CountLZero(r, 0) else w);
    }
  }
}
