/**
 Bit fields in memory: BFTST, BFCHG, BFCLR, BFSET, BFEXTU, BFEXTS, BFFFO and BFINS as the
 five hand-unrolled branches do them, byte by byte, against the string of bits.
 */
module BitFieldMemory {
  import opened BitStrings
  import opened BitFieldRegister
  import opened BitFieldBytes
  import opened BitAddresses
  import opened Addresses
  import opened ByteBus
  import opened CpuFlags

  /** Unmapped bytes read as zero here; the instructions never look at one. */
  function Value(m: Bytes, l: Loc): bv8 { if l in m then m[l] else 0 }

  predicate MemBit(m: Bytes, i: bv35) { ByteBit(Value(m, ByteOf(i)), BitOf(i)) }

  // ---- Reading ----

  ghost predicate Readable(m: Bytes, base: bv32, n: bv6) {
    forall k: bv6 :: k < n ==> Byte(base, k) in m
  }

  /** Byte k's part of the field, when the field reaches it. */
  function Part(m: Bytes, base: bv32, o: bv6, w: bv6, k: bv6): bv32
    requires o < 8 && k < 5
  {
    if k < Span(o, w) then Term(Value(m, Byte(base, k)), o, k) else 0
  }

  function Collected(m: Bytes, base: bv32, o: bv6, w: bv6): bv32
    requires InByte(o, w)
  {
    Or(Or(Or(Or(Part(m, base, o, w, 0), Part(m, base, o, w, 1)), Part(m, base, o, w, 2)), Part(m, base, o, w, 3)),
       Part(m, base, o, w, 4))
  }

  /** The field of memory, left-aligned: what BF_M returns. */
  function FieldM(m: Bytes, base: bv32, o: bv6, w: bv6): bv32
    requires InByte(o, w)
  {
    And(Collected(m, base, o, w), Ones(w))
  }

  lemma PartBit(m: Bytes, base: bv32, o: bv6, w: bv6, k: bv6, i: bv5)
    requires InByte(o, w) && k < 5
    ensures RingBit(Part(m, base, o, w, k), i)
            <==> k < Span(o, w) && ByteIndex(Ahead(o, i)) == k && MemBit(m, BitAddr(base, Ahead(o, i)))
  {
    hide RingBit, Term, ByteBit, Span, BitAddr, ByteOf, BitOf, Byte, Ahead, ByteIndex, BitIndex;
    TermBit(Value(m, Byte(base, k)), o, k, i);
    BitAddrIs(base, Ahead(o, i));
    NoOnes(i);
  }

  lemma CollectedBit(m: Bytes, base: bv32, o: bv6, w: bv6, i: bv5)
    requires InByte(o, w)
    ensures RingBit(Collected(m, base, o, w), i)
            <==> exists k: bv6 :: k < 5 && RingBit(Part(m, base, o, w, k), i)
  {
    hide RingBit, Part, Or;
    var p0, p1, p2 := Part(m, base, o, w, 0), Part(m, base, o, w, 1), Part(m, base, o, w, 2);
    var p3, p4 := Part(m, base, o, w, 3), Part(m, base, o, w, 4);
    OrBit(p0, p1, i);
    OrBit(Or(p0, p1), p2, i);
    OrBit(Or(Or(p0, p1), p2), p3, i);
    OrBit(Or(Or(Or(p0, p1), p2), p3), p4, i);
    if k: bv6 :| k < 5 && RingBit(Part(m, base, o, w, k), i) {
      FiveCases(k);
    }
  }

  lemma FiveCases(k: bv6)
    requires k < 5
    ensures k == 0 || k == 1 || k == 2 || k == 3 || k == 4
  {}

  lemma WithinSpan(o: bv6, w: bv6, i: bv5)
    requires InByte(o, w) && Among(i, w)
    ensures ByteIndex(Ahead(o, i)) < Span(o, w) <= 5
  {}

  /** Bit i of what is read is bit i of the window. */
  lemma FieldMBit(m: Bytes, base: bv32, o: bv6, w: bv6, i: bv5)
    requires InByte(o, w)
    ensures RingBit(FieldM(m, base, o, w), i) <==> Among(i, w) && MemBit(m, BitAddr(base, Ahead(o, i)))
  {
    hide RingBit, Ones, And, Among, Collected, MemBit, Span, ByteIndex, Ahead, Part;
    AndBit(Collected(m, base, o, w), Ones(w), i);
    OnesBit(w, i);
    CollectedBit(m, base, o, w, i);
    if Among(i, w) {
      WithinSpan(o, w, i);
      PartBit(m, base, o, w, ByteIndex(Ahead(o, i)), i);
      forall k: bv6 | k < 5 ensures RingBit(Part(m, base, o, w, k), i) ==> MemBit(m, BitAddr(base, Ahead(o, i))) {
        PartBit(m, base, o, w, k, i);
      }
    }
  }

  // ---- Changing ----

  /** m' is m with the first n bytes of the field edited and nothing else touched. */
  ghost predicate Partly(e: Edit, m: Bytes, m': Bytes, base: bv32, o: bv6, w: bv6, n: bv6) {
    && InByte(o, w) && n <= Span(o, w)
    && m'.Keys == m.Keys
    && forall l :: l in m ==> m'[l] == NewByte(e, m[l], Offset(l, base), o, w, Behind(l, base, n))
  }

  function NewByte(e: Edit, b: bv8, k: bv6, o: bv6, w: bv6, done: bool): bv8 {
    if done && Covered(o, w, k) then EditByte(e, o, w, k, b) else b
  }

  ghost predicate Updated(e: Edit, m: Bytes, m': Bytes, base: bv32, o: bv6, w: bv6) {
    Partly(e, m, m', base, o, w, Span(o, w))
  }

  lemma NothingYet(e: Edit, m: Bytes, base: bv32, o: bv6, w: bv6)
    requires InByte(o, w)
    ensures Partly(e, m, m, base, o, w, 0)
  {
    hide Offset, EditByte, Span, Dist;
    forall l: Loc ensures !Behind(l, base, 0) { NoneBehind(Dist(l, base)); }
  }

  lemma NoneBehind(d: bv32)
    ensures !Under(d, 0)
  {}

  /** Writing the next byte. */
  lemma OneByte(e: Edit, m: Bytes, m': Bytes, base: bv32, o: bv6, w: bv6, n: bv6)
    requires Partly(e, m, m', base, o, w, n)
    requires Covered(o, w, n) && Byte(base, n) in m
    ensures m'[Byte(base, n)] == m[Byte(base, n)]
    ensures Partly(e, m, m'[Byte(base, n) := EditByte(e, o, w, n, m[Byte(base, n)])], base, o, w, n + 1)
  {
    hide Behind, Offset, EditByte, Byte, Span;
    Shifts(o, w, n);
    NextByte(Byte(base, n), base, n);
    forall l: Loc ensures Behind(l, base, n + 1) <==> Behind(l, base, n) || l == Byte(base, n) {
      NextByte(l, base, n);
    }
    NextIn(n, Span(o, w));
  }

  lemma NextIn(n: bv6, k: bv6)
    requires n < k
    ensures n + 1 <= k
  {}

  // ---- What an update makes of the bits ----

  lemma OffsetCovered(l: Loc, base: bv32, o: bv6, w: bv6, n: bv6)
    requires InByte(o, w) && n <= Span(o, w) && Behind(l, base, n)
    ensures Covered(o, w, Offset(l, base))
  {}

  /** Bit i after the first n bytes are written. */
  lemma BitAfter(e: Edit, m: Bytes, m': Bytes, base: bv32, o: bv6, w: bv6, n: bv6, i: bv35)
    requires Partly(e, m, m', base, o, w, n) && ByteOf(i) in m
    ensures MemBit(m', i)
            == if Behind(ByteOf(i), base, n)
               then EditBit(e, o, w, BitNo(Offset(ByteOf(i), base), BitOf(i)), MemBit(m, i))
               else MemBit(m, i)
  {
    hide Behind, Offset, EditByte, ByteBit, ByteOf, BitOf, EditBit, BitNo, Covered, Span;
    var l := ByteOf(i);
    if Behind(l, base, n) {
      OffsetCovered(l, base, o, w, n);
      EditByteBit(e, o, w, Offset(l, base), m[l], BitOf(i));
    }
  }

  /** A bit of a written byte. */
  lemma Behinds(l: Loc, base: bv32, n: bv6, k: bv6)
    requires Behind(l, base, n) && n <= k
    ensures Behind(l, base, k)
  {}

  /**
   BFCHG, BFCLR and BFSET flip, clear or set exactly the bits of the window, on every
   branch; when a write faults after n bytes, exactly those of them in the first n bytes.
   */
  lemma ExactUpdate(op: Change, m: Bytes, m': Bytes, addr: bv32, offset: bv32, w: bv6, n: bv6, i: bv35)
    requires Partly(Alter(op), m, m', Base(addr, offset), Low(offset), w, n) && ByteOf(i) in m
    ensures MemBit(m', i)
            == if InWindow(i, Start(addr, offset), w) && Behind(ByteOf(i), Base(addr, offset), n)
               then Changed(op, MemBit(m, i)) else MemBit(m, i)
  {
    hide Behind, Offset, ByteBit, ByteOf, BitOf, BitNo, InSpan, Span, Base, Low, Start, BitAddr, InWindow, EditByte,
         MemBit;
    var base, o := Base(addr, offset), Low(offset);
    StartIs(addr, offset);
    WindowIs(i, base, o, w);
    BitAfter(Alter(op), m, m', base, o, w, n, i);
    if Behind(ByteOf(i), base, n) {
      Behinds(ByteOf(i), base, n, Span(o, w));
    }
  }

  /** When every byte was written, the window alone decides. */
  lemma WholeUpdate(op: Change, m: Bytes, m': Bytes, addr: bv32, offset: bv32, w: bv6, i: bv35)
    requires Updated(Alter(op), m, m', Base(addr, offset), Low(offset), w) && ByteOf(i) in m
    ensures MemBit(m', i) == if InWindow(i, Start(addr, offset), w) then Changed(op, MemBit(m, i)) else MemBit(m, i)
  {
    hide Behind, Offset, ByteBit, ByteOf, BitOf, BitNo, InSpan, Span, Base, Low, Start, BitAddr, InWindow, EditByte,
         MemBit;
    var base, o := Base(addr, offset), Low(offset);
    StartIs(addr, offset);
    WindowIs(i, base, o, w);
    ExactUpdate(op, m, m', addr, offset, w, Span(o, w), i);
  }

  // ---- Reading in terms of the window ----

  /** Bit i of what is read is the bit of memory i places after the start. */
  lemma WindowBit(m: Bytes, addr: bv32, offset: bv32, w: bv6, i: bv5)
    requires 1 <= w <= 32
    ensures InByte(Low(offset), w)
    ensures RingBit(FieldM(m, Base(addr, offset), Low(offset), w), i)
            <==> Among(i, w) && MemBit(m, Sum(Start(addr, offset), Wide(i as bv6)))
  {
    hide RingBit, FieldM, Among, MemBit, Base, Low, Start, BitAddr, Sum, Wide;
    LowIs(offset);
    StartIs(addr, offset);
    Further(Base(addr, offset), Low(offset), i as bv6);
    FieldMBit(m, Base(addr, offset), Low(offset), w, i);
  }

  /** N and Z after a field operation: the first bit of the window, and no bit of it. */
  lemma WindowFlags(m: Bytes, addr: bv32, offset: bv32, w: bv6)
    requires 1 <= w <= 32
    ensures InByte(Low(offset), w)
    ensures Negative(FieldM(m, Base(addr, offset), Low(offset), w)) == MemBit(m, Start(addr, offset))
    ensures FieldM(m, Base(addr, offset), Low(offset), w) == 0
            <==> forall i: bv5 :: Among(i, w) ==> !MemBit(m, Sum(Start(addr, offset), Wide(i as bv6)))
  {
    LowIs(offset);
    hide RingBit, FieldM, Among, MemBit, Base, Low, Start, Sum, Wide, Negative;
    var x := FieldM(m, Base(addr, offset), Low(offset), w);
    NegativeBit(x);
    FromStart(0, w);
    SumZero(Start(addr, offset));
    ZeroBits(x);
    forall i: bv5
      ensures RingBit(x, i) <==> Among(i, w) && MemBit(m, Sum(Start(addr, offset), Wide(i as bv6)))
    {
      WindowBit(m, addr, offset, w, i);
    }
    assert RingBit(x, 0) <==> MemBit(m, Sum(Start(addr, offset), Wide((0 as bv5) as bv6)));
  }

  lemma SumZero(x: bv35)
    ensures Sum(x, Wide((0 as bv5) as bv6)) == x
  {}

  lemma WindowAt(m: Bytes, addr: bv32, offset: bv32, w: bv6, j: bv6)
    requires 1 <= w <= 32
    ensures InByte(Low(offset), w)
    ensures BitAt(FieldM(m, Base(addr, offset), Low(offset), w), j)
            <==> j < w && MemBit(m, Sum(Start(addr, offset), Wide(j)))
  {
    LowIs(offset);
    hide RingBit, FieldM, MemBit, Base, Low, Start, Sum, Wide;
    if j < 32 {
      WindowBit(m, addr, offset, w, j as bv5);
    }
  }

  /** BFFFO finds the first one of the window, and its width when there is none. */
  lemma FirstInWindow(m: Bytes, addr: bv32, offset: bv32, w: bv6)
    requires 1 <= w <= 32
    ensures InByte(Low(offset), w)
    ensures var k := FirstOne(FieldM(m, Base(addr, offset), Low(offset), w), w);
            && k <= w
            && (k < w ==> MemBit(m, Sum(Start(addr, offset), Wide(k))))
            && (forall j: bv6 :: j < k ==> !MemBit(m, Sum(Start(addr, offset), Wide(j))))
  {
    LowIs(offset);
    hide RingBit, FieldM, MemBit, Base, Low, Start, Sum, Wide, BitAt, ZeroFrom;
    var x := FieldM(m, Base(addr, offset), Low(offset), w);
    CountLZeroFirst(x, 0);
    ZeroWhole(x);
    var k := FirstOne(x, w);
    WindowAt(m, addr, offset, w, k);
    forall j: bv6 | j < k ensures !MemBit(m, Sum(Start(addr, offset), Wide(j))) {
      WindowAt(m, addr, offset, w, j);
    }
  }

  // ---- What BFINS leaves in memory ----

  lemma FieldPlace(base: bv32, o: bv6, w: bv6, i: bv5)
    requires InByte(o, w) && Among(i, w)
    ensures var n := Ahead(o, i);
            && Behind(Byte(base, ByteIndex(n)), base, Span(o, w))
            && BitNo(Offset(Byte(base, ByteIndex(n)), base), BitIndex(n)) == n
            && InSpan(o, w, n)
            && ByteIndex(n) < Span(o, w)
  {
    hide Dist, Byte;
    DistIs(Byte(base, ByteIndex(Ahead(o, i))), base, ByteIndex(Ahead(o, i)));
  }

  lemma ComingBit(v: bv32, o: bv6, w: bv6, i: bv5)
    requires InByte(o, w) && Among(i, w)
    ensures Coming(v, o, w, Ahead(o, i)) == RingBit(v, Plus(i, Gap(w)))
  {}

  lemma InsertedFieldBit(v: bv32, m: Bytes, m': Bytes, base: bv32, o: bv6, w: bv6, i: bv5)
    requires Updated(Insert(v), m, m', base, o, w) && Readable(m, base, Span(o, w))
    requires Among(i, w)
    ensures MemBit(m', BitAddr(base, Ahead(o, i))) == RingBit(v, Plus(i, Gap(w)))
  {
    assert InByte(o, w);
    hide RingBit, MemBit, Among, Ahead, Plus, Gap, Coming, BitAddr, Behind, Offset, Byte, ByteOf,
         BitOf, Span, InSpan, BitNo, Partly, ByteIndex, BitIndex;
    var n := Ahead(o, i);
    FieldPlace(base, o, w, i);
    BitAddrIs(base, n);
    assert Byte(base, ByteIndex(n)) in m;
    BitAfter(Insert(v), m, m', base, o, w, Span(o, w), BitAddr(base, n));
    ComingBit(v, o, w, i);
  }

  /** The field of memory is v, whatever its upper bits. */
  lemma InsertedField(v: bv32, m: Bytes, m': Bytes, base: bv32, o: bv6, w: bv6)
    requires Updated(Insert(v), m, m', base, o, w) && Readable(m, base, Span(o, w))
    ensures FieldM(m', base, o, w) == Aligned(v, w)
  {
    assert InByte(o, w);
    hide RingBit, FieldM, Aligned, MemBit, Among, Ahead, Plus, Gap, BitAddr, Span, Partly, Readable;
    forall i: bv5 ensures RingBit(FieldM(m', base, o, w), i) == RingBit(Aligned(v, w), i) {
      FieldMBit(m', base, o, w, i);
      AlignedBit(v, w, i);
      if Among(i, w) {
        InsertedFieldBit(v, m, m', base, o, w, i);
      }
    }
    SameBits(FieldM(m', base, o, w), Aligned(v, w));
  }

  /** BFEXTU after BFINS returns v modulo 2^w. */
  lemma InsertThenExtract(v: bv32, m: Bytes, m': Bytes, base: bv32, o: bv6, w: bv6)
    requires Updated(Insert(v), m, m', base, o, w) && Readable(m, base, Span(o, w))
    ensures Lowered(FieldM(m', base, o, w), w) == LowBits(v, w)
  {
    assert InByte(o, w);
    hide Partly, Span, FieldM, Lowered, Aligned, LowBits;
    InsertedField(v, m, m', base, o, w);
    LoweredAligned(v, w);
  }

  /** BFEXTS after BFINS returns the low w bits of v with the topmost of them repeated. */
  lemma InsertThenExtractSigned(v: bv32, m: Bytes, m': Bytes, base: bv32, o: bv6, w: bv6, i: bv5)
    requires Updated(Insert(v), m, m', base, o, w) && Readable(m, base, Span(o, w))
    ensures RingBit(SignLowered(FieldM(m', base, o, w), w), i) == RingBit(v, if i >= Gap(w) then i else Gap(w))
  {
    assert InByte(o, w);
    hide Partly, Span, FieldM, SignLowered, Aligned, RingBit, Gap;
    InsertedField(v, m, m', base, o, w);
    AlignedSigned(v, w, i);
  }

  // ---- What BFINS leaves outside its field ----

  /** The bits of v above the field that reach the first byte, in front of it. */
  function Leak(v: bv32, o: bv6, w: bv6): bv8
    requires InByte(o, w) && !Single(o, w)
  {
    Shifts(o, w, 0);
    ByteClear(Down(v, Above(o, w, 0)), FirstMask(o))
  }

  /** Whether BFINS keeps its window: within one byte, or with no bit leaking onto a zero. */
  predicate Keeps(v: bv32, b: bv8, o: bv6, w: bv6)
    requires InByte(o, w)
  {
    Single(o, w) || ByteClear(Leak(v, o, w), b) == 0
  }

  lemma ByteZero(b: bv8)
    ensures b == 0 <==> forall j: bv3 :: !ByteBit(b, j)
  {
    if b != 0 {
      assert ByteBit(b, 0) || ByteBit(b, 1) || ByteBit(b, 2) || ByteBit(b, 3)
          || ByteBit(b, 4) || ByteBit(b, 5) || ByteBit(b, 6) || ByteBit(b, 7);
    }
  }

  predicate Before(o: bv6, j: bv3) { j as bv6 < o }

  lemma LeakBit(v: bv32, b: bv8, o: bv6, w: bv6, j: bv3)
    requires InByte(o, w) && !Single(o, w)
    ensures ByteBit(ByteClear(Leak(v, o, w), b), j)
            <==> Before(o, j) && Coming(v, o, w, BitNo(0, j)) && !ByteBit(b, j)
  {
    hide ByteBit, Down, FirstMask, ByteClear, Coming, BitNo, Above;
    Shifts(o, w, 0);
    FirstNotLast(o, w);
    ByteClearBit(Leak(v, o, w), b, j);
    ByteClearBit(Down(v, Above(o, w, 0)), FirstMask(o), j);
    FirstMaskBit(o, j);
    DownComing(v, o, w, 0, j);
  }

  lemma FirstNotLast(o: bv6, w: bv6)
    requires InByte(o, w) && !Single(o, w)
    ensures Covered(o, w, 0) && !Last(o, w, 0)
  {}

  lemma BeforeField(o: bv6, w: bv6, k: bv6, j: bv3)
    requires Covered(o, w, k)
    ensures BitNo(k, j) < o <==> k == 0 && Before(o, j)
  {}

  /** Bit i, outside the window, survives unless it is a zero that a bit of v leaks onto. */
  lemma Survives(v: bv32, m: Bytes, m': Bytes, base: bv32, o: bv6, w: bv6, i: bv35)
    requires Updated(Insert(v), m, m', base, o, w) && ByteOf(i) in m
    requires !InWindow(i, BitAddr(base, o), w)
    ensures MemBit(m', i) == MemBit(m, i)
            || (ByteOf(i) == Byte(base, 0) && !Single(o, w)
                && ByteBit(ByteClear(Leak(v, o, w), m[ByteOf(i)]), BitOf(i)))
  {
    assert InByte(o, w);
    hide Behind, Offset, ByteBit, ByteOf, BitOf, BitNo, InSpan, Span, BitAddr, InWindow, Single, Leak, Before, Byte,
         Coming, Partly, Covered, ByteClear;
    var l := ByteOf(i);
    WindowIs(i, base, o, w);
    BitAfter(Insert(v), m, m', base, o, w, Span(o, w), i);
    if Behind(l, base, Span(o, w)) {
      OffsetCovered(l, base, o, w, Span(o, w));
      BeforeField(o, w, Offset(l, base), BitOf(i));
      if !Single(o, w) && Offset(l, base) == 0 {
        AtStart(l, base, Span(o, w));
        LeakBit(v, m[l], o, w, BitOf(i));
      }
    }
  }

  lemma AtStart(l: Loc, base: bv32, n: bv6)
    requires Behind(l, base, n) && Offset(l, base) == 0
    ensures l == Byte(base, 0)
  {
    hide Dist, Byte;
    DistIs(l, base, 0);
  }

  /** The leaking bit at j stands in front of the field and is changed. */
  lemma LeakChanges(v: bv32, m: Bytes, m': Bytes, base: bv32, o: bv6, w: bv6, j: bv3)
    requires Updated(Insert(v), m, m', base, o, w) && Byte(base, 0) in m && !Single(o, w)
    requires ByteBit(ByteClear(Leak(v, o, w), m[Byte(base, 0)]), j)
    ensures var i := BitAddr(base, j as bv6);
            ByteOf(i) == Byte(base, 0) && !InWindow(i, BitAddr(base, o), w) && MemBit(m', i) != MemBit(m, i)
  {
    assert InByte(o, w);
    hide Behind, Offset, ByteBit, ByteOf, BitOf, BitNo, InSpan, Span, BitAddr, InWindow, Single, Leak, Before, Byte,
         Coming, Partly, Covered, ByteClear;
    var i := BitAddr(base, j as bv6);
    InFirst(base, o, w, j);
    LeakBit(v, m[Byte(base, 0)], o, w, j);
    WindowIs(i, base, o, w);
    BitAfter(Insert(v), m, m', base, o, w, Span(o, w), i);
    BeforeField(o, w, 0, j);
  }

  lemma InFirst(base: bv32, o: bv6, w: bv6, j: bv3)
    requires InByte(o, w)
    ensures var i := BitAddr(base, j as bv6);
            && ByteOf(i) == Byte(base, 0) && BitOf(i) == j
            && Behind(Byte(base, 0), base, Span(o, w)) && Offset(Byte(base, 0), base) == 0
            && Covered(o, w, 0)
            && (Before(o, j) ==> !InSpan(o, w, BitNo(0, j)))
  {
    hide Dist, Byte, BitAddr, ByteOf, BitOf;
    BitAddrIs(base, j as bv6);
    DistIs(Byte(base, 0), base, 0);
  }

  /**
   BFINS keeps every bit outside its window if and only if the field lies in one byte or no
   one bit of v above the field meets a zero bit of the first byte in front of the field.
   */
  lemma InsertKeepsIff(v: bv32, m: Bytes, m': Bytes, addr: bv32, offset: bv32, w: bv6)
    requires Updated(Insert(v), m, m', Base(addr, offset), Low(offset), w) && Byte(Base(addr, offset), 0) in m
    ensures InByte(Low(offset), w)
    ensures Keeps(v, m[Byte(Base(addr, offset), 0)], Low(offset), w)
            <==> forall i: bv35 ::
                   ByteOf(i) in m && !InWindow(i, Start(addr, offset), w) ==> MemBit(m', i) == MemBit(m, i)
  {
    assert InByte(Low(offset), w);
    hide ByteBit, ByteOf, BitOf, BitAddr, InWindow, Single, Leak, Byte, Partly, ByteClear, Base, Low, Start, MemBit;
    var base, o := Base(addr, offset), Low(offset);
    var b := m[Byte(base, 0)];
    StartIs(addr, offset);
    if Keeps(v, b, o, w) {
      forall i: bv35 | ByteOf(i) in m && !InWindow(i, Start(addr, offset), w) ensures MemBit(m', i) == MemBit(m, i) {
        Survives(v, m, m', base, o, w, i);
        if !Single(o, w) {
          ByteZero(ByteClear(Leak(v, o, w), b));
        }
      }
    } else {
      ByteZero(ByteClear(Leak(v, o, w), b));
      var j: bv3 :| ByteBit(ByteClear(Leak(v, o, w), b), j);
      LeakChanges(v, m, m', base, o, w, j);
    }
  }

  /** v < 2^w. */
  predicate Fits(v: bv32, w: bv6)
    requires 1 <= w <= 32
  {
    v <= (0xFFFF_FFFF as bv32) >> (32 - w)
  }

  lemma FitsBit(v: bv32, o: bv6, w: bv6, j: bv3)
    requires InByte(o, w) && Fits(v, w) && Before(o, j)
    ensures !Coming(v, o, w, BitNo(0, j))
  {}

  /** A value that fits its field never leaks. */
  lemma FittingKeeps(v: bv32, b: bv8, o: bv6, w: bv6)
    requires InByte(o, w) && Fits(v, w)
    ensures Keeps(v, b, o, w)
  {
    hide ByteBit, Single, Leak, ByteClear, Fits, Before, BitNo, Coming;
    if !Single(o, w) {
      ByteZero(ByteClear(Leak(v, o, w), b));
      forall j: bv3 ensures !ByteBit(ByteClear(Leak(v, o, w), b), j) {
        LeakBit(v, b, o, w, j);
        if Before(o, j) {
          FitsBit(v, o, w, j);
        }
      }
    }
  }

  /** Bits 8 to 11 of 0xFFF, inserted into eight bits from bit 4 on, fall on the four bits before. */
  lemma LeakExample()
    ensures InByte(4, 8) && !Keeps(0xFFF, 0, 4, 8)
  {
    assert InByte(4, 8) && !Single(4, 8);
    assert Leak(0xFFF, 4, 8) == 0xF0;
  }
}
