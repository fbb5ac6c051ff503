/**
 The bytes a bit field in memory covers.  Bit n of the field's bytes is counted from the
 left of the first of them: a field of w bits with offset o < 8 is the bits o .. o + w - 1
 of one to five bytes.  Every expression of the five hand-unrolled branches is given its
 meaning bit by bit.
 */
module BitFieldBytes {
  import opened BitStrings
  import opened BitFieldRegister

  predicate InByte(o: bv6, w: bv6) { o < 8 && 1 <= w <= 32 }

  /** width + offset. */
  function Reach(o: bv6, w: bv6): bv6 { o + w }

  /** How many bytes the field covers. */
  function Span(o: bv6, w: bv6): bv6 { (o + w + 7) >> 3 }

  /** Bit j of a byte, from the left. */
  predicate ByteBit(b: bv8, j: bv3) { (b >> (7 - j)) & 1 == 1 }

  /** Bit q of a word, from the right. */
  predicate ValueBit(v: bv32, q: bv6) { q < 32 && (v >> q) & 1 == 1 }

  /** The number of bit j of byte k. */
  function BitNo(k: bv6, j: bv3): bv6 { (k << 3) + (j as bv6) }

  // ---- Masks ----

  /** The mask of a field inside one byte: static_cast<uint8_t>(-1 << (8 - width)) >> offset. */
  function OneMask(o: bv6, w: bv6): bv8
    requires InByte(o, w) && Reach(o, w) <= 8
  {
    ((0xFF as bv8) << (8 - w)) >> o
  }

  /** The mask of the first byte of several. */
  function FirstMask(o: bv6): bv8
    requires o < 8
  {
    ((0xFF as bv8) << o) >> o
  }

  /** The same mask inverted as ~mask >> offset, an int shifted with its sign. */
  function NotFirstMask(o: bv6): bv8
    requires o < 8
  {
    var mask := ((0xFF as bv8) << o) as bv16;
    (((!mask) >> o) & 0xFF) as bv8
  }

  /** The mask of the last byte of several: -1 << r, with r bits to spare. */
  function LastMask(r: bv6): bv8
    requires r < 8
  {
    (0xFF as bv8) << r
  }

  lemma OneMaskBit(o: bv6, w: bv6, j: bv3)
    requires InByte(o, w) && Reach(o, w) <= 8
    ensures ByteBit(OneMask(o, w), j) <==> o <= j as bv6 < o + w
  {}

  lemma FirstMaskBit(o: bv6, j: bv3)
    requires o < 8
    ensures ByteBit(FirstMask(o), j) <==> o <= j as bv6
  {}

  lemma NotFirstMaskIs(o: bv6)
    requires o < 8
    ensures NotFirstMask(o) == !FirstMask(o)
  {}

  lemma LastMaskBit(r: bv6, j: bv3)
    requires r < 8
    ensures ByteBit(LastMask(r), j) <==> (j as bv6) + r < 8
  {}

  // ---- Parts of the inserted value ----

  /** static_cast<uint8_t>(v >> s). */
  function Down(v: bv32, s: bv6): bv8
    requires s < 32
  {
    ((v >> s) & 0xFF) as bv8
  }

  /** static_cast<uint8_t>(v << s). */
  function Up(v: bv32, s: bv6): bv8
    requires s < 8
  {
    ((v << s) & 0xFF) as bv8
  }

  lemma DownBit(v: bv32, s: bv6, j: bv3)
    requires s < 32
    ensures ByteBit(Down(v, s), j) <==> ValueBit(v, s + 7 - (j as bv6))
  {}

  lemma UpBit(v: bv32, s: bv6, j: bv3)
    requires s < 8
    ensures ByteBit(Up(v, s), j) <==> (j as bv6) + s < 8 && ValueBit(v, 7 - s - (j as bv6))
  {}

  // ---- Bit-wise operators on bytes ----

  function ByteXor(b: bv8, mask: bv8): bv8 { b ^ mask }

  function ByteOr(b: bv8, mask: bv8): bv8 { b | mask }

  function ByteAnd(b: bv8, mask: bv8): bv8 { b & mask }

  function ByteClear(b: bv8, mask: bv8): bv8 { b & !mask }

  lemma ByteXorBit(b: bv8, mask: bv8, j: bv3)
    ensures ByteBit(ByteXor(b, mask), j) == (ByteBit(b, j) != ByteBit(mask, j))
  {}

  lemma ByteOrBit(b: bv8, mask: bv8, j: bv3)
    ensures ByteBit(ByteOr(b, mask), j) == (ByteBit(b, j) || ByteBit(mask, j))
  {}

  lemma ByteAndBit(b: bv8, mask: bv8, j: bv3)
    ensures ByteBit(ByteAnd(b, mask), j) == (ByteBit(b, j) && ByteBit(mask, j))
  {}

  lemma ByteClearBit(b: bv8, mask: bv8, j: bv3)
    ensures ByteBit(ByteClear(b, mask), j) == (ByteBit(b, j) && !ByteBit(mask, j))
  {}

  lemma ByteOperators(b: bv8, mask: bv8, j: bv3)
    ensures ByteBit(ByteXor(b, mask), j) == (ByteBit(b, j) != ByteBit(mask, j))
    ensures ByteBit(ByteOr(b, mask), j) == (ByteBit(b, j) || ByteBit(mask, j))
    ensures ByteBit(ByteAnd(b, mask), j) == (ByteBit(b, j) && ByteBit(mask, j))
    ensures ByteBit(ByteClear(b, mask), j) == (ByteBit(b, j) && !ByteBit(mask, j))
  {
    hide ByteXor, ByteOr, ByteAnd, ByteClear, ByteBit;
    ByteXorBit(b, mask, j);
    ByteOrBit(b, mask, j);
    ByteAndBit(b, mask, j);
    ByteClearBit(b, mask, j);
  }

  function Full(): bv8 { 0xFF }

  lemma FullBit(j: bv3)
    ensures ByteBit(Full(), j)
  {}

  // ---- What an operation makes of one byte ----

  /** BFCHG, BFCLR and BFSET alter the field; BFINS writes a value over it. */
  datatype Edit = Alter(op: Change) | Insert(v: bv32)

  predicate Last(o: bv6, w: bv6, k: bv6) { k + 1 == Span(o, w) }

  /** The bits of the last byte beyond the field: 8, 16, 24, 32 or 40 minus ln. */
  function Spare(o: bv6, w: bv6): bv6 { (Span(o, w) << 3) - Reach(o, w) }

  /** How far byte k of the value lies up: ln minus 8, 16, 24 or 32. */
  function Above(o: bv6, w: bv6, k: bv6): bv6 { Reach(o, w) - (k << 3) - 8 }

  predicate Covered(o: bv6, w: bv6, k: bv6) { InByte(o, w) && k < Span(o, w) }

  predicate Single(o: bv6, w: bv6) { Reach(o, w) <= 8 }

  lemma Shifts(o: bv6, w: bv6, k: bv6)
    requires Covered(o, w, k)
    ensures Spare(o, w) < 8 && k < 5 && Span(o, w) <= 5
    ensures !Last(o, w, k) ==> Above(o, w, k) < 32
    ensures Single(o, w) <==> Span(o, w) == 1
  {}

  function ByteMask(o: bv6, w: bv6, k: bv6): bv8
    requires Covered(o, w, k)
  {
    Shifts(o, w, k);
    if Single(o, w) then OneMask(o, w)
    else if k == 0 then FirstMask(o)
    else if Last(o, w, k) then LastMask(Spare(o, w))
    else Full()
  }

  /** Is bit n one of the field? */
  predicate InSpan(o: bv6, w: bv6, n: bv6) { o <= n < o + w }

  lemma ByteMaskBit(o: bv6, w: bv6, k: bv6, j: bv3)
    requires Covered(o, w, k)
    ensures ByteBit(ByteMask(o, w, k), j) <==> InSpan(o, w, BitNo(k, j))
  {
    hide ByteBit, OneMask, FirstMask, LastMask, Full;
    Shifts(o, w, k);
    FullBit(j);
    FirstMaskBit(o, j);
    LastMaskBit(Spare(o, w), j);
    if Single(o, w) {
      OneMaskBit(o, w, j);
    }
  }

  function AlterByte(op: Change, b: bv8, mask: bv8): bv8 {
    match op
    case Chg => ByteXor(b, mask)
    case Clr => ByteClear(b, mask)
    case Set => ByteOr(b, mask)
  }

  lemma AlterByteBit(op: Change, b: bv8, mask: bv8, j: bv3)
    ensures ByteBit(AlterByte(op, b, mask), j) == if ByteBit(mask, j) then Changed(op, ByteBit(b, j)) else ByteBit(b, j)
  {
    hide ByteBit, ByteXor, ByteClear, ByteOr;
    ByteOperators(b, mask, j);
  }

  /** Byte k of the field after BFINS; in the first of several bytes v is not masked. */
  function InsertByte(v: bv32, o: bv6, w: bv6, k: bv6, b: bv8): bv8
    requires Covered(o, w, k)
  {
    Shifts(o, w, k);
    if Single(o, w) then
      ByteOr(ByteClear(b, OneMask(o, w)), ByteAnd(Up(v, Spare(o, w)), OneMask(o, w)))
    else if k == 0 then
      ByteOr(ByteClear(b, FirstMask(o)), Down(v, Above(o, w, 0)))
    else if Last(o, w, k) then
      ByteOr(ByteClear(b, LastMask(Spare(o, w))), Up(v, Spare(o, w)))
    else
      Down(v, Above(o, w, k))
  }

  function EditByte(e: Edit, o: bv6, w: bv6, k: bv6, b: bv8): bv8
    requires Covered(o, w, k)
  {
    match e
    case Alter(op) => AlterByte(op, b, ByteMask(o, w, k))
    case Insert(v) => InsertByte(v, o, w, k, b)
  }

  // ---- The same, one bit at a time ----

  /** The bit of v that stands at bit n: the lowest is at the end of the field. */
  predicate Coming(v: bv32, o: bv6, w: bv6, n: bv6) { ValueBit(v, o + w - 1 - n) }

  /**
   What an operation makes of bit n.  Bits of v above the field reach the bits before it
   whenever the field is not within one byte.
   */
  predicate EditBit(e: Edit, o: bv6, w: bv6, n: bv6, bit: bool) {
    match e
    case Alter(op) => if InSpan(o, w, n) then Changed(op, bit) else bit
    case Insert(v) =>
      if InSpan(o, w, n) then Coming(v, o, w, n)
      else bit || (n < o && !Single(o, w) && Coming(v, o, w, n))
  }

  lemma UpComing(v: bv32, o: bv6, w: bv6, k: bv6, j: bv3)
    requires Covered(o, w, k) && Last(o, w, k)
    ensures Spare(o, w) < 8
    ensures ByteBit(Up(v, Spare(o, w)), j) <==> BitNo(k, j) < Reach(o, w) && Coming(v, o, w, BitNo(k, j))
  {
    hide ByteBit, Up, ValueBit;
    Shifts(o, w, k);
    UpBit(v, Spare(o, w), j);
    UpIndex(o, w, k, j);
  }

  lemma UpIndex(o: bv6, w: bv6, k: bv6, j: bv3)
    requires Covered(o, w, k) && Last(o, w, k)
    ensures (j as bv6) + Spare(o, w) < 8 <==> BitNo(k, j) < Reach(o, w)
    ensures 7 - Spare(o, w) - (j as bv6) == o + w - 1 - BitNo(k, j)
  {}

  lemma DownComing(v: bv32, o: bv6, w: bv6, k: bv6, j: bv3)
    requires Covered(o, w, k) && !Last(o, w, k)
    ensures Above(o, w, k) < 32
    ensures ByteBit(Down(v, Above(o, w, k)), j) <==> Coming(v, o, w, BitNo(k, j))
  {
    hide ByteBit, Down, ValueBit;
    Shifts(o, w, k);
    DownBit(v, Above(o, w, k), j);
    DownIndex(o, w, k, j);
  }

  lemma DownIndex(o: bv6, w: bv6, k: bv6, j: bv3)
    requires Covered(o, w, k) && !Last(o, w, k)
    ensures Above(o, w, k) + 7 - (j as bv6) == o + w - 1 - BitNo(k, j)
  {}

  /** Where bit j of byte k lies, by the kind of the byte. */
  lemma Places(o: bv6, w: bv6, k: bv6, j: bv3)
    requires Covered(o, w, k)
    ensures var n, i := BitNo(k, j), j as bv6;
            && (Single(o, w) ==> Last(o, w, k))
            && (Single(o, w) ==> (o <= i < o + w <==> InSpan(o, w, n)))
            && (InSpan(o, w, n) ==> n < Reach(o, w))
            && (!Single(o, w) && k == 0 ==> !Last(o, w, k) && n == i && n < Reach(o, w))
            && (!(n < o) && n < Reach(o, w) ==> InSpan(o, w, n))
            && (InSpan(o, w, n) ==> !(n < o))
            && (k != 0 ==> !(n < o))
            && (k == 0 ==> (o <= i <==> !(n < o)))
            && (Last(o, w, k) ==> (i + Spare(o, w) < 8 <==> n < Reach(o, w)))
            && (!Last(o, w, k) ==> n < Reach(o, w))
  {}

  /** Each byte of each branch does what is said bit by bit. */
  lemma InsertByteBit(v: bv32, o: bv6, w: bv6, k: bv6, b: bv8, j: bv3)
    requires Covered(o, w, k)
    ensures ByteBit(InsertByte(v, o, w, k, b), j) == EditBit(Insert(v), o, w, BitNo(k, j), ByteBit(b, j))
  {
    hide ByteBit, Up, Down, ByteOr, ByteAnd, ByteClear, OneMask, FirstMask, LastMask, Spare, Above, Coming,
         Last, InSpan, BitNo, Reach;
    Shifts(o, w, k);
    Places(o, w, k, j);
    if Single(o, w) {
      var mask, up := OneMask(o, w), Up(v, Spare(o, w));
      OneMaskBit(o, w, j);
      UpComing(v, o, w, k, j);
      ByteOperators(b, mask, j);
      ByteOperators(up, mask, j);
      ByteOperators(ByteClear(b, mask), ByteAnd(up, mask), j);
    } else if k == 0 {
      var mask, down := FirstMask(o), Down(v, Above(o, w, 0));
      FirstMaskBit(o, j);
      DownComing(v, o, w, k, j);
      ByteOperators(b, mask, j);
      ByteOperators(ByteClear(b, mask), down, j);
    } else if Last(o, w, k) {
      var mask, up := LastMask(Spare(o, w)), Up(v, Spare(o, w));
      LastMaskBit(Spare(o, w), j);
      UpComing(v, o, w, k, j);
      ByteOperators(b, mask, j);
      ByteOperators(ByteClear(b, mask), up, j);
    } else {
      DownComing(v, o, w, k, j);
    }
  }

  lemma EditByteBit(e: Edit, o: bv6, w: bv6, k: bv6, b: bv8, j: bv3)
    requires Covered(o, w, k)
    ensures ByteBit(EditByte(e, o, w, k, b), j) == EditBit(e, o, w, BitNo(k, j), ByteBit(b, j))
  {
    hide ByteBit, ByteMask, AlterByte, InsertByte, InSpan, BitNo, Coming;
    match e
    case Alter(op) =>
      ByteMaskBit(o, w, k, j);
      AlterByteBit(op, b, ByteMask(o, w, k), j);
    case Insert(v) =>
      InsertByteBit(v, o, w, k, b, j);
  }

  // ---- Reading a field ----

  /** Byte k of the field brought to its place: ReadB(addr + k) << (24 - 8k + offset). */
  function Term(b: bv8, o: bv6, k: bv6): bv32
    requires o < 8 && k < 5
  {
    if k == 0 then (b as bv32) << (24 + o)
    else if k == 1 then (b as bv32) << (16 + o)
    else if k == 2 then (b as bv32) << (8 + o)
    else if k == 3 then (b as bv32) << o
    else (b as bv32) >> (8 - o)
  }

  function Ahead(o: bv6, i: bv5): bv6 { o + (i as bv6) }

  /** Bit i of the field lies in byte (o + i) / 8. */
  function ByteIndex(n: bv6): bv6 { n >> 3 }

  function BitIndex(n: bv6): bv3 { (n & 7) as bv3 }

  lemma TermBit(b: bv8, o: bv6, k: bv6, i: bv5)
    requires o < 8 && k < 5
    ensures RingBit(Term(b, o, k), i) <==> ByteIndex(Ahead(o, i)) == k && ByteBit(b, BitIndex(Ahead(o, i)))
  {}
}
