/**
 Bit fields of a data register: the field wraps round the 32-bit ring.  Every method
 states what becomes of each bit of the ring.
 */
module BitFieldRegister {
  import opened BitStrings
  import opened CpuFlags
  import BitFacts

  /** The offset of a field on the ring: an int modulo 32. */
  function OnRing(offset: bv32): bv5 {
    (offset & 31) as bv5
  }

  /** The field, left-aligned: what BF_D returns. */
  function Field(v: bv32, o: bv5, w: bv6): bv32
    requires 1 <= w <= 32
  {
    And(RotL(v, o), Ones(w))
  }

  lemma FieldBit(v: bv32, o: bv5, w: bv6, i: bv5)
    requires 1 <= w <= 32
    ensures RingBit(Field(v, o, w), i) <==> Among(i, w) && RingBit(v, Plus(i, o))
  {
    hide RotL, Ones, RingBit, And, Among, Plus;
    AndBit(RotL(v, o), Ones(w), i);
    RotLBit(v, o, i);
    OnesBit(w, i);
  }

  // ---- Changing the bits of a field ----

  datatype Change = Chg | Clr | Set

  /** What a field operation makes of one bit. */
  predicate Changed(op: Change, bit: bool) {
    match op
    case Chg => !bit
    case Clr => false
    case Set => true
  }

  function Combine(op: Change, v: bv32, mask: bv32): bv32 {
    match op
    case Chg => Xor(v, mask)
    case Clr => Clear(v, mask)
    case Set => Or(v, mask)
  }

  lemma CombineBit(op: Change, v: bv32, mask: bv32, i: bv5)
    ensures RingBit(Combine(op, v, mask), i) == if RingBit(mask, i) then Changed(op, RingBit(v, i)) else RingBit(v, i)
  {
    hide RingBit, Xor, Clear, Or;
    XorBit(v, mask, i);
    ClearBit(v, mask, i);
    OrBit(v, mask, i);
  }

  // ---- Inserting ----

  /** v placed over the first w bits. */
  function Placed(x: bv32, w: bv6, v: bv32): bv32
    requires 1 <= w <= 32
  {
    Or(Clear(x, Ones(w)), Aligned(v, w))
  }

  lemma PlacedBit(x: bv32, w: bv6, v: bv32, j: bv5)
    requires 1 <= w <= 32
    ensures RingBit(Placed(x, w, v), j) == if Among(j, w) then RingBit(v, Plus(j, Gap(w))) else RingBit(x, j)
  {
    hide Ones, RingBit, Aligned, Or, Clear, Among, Plus, Gap;
    ClearBit(x, Ones(w), j);
    OnesBit(w, j);
    OrBit(Clear(x, Ones(w)), Aligned(v, w), j);
    AlignedBit(v, w, j);
  }

  function Inserted(v0: bv32, o: bv5, w: bv6, v: bv32): bv32
    requires 1 <= w <= 32
  {
    RotR(Placed(RotL(v0, o), w, v), o)
  }

  /** Bit j of the field is bit 32 - w + j of v; every other bit of the ring stays. */
  lemma InsertedBit(v0: bv32, o: bv5, w: bv6, v: bv32, i: bv5)
    requires 1 <= w <= 32
    ensures RingBit(Inserted(v0, o, w, v), i)
            == if InField(i, o, w) then RingBit(v, Plus(Minus(i, o), Gap(w))) else RingBit(v0, i)
  {
    hide RotL, RotR, Placed, RingBit, Among, Plus, Minus, Gap;
    PlusMinus(i, o);
    RotRBit(Placed(RotL(v0, o), w, v), o, i);
    PlacedBit(RotL(v0, o), w, v, Minus(i, o));
    RotLBit(v0, o, Minus(i, o));
  }

  /** The field of the result is the inserted value: an extraction right after. */
  lemma FieldOfInserted(v0: bv32, o: bv5, w: bv6, v: bv32)
    requires 1 <= w <= 32
    ensures Field(Inserted(v0, o, w, v), o, w) == Aligned(v, w)
  {
    hide RotL, RotR, Placed, Ones, Aligned, And;
    PlacedOnes(RotL(v0, o), w, v);
    TurnBack(Placed(RotL(v0, o), w, v), o);
  }

  lemma PlacedOnes(x: bv32, w: bv6, v: bv32)
    requires 1 <= w <= 32
    ensures And(Placed(x, w, v), Ones(w)) == Aligned(v, w)
  {
    BitFacts.Placed(x, v, w);
  }

  /** Lowering the aligned value gives v modulo 2^w. */
  lemma LoweredAligned(v: bv32, w: bv6)
    requires 1 <= w <= 32
    ensures Lowered(Aligned(v, w), w) == LowBits(v, w)
  {
    BitFacts.DownAgain(v, w);
  }

  // ---- Lowering ----

  /** x >> (32 - w) of a signed value. */
  function SignLowered(x: bv32, w: bv6): bv32
    requires 1 <= w <= 32
  {
    if Negative(x) then Invert(Lowered(Invert(x), w)) else Lowered(x, w)
  }

  lemma SignLoweredBit(x: bv32, w: bv6, i: bv5)
    requires 1 <= w <= 32
    ensures RingBit(SignLowered(x, w), i) == RingBit(x, if i >= Gap(w) then Minus(i, Gap(w)) else 0)
  {
    hide RingBit, Lowered, Negative, Minus, Gap, Invert;
    NegativeBit(x);
    LoweredBit(x, w, i);
    LoweredBit(Invert(x), w, i);
    NotBit(Lowered(Invert(x), w), i);
    NotBit(x, Minus(i, Gap(w)));
  }

  lemma NegativeBit(x: bv32)
    ensures Negative(x) <==> RingBit(x, 0)
  {}

  // ---- The field operations as values ----

  /** BFCHG, BFCLR and BFSET turn the mask of ones into place and combine it. */
  function ChangedField(op: Change, v: bv32, o: bv5, w: bv6): bv32
    requires 1 <= w <= 32
  {
    Combine(op, v, RotR(Ones(w), o))
  }

  /** Exactly the bits of the wrapped field are flipped, cleared or set. */
  lemma ChangedFieldBit(op: Change, v: bv32, o: bv5, w: bv6, i: bv5)
    requires 1 <= w <= 32
    ensures RingBit(ChangedField(op, v, o, w), i)
            == if InField(i, o, w) then Changed(op, RingBit(v, i)) else RingBit(v, i)
  {
    hide RingBit, RotR, Ones, Combine, InField;
    FieldMaskBit(o, w, i);
    CombineBit(op, v, RotR(Ones(w), o), i);
  }

  /** N and Z after a field operation: the first bit of the field, and no bit of it. */
  lemma FieldFlags(v: bv32, o: bv5, w: bv6)
    requires 1 <= w <= 32
    ensures Negative(Field(v, o, w)) == RingBit(v, o)
    ensures Field(v, o, w) == 0 <==> forall i: bv5 :: InField(i, o, w) ==> !RingBit(v, i)
  {
    hide Negative, RingBit, Field, Among, Plus, Minus;
    var x := Field(v, o, w);
    NegativeBit(x);
    FieldBit(v, o, w, 0);
    FromStart(o, w);
    ZeroBits(x);
    if x == 0 {
      forall i: bv5 | InField(i, o, w) ensures !RingBit(v, i) {
        FieldBit(v, o, w, Minus(i, o));
        PlusMinus(i, o);
      }
    } else {
      var i: bv5 :| RingBit(x, i);
      FieldBit(v, o, w, i);
      PlusMinus(i, o);
      assert InField(Plus(i, o), o, w);
    }
  }

  lemma FromStart(o: bv5, w: bv6)
    requires 1 <= w <= 32
    ensures Among(0, w) && Plus(0, o) == o
  {}

  /** The distance from the start of the field to its first one, or its width. */
  function FirstOne(x: bv32, w: bv6): bv6 {
    if x == 0 then w else CountLZero(x, 0)
  }

  /** The ring index of bit j of a field. */
  function Nth(o: bv5, j: bv6): bv5 {
    Plus((j & 31) as bv5, o)
  }

  lemma FieldAt(v: bv32, o: bv5, w: bv6, j: bv6)
    requires 1 <= w <= 32
    ensures BitAt(Field(v, o, w), j) <==> j < w && RingBit(v, Nth(o, j))
  {
    hide RingBit, Field, Plus;
    if j < 32 {
      FieldBit(v, o, w, j as bv5);
    }
  }

  /** BFFFO finds the first one of the field, and the width when there is none. */
  lemma FirstOneFound(v: bv32, o: bv5, w: bv6)
    requires 1 <= w <= 32
    ensures var k := FirstOne(Field(v, o, w), w);
            && k <= w
            && (k < w ==> RingBit(v, Nth(o, k)))
            && (forall j: bv6 :: j < k ==> !RingBit(v, Nth(o, j)))
  {
    hide RingBit, Field, Nth, BitAt, ZeroFrom;
    var x := Field(v, o, w);
    CountLZeroFirst(x, 0);
    ZeroWhole(x);
    var k := FirstOne(x, w);
    FieldAt(v, o, w, k);
    forall j: bv6 | j < k ensures !RingBit(v, Nth(o, j)) {
      FieldAt(v, o, w, j);
    }
  }

  lemma ZeroWhole(x: bv32)
    ensures ZeroFrom(x, 0) <==> x == 0
  {
    ZeroEnd(x);
  }

  /** Extracting what was inserted gives v modulo 2^w. */
  lemma InsertExtract(v0: bv32, o: bv5, w: bv6, v: bv32)
    requires 1 <= w <= 32
    ensures Lowered(Field(Inserted(v0, o, w, v), o, w), w) == LowBits(v, w)
  {
    hide Lowered, Field, Inserted, LowBits;
    FieldOfInserted(v0, o, w, v);
    LoweredAligned(v, w);
  }

  /** Lowering the aligned value with sign: its low w bits, the topmost of them repeated. */
  lemma AlignedSigned(v: bv32, w: bv6, i: bv5)
    requires 1 <= w <= 32
    ensures RingBit(SignLowered(Aligned(v, w), w), i) == RingBit(v, if i >= Gap(w) then i else Gap(w))
  {
    hide SignLowered, RingBit, Aligned, Among, Minus, Plus, Gap;
    SignLoweredBit(Aligned(v, w), w, i);
    var g := Gap(w);
    if i >= g {
      GapLeaves(w, i);
      AlignedBit(v, w, Minus(i, g));
      PlusMinus(i, g);
    } else {
      AlignedBit(v, w, 0);
      FromZero(w);
    }
  }

  /** Extracting with sign after inserting. */
  lemma InsertExtractSigned(v0: bv32, o: bv5, w: bv6, v: bv32, i: bv5)
    requires 1 <= w <= 32
    ensures RingBit(SignLowered(Field(Inserted(v0, o, w, v), o, w), w), i)
            == RingBit(v, if i >= Gap(w) then i else Gap(w))
  {
    hide SignLowered, Field, Inserted, RingBit, Aligned, Gap;
    FieldOfInserted(v0, o, w, v);
    AlignedSigned(v, w, i);
  }

  lemma GapLeaves(w: bv6, i: bv5)
    requires 1 <= w <= 32 && i >= Gap(w)
    ensures Among(Minus(i, Gap(w)), w)
  {}

  lemma FromZero(w: bv6)
    requires 1 <= w <= 32
    ensures Among(0, w) && Plus(0, Gap(w)) == Gap(w)
  {}

  // ---- The instructions ----

  /** N and Z as TEST_L(x) sets them, V and C cleared. */
  predicate Tested(cpu: Cpu, x: bv32)
    reads cpu
  {
    cpu.N == Negative(x) && cpu.Z == (x == 0) && !cpu.V && !cpu.C
  }

  /** BFTST: the field left-aligned; N and Z from it, V and C cleared. */
  method BfTst(cpu: Cpu, v: bv32, offset: bv32, w: bv6) returns (x: bv32)
    requires 1 <= w <= 32
    modifies cpu
    ensures x == Field(v, OnRing(offset), w)
    ensures Tested(cpu, x) && cpu.X == old(cpu.X)
  {
    hide RotL, Ones, And, Negative, OnRing;
    x := And(RotL(v, OnRing(offset)), Ones(w));
    cpu.V := false;
    cpu.C := false;
    cpu.TestL(x);
  }

  method BfChg(cpu: Cpu, v: bv32, offset: bv32, w: bv6) returns (r: bv32)
    requires 1 <= w <= 32
    modifies cpu
    ensures r == ChangedField(Chg, v, OnRing(offset), w)
    ensures Tested(cpu, Field(v, OnRing(offset), w)) && cpu.X == old(cpu.X)
  {
    hide RotR, Ones, Xor, Field, Negative, OnRing;
    var _ := BfTst(cpu, v, offset, w);
    var mask := RotR(Ones(w), OnRing(offset));
    r := Xor(v, mask);
  }

  method BfClr(cpu: Cpu, v: bv32, offset: bv32, w: bv6) returns (r: bv32)
    requires 1 <= w <= 32
    modifies cpu
    ensures r == ChangedField(Clr, v, OnRing(offset), w)
    ensures Tested(cpu, Field(v, OnRing(offset), w)) && cpu.X == old(cpu.X)
  {
    hide RotR, Ones, Clear, Field, Negative, OnRing;
    var _ := BfTst(cpu, v, offset, w);
    var mask := RotR(Ones(w), OnRing(offset));
    r := Clear(v, mask);
  }

  method BfSet(cpu: Cpu, v: bv32, offset: bv32, w: bv6) returns (r: bv32)
    requires 1 <= w <= 32
    modifies cpu
    ensures r == ChangedField(Set, v, OnRing(offset), w)
    ensures Tested(cpu, Field(v, OnRing(offset), w)) && cpu.X == old(cpu.X)
  {
    hide RotR, Ones, Or, Field, Negative, OnRing;
    var _ := BfTst(cpu, v, offset, w);
    var mask := RotR(Ones(w), OnRing(offset));
    r := Or(v, mask);
  }

  method BfExtU(cpu: Cpu, v: bv32, offset: bv32, w: bv6) returns (r: bv32)
    requires 1 <= w <= 32
    modifies cpu
    ensures r == Lowered(Field(v, OnRing(offset), w), w)
    ensures Tested(cpu, Field(v, OnRing(offset), w)) && cpu.X == old(cpu.X)
  {
    hide Lowered, Field, Negative, OnRing;
    var x := BfTst(cpu, v, offset, w);
    r := Lowered(x, w);
  }

  method BfExtS(cpu: Cpu, v: bv32, offset: bv32, w: bv6) returns (r: bv32)
    requires 1 <= w <= 32
    modifies cpu
    ensures r == SignLowered(Field(v, OnRing(offset), w), w)
    ensures Tested(cpu, Field(v, OnRing(offset), w)) && cpu.X == old(cpu.X)
  {
    hide SignLowered, Field, Negative, OnRing;
    var x := BfTst(cpu, v, offset, w);
    r := SignLowered(x, w);
  }

  method BfFfo(cpu: Cpu, v: bv32, offset: bv32, w: bv6) returns (r: bv32)
    requires 1 <= w <= 32
    modifies cpu
    ensures r == Moved(offset, FirstOne(Field(v, OnRing(offset), w), w))
    ensures Tested(cpu, Field(v, OnRing(offset), w)) && cpu.X == old(cpu.X)
  {
    hide Field, Negative, OnRing, Moved, CountLZero;
    var x := BfTst(cpu, v, offset, w);
    r := Moved(offset, if x != 0 then CountLZero(x, 0) else w);
  }

  /** offset + k, in the width of an int. */
  function Moved(offset: bv32, k: bv6): bv32 {
    Add(offset, Word(k))
  }

  /** BFINS: the flags come from the aligned value.  -1 >> (32 - w) masks nothing. */
  method BfIns(cpu: Cpu, v0: bv32, offset: bv32, w: bv6, v: bv32) returns (r: bv32)
    requires 1 <= w <= 32
    modifies cpu
    ensures r == Inserted(v0, OnRing(offset), w, v)
    ensures Tested(cpu, Aligned(v, w)) && cpu.X == old(cpu.X)
  {
    hide RotL, RotR, Ones, Or, And, Clear, Aligned, Negative, OnRing, SignLowered;
    cpu.TestL(Aligned(v, w));
    cpu.V := false;
    cpu.C := false;
    var mask := SignLowered(AllOnes(), w);
    NoMask(w, v);
    var u := And(v, mask);
    var x := RotL(v0, OnRing(offset));
    x := Clear(x, Ones(w));
    x := Or(x, Aligned(u, w));
    r := RotR(x, OnRing(offset));
  }

  function AllOnes(): bv32 { 0xFFFF_FFFF }

  lemma NoMask(w: bv6, v: bv32)
    requires 1 <= w <= 32
    ensures And(v, SignLowered(AllOnes(), w)) == v
  {}
}