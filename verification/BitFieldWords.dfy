/**
 The extension word of the bit field instructions: assembled in numbers from its fields, and taken
 apart again by the code.
 */
module BitFieldWords {
  import opened JitBitFields
  import NumberFacts

  /** An offset or a width: in a data register, or in the word itself. */
  datatype Operand = InRegister(n: bv16) | Immediate(n: bv16)

  /** dn names the register that is loaded, or inserted. */
  datatype Fields = Fields(dn: bv16, offset: Operand, width: Operand)

  predicate Fit(o: Operand) { if o.InRegister? then o.n < 8 else o.n < 32 }

  predicate AllFit(f: Fields) { f.dn < 8 && Fit(f.offset) && Fit(f.width) }

  function One(o: Operand): bv16 { if o.InRegister? then 1 else 0 }

  function Sum(d: bv16, inO: bv16, o: bv16, inW: bv16, w: bv16): bv16 {
    0x1000 * d + 0x800 * inO + 0x40 * o + 0x20 * inW + w
  }

  /** The word an assembler makes. */
  function Assembled(f: Fields): bv16 { Sum(f.dn, One(f.offset), f.offset.n, One(f.width), f.width.n) }

  lemma SumParts(d: bv16, inO: bv16, o: bv16, inW: bv16, w: bv16)
    requires d < 8 && inO <= 1 && o < 32 && inW <= 1 && w < 32
    ensures var e := Sum(d, inO, o, inW, w);
            && OffsetField(e) == o && WidthField(e) == w
            && (OffsetInReg(e) <==> inO == 1) && (WidthInReg(e) <==> inW == 1)
            && (e >> 12) & 7 == d
  {
    NumberFacts.ExtensionOffset(d, inO, o, inW, w);
    NumberFacts.ExtensionWidth(d, inO, o, inW, w);
    NumberFacts.ExtensionFlags(d, inO, o, inW, w);
    NumberFacts.ExtensionDest(d, inO, o, inW, w);
  }

  lemma OneSmall(o: Operand)
    requires Fit(o)
    ensures One(o) <= 1 && o.n < 32 && (One(o) == 1 <==> o.InRegister?)
  {}

  /** A register number in the three low bits. */
  lemma RegNumber(b: bv16)
    requires b < 8
    ensures RegNo(b) == b as nat
  {
    assert b & 7 == b;
  }

  lemma DestNumber(e: bv16, d: bv16)
    requires (e >> 12) & 7 == d
    ensures DestNo(e) == d as nat
  {}

  /** A width counts modulo 32, and none is 32. */
  function Width(v: bv32): bv32 { if v % 32 == 0 then 32 else v % 32 }

  lemma WidthNumber(v: bv32)
    ensures WidthOf(v) as bv32 == Width(v)
  {
    assert v & 31 == v % 32;
  }

  /** Every word so assembled, with every set of registers, is taken apart into its fields. */
  lemma FieldsBack(f: Fields, d: seq<bv32>)
    requires AllFit(f) && |d| == 8
    ensures var e := Assembled(f);
            && DestNo(e) == f.dn as nat
            && OffsetV(e, d) == (if f.offset.InRegister? then d[f.offset.n as nat] else f.offset.n as bv32)
            && WidthV(e, d) as bv32
               == Width(if f.width.InRegister? then d[f.width.n as nat] else f.width.n as bv32)
  {
    hide Sum, OffsetField, WidthField, OffsetInReg, WidthInReg, RegNo, One, WidthOf, Width, DestNo;
    OneSmall(f.offset);
    OneSmall(f.width);
    var e := Assembled(f);
    SumParts(f.dn, One(f.offset), f.offset.n, One(f.width), f.width.n);
    DestNumber(e, f.dn);
    if f.offset.InRegister? {
      RegNumber(f.offset.n);
    }
    if f.width.InRegister? {
      RegNumber(f.width.n);
    }
    WidthNumber(if WidthInReg(e) then d[RegNo(WidthField(e))] else Wide32(WidthField(e)));
  }

  /** Every word at all: bit 15, and the upper bits of a register's number, do not matter. */
  lemma WordFields(e: bv16, d: seq<bv32>)
    requires |d| == 8
    ensures DestNo(e) == (e / 0x1000 % 8) as nat
    ensures OffsetV(e, d) == if e / 0x800 % 2 == 1 then d[(e / 0x40 % 8) as nat] else (e / 0x40 % 32) as bv32
    ensures WidthV(e, d) as bv32
            == Width(if e / 0x20 % 2 == 1 then d[(e % 8) as nat] else (e % 32) as bv32)
  {
    DestDigits(e);
    OffsetDigits(e);
    WidthDigits(e);
    hide OffsetField, WidthField, OffsetInReg, WidthInReg, RegNo, WidthOf, Width, DestNo;
    WidthNumber(if WidthInReg(e) then d[RegNo(WidthField(e))] else Wide32(WidthField(e)));
  }

  lemma DestDigits(e: bv16)
    ensures DestNo(e) == (e / 0x1000 % 8) as nat
  {
    assert (e >> 12) & 7 == e / 0x1000 % 8;
  }

  lemma OffsetDigits(e: bv16)
    ensures OffsetInReg(e) <==> e / 0x800 % 2 == 1
    ensures OffsetField(e) == e / 0x40 % 32
    ensures RegNo(OffsetField(e)) == (e / 0x40 % 8) as nat
  {
    assert ((e >> 6) & 0x1F) & 7 == e / 0x40 % 8;
  }

  lemma WidthDigits(e: bv16)
    ensures WidthInReg(e) <==> e / 0x20 % 2 == 1
    ensures WidthField(e) == e % 32
    ensures RegNo(WidthField(e)) == (e % 8) as nat
  {
    assert (e & 0x1F) & 7 == e % 8;
  }
}
