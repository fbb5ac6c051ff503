/**
 Memory as one string of bits: bit 8a + j is bit j, from the left, of the byte at address
 a.  Addresses wrap at 2^32 and bit numbers at 2^35, and a bit field of w bits at (addr,
 offset) is the window of bits 8 * addr + offset .. 8 * addr + offset + w - 1.  The lemmas
 find the window in the bytes from addr + (offset >> 3) on, for any signed offset.
 */
module BitAddresses {
  import opened BitFieldBytes
  import opened Addresses
  import opened ByteBus
  import BitFacts

  /** The sign bits of offset >> 3. */
  function Sign3(offset: bv32): bv32 { if offset >= 0x8000_0000 then 0xE000_0000 else 0 }

  /** offset >> 3 of a signed offset. */
  function Eighth(offset: bv32): bv32 { (offset >> 3) | Sign3(offset) }

  /** addr += offset >> 3. */
  function Base(addr: bv32, offset: bv32): bv32 { Along(addr, Eighth(offset)) }

  /** offset &= 7. */
  function Low(offset: bv32): bv6 { (offset & 7) as bv6 }

  /** A byte address as a bit number. */
  function Bits(addr: bv32): bv35 { (addr as bv35) << 3 }

  /** The sign bits of an offset widened to 35 bits. */
  function Sign35(offset: bv32): bv35 { if offset >= 0x8000_0000 then 0x7_0000_0000 else 0 }

  /** A signed offset as a number of bits. */
  function Signed(offset: bv32): bv35 { Joined(offset, Sign35(offset)) }

  function Joined(x: bv32, u: bv35): bv35 { (x as bv35) | u }

  /** The sum of bit numbers, modulo 2^35. */
  function Sum(x: bv35, y: bv35): bv35 { x + y }

  function Wide(n: bv6): bv35 { n as bv35 }

  /** The number of the first bit of the field. */
  function Start(addr: bv32, offset: bv32): bv35 { Sum(Bits(addr), Signed(offset)) }

  /** The number of bit n from the byte at base on. */
  function BitAddr(base: bv32, n: bv6): bv35 { Sum(Bits(base), Wide(n)) }

  function Byte(base: bv32, k: bv6): Loc { At(Along(base, k as bv32)) }

  function ByteOf(i: bv35): Loc { At((i >> 3) as bv32) }

  function BitOf(i: bv35): bv3 { (i & 7) as bv3 }

  predicate InWindow(i: bv35, start: bv35, w: bv6) { i - start < w as bv35 }

  /** How far address x lies past address y. */
  function Past(x: bv32, y: bv32): bv32 { x - y }

  function Dist(l: Loc, base: bv32): bv32 { Past(l.bits, base) }

  predicate Under(d: bv32, n: bv6) { d < n as bv32 }

  /** Is l one of the n bytes from base on? */
  predicate Behind(l: Loc, base: bv32, n: bv6) { Under(Dist(l, base), n) }

  function Offset(l: Loc, base: bv32): bv6 { (Dist(l, base) & 63) as bv6 }

  lemma BitsSum(x: bv32, y: bv32)
    ensures Bits(Along(x, y)) == Sum(Bits(x), Bits(y))
  {
    BitFacts.ShiftSum(x, y);
    BitsInline(Along(x, y));
    BitsInline(x);
    BitsInline(y);
    AlongInline(x, y);
    SumIs(Bits(x), Bits(y));
    hide Along, Sum, Bits;
  }

  lemma BaseBits(addr: bv32, offset: bv32)
    ensures Bits(Base(addr, offset)) == Sum(Bits(addr), Bits(Eighth(offset)))
  {
    hide Eighth, Bits, Sum, Along;
    BitsSum(addr, Eighth(offset));
  }

  lemma SumIs(x: bv35, y: bv35)
    ensures Sum(x, y) == x + y
  {}

  predicate Signs(f: bv32, t: bv32, u: bv35) {
    (f >= 0x8000_0000 && t == 0xE000_0000 && u == 0x7_0000_0000) || (f < 0x8000_0000 && t == 0 && u == 0)
  }

  lemma SplitSigned(f: bv32, t: bv32, u: bv35)
    requires Signs(f, t, u)
    ensures Sum((((f >> 3) | t) as bv35) << 3, (f & 7) as bv35) == Joined(f, u)
  {
    hide Sum;
    SumIs((((f >> 3) | t) as bv35) << 3, (f & 7) as bv35);
    BitFacts.SplitOffset(f, t, u);
  }

  lemma BitsInline(x: bv32)
    ensures Bits(x) == (x as bv35) << 3
  {}

  lemma EighthInline(f: bv32)
    ensures Bits(Eighth(f)) == (((f >> 3) | Sign3(f)) as bv35) << 3
  {
    BitsInline(Eighth(f));
    assert Eighth(f) == (f >> 3) | Sign3(f);
    hide Bits, Sign3, Eighth;
  }

  lemma SignsAre(f: bv32)
    ensures Signs(f, Sign3(f), Sign35(f))
  {}

  lemma LowInline(f: bv32)
    ensures Wide(Low(f)) == (f & 7) as bv35
  {}

  lemma SignedInline(f: bv32)
    ensures Signed(f) == Sum((((f >> 3) | Sign3(f)) as bv35) << 3, (f & 7) as bv35)
  {
    hide Sum, Sign3, Sign35, Signs, Joined;
    SignsAre(f);
    SplitSigned(f, Sign3(f), Sign35(f));
  }

  lemma SignedParts(f: bv32)
    ensures Signed(f) == Sum(Bits(Eighth(f)), Wide(Low(f)))
  {
    hide Sum, Bits, Eighth, Wide, Low, Sign3, Signed;
    SignedInline(f);
    EighthInline(f);
    LowInline(f);
  }

  lemma Regroup(x: bv35, y: bv35, z: bv35)
    ensures Sum(x + y, z) == Sum(x, y + z)
  {}

  lemma SumSum(x: bv35, y: bv35, z: bv35)
    ensures Sum(Sum(x, y), z) == Sum(x, Sum(y, z))
  {
    hide Sum;
    SumIs(x, y);
    SumIs(y, z);
    Regroup(x, y, z);
  }

  /** The field starts at bit offset & 7 of the byte at addr + (offset >> 3). */
  lemma StartIs(addr: bv32, offset: bv32)
    ensures Start(addr, offset) == BitAddr(Base(addr, offset), Low(offset))
  {
    hide Bits, Eighth, Base, Low, Signed, Sum, Wide;
    BaseBits(addr, offset);
    SignedParts(offset);
    SumSum(Bits(addr), Bits(Eighth(offset)), Wide(Low(offset)));
  }

  lemma LowIs(offset: bv32)
    ensures Low(offset) < 8
  {}

  lemma WindowInline(i: bv35, base: bv32, o: bv6, w: bv6)
    requires InByte(o, w)
    ensures InWindow(i, ((base as bv35) << 3) + (o as bv35), w)
            <==> ((i >> 3) as bv32) - base < ((o + w + 7) >> 3) as bv32
                 && o <= (((((i >> 3) as bv32) - base) & 63) as bv6 << 3) + ((i & 7) as bv6) < o + w
  {
    BitFacts.Window(i, base, o, w);
  }

  lemma BitAddrInline(base: bv32, n: bv6)
    ensures BitAddr(base, n) == ((base as bv35) << 3) + (n as bv35)
  {}

  lemma PastInline(x: bv32, y: bv32)
    ensures Past(x, y) == x - y
  {}

  lemma UnderInline(d: bv32, n: bv6)
    ensures Under(d, n) <==> d < n as bv32
  {}

  lemma DistInline(i: bv35, base: bv32)
    ensures Dist(ByteOf(i), base) == ((i >> 3) as bv32) - base
  {
    hide Past;
    PastInline((i >> 3) as bv32, base);
  }

  lemma NearInline(i: bv35, base: bv32, n: bv6)
    ensures Behind(ByteOf(i), base, n) <==> ((i >> 3) as bv32) - base < n as bv32
  {
    hide Dist, ByteOf, Under;
    DistInline(i, base);
    UnderInline(((i >> 3) as bv32) - base, n);
  }

  lemma PlaceInline(i: bv35, base: bv32)
    ensures BitNo(Offset(ByteOf(i), base), BitOf(i))
            == (((((i >> 3) as bv32) - base) & 63) as bv6 << 3) + ((i & 7) as bv6)
  {}

  /** Bit i is in the window just when it is a bit of the field in one of its bytes. */
  lemma WindowIs(i: bv35, base: bv32, o: bv6, w: bv6)
    requires InByte(o, w)
    ensures InWindow(i, BitAddr(base, o), w)
            <==> Behind(ByteOf(i), base, Span(o, w)) && InSpan(o, w, BitNo(Offset(ByteOf(i), base), BitOf(i)))
  {
    hide InWindow, BitAddr, Behind, ByteOf, BitOf, BitNo, Offset;
    WindowInline(i, base, o, w);
    BitAddrInline(base, o);
    NearInline(i, base, Span(o, w));
    PlaceInline(i, base);
  }

  lemma ByteOfInline(base: bv32, n: bv6)
    ensures ByteOf(((base as bv35) << 3) + (n as bv35)) == At(base + ((n >> 3) as bv32))
    ensures BitOf(((base as bv35) << 3) + (n as bv35)) == (n & 7) as bv3
  {}

  lemma ByteShifted(base: bv32, n: bv6)
    ensures ByteOf(BitAddr(base, n)) == Byte(base, n >> 3)
    ensures BitOf(BitAddr(base, n)) == (n & 7) as bv3
  {
    hide ByteOf, BitOf, BitAddr;
    ByteOfInline(base, n);
    BitAddrInline(base, n);
  }

  lemma IndexInline(n: bv6)
    ensures n >> 3 == ByteIndex(n) && (n & 7) as bv3 == BitIndex(n)
  {}

  lemma BitAddrIs(base: bv32, n: bv6)
    ensures ByteOf(BitAddr(base, n)) == Byte(base, ByteIndex(n))
    ensures BitOf(BitAddr(base, n)) == BitIndex(n)
  {
    hide ByteOf, BitOf, BitAddr, Byte, ByteIndex, BitIndex;
    ByteShifted(base, n);
    IndexInline(n);
  }

  lemma PastSum(x: bv32, n: bv32)
    ensures Past(x + n, x) == n
  {}

  lemma SumPast(x: bv32, y: bv32)
    ensures Along(y, x - y) == x
  {}

  lemma PastAlong(x: bv32, y: bv32, n: bv32)
    ensures x == Along(y, n) <==> Past(x, y) == n
  {
    hide Past, Along;
    AlongInline(y, n);
    PastSum(y, n);
    PastInline(x, y);
    SumPast(x, y);
  }

  lemma DistIs(l: Loc, base: bv32, k: bv6)
    ensures l == Byte(base, k) <==> Dist(l, base) == k as bv32
  {
    hide Past, Along;
    PastAlong(l.bits, base, k as bv32);
  }

  lemma NextByte(l: Loc, base: bv32, n: bv6)
    requires n < 5
    ensures Behind(l, base, n + 1) <==> Behind(l, base, n) || l == Byte(base, n)
    ensures !Behind(Byte(base, n), base, n)
    ensures Offset(Byte(base, n), base) == n
  {
    hide Dist, Byte;
    DistIs(l, base, n);
    DistIs(Byte(base, n), base, n);
    BitFacts.OneMore(Dist(l, base), n);
  }

  lemma WideSum(o: bv6, i: bv6)
    requires o < 8 && i < 32
    ensures Sum(Wide(o), Wide(i)) == Wide(o + i)
  {}

  /** i bits past bit o of the byte at base. */
  lemma Further(base: bv32, o: bv6, i: bv6)
    requires o < 8 && i < 32
    ensures Sum(BitAddr(base, o), Wide(i)) == BitAddr(base, o + i)
  {
    hide Bits, Sum, Wide;
    SumSum(Bits(base), Wide(o), Wide(i));
    WideSum(o, i);
  }
}
