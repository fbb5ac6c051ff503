/**
 Masks, shifts and ors of machine words as quotients, remainders and sums.  Spelled out, one fact a
 lemma, so that the solver has nothing else to look at.
 */
module NumberFacts {
  // ---- Indices and tables ----

  lemma RootQuotient(a: bv32)
    ensures ((a >> 12) >> 13) & 0x7f == a / 0x200_0000
  {}

  lemma RootSmall(a: bv32)
    ensures a / 0x200_0000 <= 0x7f
  {}

  lemma PointerQuotient(a: bv32)
    ensures ((a >> 12) >> 6) & 0x7f == a / 0x4_0000 % 128
  {}

  lemma PointerSmall(a: bv32)
    ensures a / 0x4_0000 % 128 <= 0x7f
  {}

  lemma SmallQuotient(a: bv32)
    ensures (a >> 12) & 0x3f == a / 0x1000 % 64
  {}

  lemma SmallSmall(a: bv32)
    ensures a / 0x1000 % 64 <= 0x3f
  {}

  lemma LargeQuotient(a: bv32)
    ensures ((a >> 12) >> 1) & 0x1f == a / 0x2000 % 32
  {}

  lemma LargeSmall(a: bv32)
    ensures a / 0x2000 % 32 <= 0x1f
  {}

  lemma Cut512(w: bv32)
    ensures w & 0xFFFF_FE00 == w - w % 512
  {}

  lemma Cut256(w: bv32)
    ensures w & 0xFFFF_FF00 == w - w % 256
  {}

  lemma Cut128(w: bv32)
    ensures w & 0xFFFF_FF80 == w - w % 128
  {}

  lemma Cut4(w: bv32)
    ensures w & 0xFFFF_FFFC == w - w % 4
  {}

  lemma Low512(w: bv32)
    ensures (w & 0xFFFF_FE00) & 0x1ff == 0
  {}

  lemma Low256(w: bv32)
    ensures (w & 0xFFFF_FF00) & 0xff == 0
  {}

  lemma Low128(w: bv32)
    ensures (w & 0xFFFF_FF80) & 0x7f == 0
  {}

  lemma Mod512(w: bv32)
    ensures w & 0x1ff == w % 512
  {}

  lemma Add512(table: bv32, i: bv32)
    requires table & 0x1ff == 0 && i <= 0x7f
    ensures table | (i << 2) == table + 4 * i
  {}

  lemma Add256(table: bv32, i: bv32)
    requires table & 0xff == 0 && i <= 0x3f
    ensures table | (i << 2) == table + 4 * i
  {}

  lemma Add128(table: bv32, i: bv32)
    requires table & 0x7f == 0 && i <= 0x1f
    ensures table | (i << 2) == table + 4 * i
  {}

  // ---- Bits ----

  lemma Bit2(w: bv32)
    ensures w & 0x4 != 0 <==> w / 4 % 2 == 1
  {}

  lemma Bit3(w: bv32)
    ensures w & 0x8 != 0 <==> w / 8 % 2 == 1
  {}

  lemma Bit4(w: bv32)
    ensures w & 0x10 != 0 <==> w / 16 % 2 == 1
  {}

  lemma Bit7(w: bv32)
    ensures w & 0x80 != 0 <==> w / 128 % 2 == 1
  {}

  lemma Bit10(w: bv32)
    ensures w & 0x400 != 0 <==> w / 1024 % 2 == 1
  {}

  lemma Adds8(w: bv32)
    requires w & 0x8 == 0
    ensures w | 0x8 == w + 8
  {}

  lemma Adds16(w: bv32)
    requires w & 0x10 == 0
    ensures w | 0x10 == w + 16
  {}

  lemma Has8(w: bv32)
    requires w & 0x8 != 0
    ensures w | 0x8 == w
  {}

  lemma Has16(w: bv32)
    requires w & 0x10 != 0
    ensures w | 0x10 == w
  {}

  /** Bytes that agree under a mask, bit by bit. */
  lemma Covered(mask: bv8, base: bv8, top: bv8)
    ensures top & !mask == base & !mask
            <==> && (mask % 2 == 1 || base % 2 == top % 2)
                 && (mask / 2 % 2 == 1 || base / 2 % 2 == top / 2 % 2)
                 && (mask / 4 % 2 == 1 || base / 4 % 2 == top / 4 % 2)
                 && (mask / 8 % 2 == 1 || base / 8 % 2 == top / 8 % 2)
                 && (mask / 16 % 2 == 1 || base / 16 % 2 == top / 16 % 2)
                 && (mask / 32 % 2 == 1 || base / 32 % 2 == top / 32 % 2)
                 && (mask / 64 % 2 == 1 || base / 64 % 2 == top / 64 % 2)
                 && (mask / 128 == 1 || base / 128 == top / 128)
  {}

  // ---- Fields put together ----

  lemma Mmusr(r: bv32, t: bv32, w: bv32, m: bv32, cm: bv32, s: bv32, ux: bv32, g: bv32, b: bv32, p: bv32)
    requires r <= 1 && t <= 1 && w <= 1 && m <= 1 && cm <= 3 && s <= 1 && ux <= 3 && g <= 1 && b <= 1 && p <= 0xF_FFFF
    ensures r | (t << 1) | (w << 2) | (m << 4) | (cm << 5) | (s << 7) | (ux << 8) | (g << 10) | (b << 11) | (p << 12)
            == r + 2 * t + 4 * w + 16 * m + 32 * cm + 128 * s + 256 * ux + 1024 * g + 2048 * b + 4096 * p
  {}

  lemma StatusWord(x: bv16, n: bv16, z: bv16, v: bv16, c: bv16, i: bv16, m: bv16, s: bv16, t: bv16)
    requires x <= 1 && n <= 1 && z <= 1 && v <= 1 && c <= 1 && i <= 7 && m <= 1 && s <= 1 && t <= 3
    ensures (x << 4) | (n << 3) | (z << 2) | (v << 1) | c | (i << 8) | (m << 12) | (s << 13) | (t << 14)
            == c + 2 * v + 4 * z + 8 * n + 16 * x + 0x100 * i + 0x1000 * m + 0x2000 * s + 0x4000 * t
  {}

  lemma HighLow(v: bv32)
    ensures ((v >> 16) as bv16) as bv32 == v / 0x1_0000 && ((v & 0xFFFF) as bv16) as bv32 == v % 0x1_0000
  {}

  lemma HalvesSum(v: bv32)
    ensures v / 0x1_0000 * 0x1_0000 + v % 0x1_0000 == v
  {}

  lemma ShortVector(n: bv16)
    requires n < 0x400
    ensures n << 2 == 4 * n && 0x2000 | (n << 2) == 0x2000 + 4 * n && 0x3000 | (n << 2) == 0x3000 + 4 * n
  {}

  lemma ExtensionOffset(d: bv16, inO: bv16, o: bv16, inW: bv16, w: bv16)
    requires d < 8 && inO <= 1 && o < 32 && inW <= 1 && w < 32
    ensures ((0x1000 * d + 0x800 * inO + 0x40 * o + 0x20 * inW + w) >> 6) & 0x1F == o
  {}

  lemma ExtensionWidth(d: bv16, inO: bv16, o: bv16, inW: bv16, w: bv16)
    requires d < 8 && inO <= 1 && o < 32 && inW <= 1 && w < 32
    ensures (0x1000 * d + 0x800 * inO + 0x40 * o + 0x20 * inW + w) & 0x1F == w
  {}

  lemma ExtensionFlags(d: bv16, inO: bv16, o: bv16, inW: bv16, w: bv16)
    requires d < 8 && inO <= 1 && o < 32 && inW <= 1 && w < 32
    ensures (0x1000 * d + 0x800 * inO + 0x40 * o + 0x20 * inW + w) & 0x800 != 0 <==> inO == 1
    ensures (0x1000 * d + 0x800 * inO + 0x40 * o + 0x20 * inW + w) & 0x20 != 0 <==> inW == 1
  {}

  lemma ExtensionDest(d: bv16, inO: bv16, o: bv16, inW: bv16, w: bv16)
    requires d < 8 && inO <= 1 && o < 32 && inW <= 1 && w < 32
    ensures ((0x1000 * d + 0x800 * inO + 0x40 * o + 0x20 * inW + w) >> 12) & 7 == d
  {}

  // ---- Bytes and words ----

  lemma Part0(v: bv32)
    ensures (((v >> 24) & 0xFF) as bv8) as bv32 == v / 0x100_0000
  {}

  lemma Part1(v: bv32)
    ensures (((v >> 16) & 0xFF) as bv8) as bv32 == v / 0x1_0000 % 0x100
  {}

  lemma Part2(v: bv32)
    ensures (((v >> 8) & 0xFF) as bv8) as bv32 == v / 0x100 % 0x100
  {}

  lemma Part3(v: bv32)
    ensures ((v & 0xFF) as bv8) as bv32 == v % 0x100
  {}

  lemma JoinWord(b0: bv8, b1: bv8)
    ensures ((0 as bv8 as bv32) << 24) | ((0 as bv8 as bv32) << 16) | ((b0 as bv32) << 8) | (b1 as bv32)
            == 0x100 * (b0 as bv32) + (b1 as bv32)
  {}

  lemma JoinLong(b0: bv8, b1: bv8, b2: bv8, b3: bv8)
    ensures ((b0 as bv32) << 24) | ((b1 as bv32) << 16) | ((b2 as bv32) << 8) | (b3 as bv32)
            == 0x100_0000 * (b0 as bv32) + 0x1_0000 * (b1 as bv32) + 0x100 * (b2 as bv32) + (b3 as bv32)
  {}

  lemma WordDigits(x: bv32)
    ensures 0x100 * (x / 0x100 % 0x100) + x % 0x100 == x % 0x1_0000
  {}

  lemma LongDigits(x: bv32)
    ensures 0x100_0000 * (x / 0x100_0000) + 0x1_0000 * (x / 0x1_0000 % 0x100) + 0x100 * (x / 0x100 % 0x100)
            + x % 0x100 == x
  {}

  lemma ModAgain(x: bv32)
    ensures x % 0x1_0000 % 0x1_0000 == x % 0x1_0000
  {}

  lemma ExtendsSign(v: bv32)
    requires v & 0x8000 != 0
    ensures (v & 0xFFFF) | 0xFFFF_0000 == v % 0x1_0000 + 0xFFFF_0000
    ensures v % 0x1_0000 >= 0x8000
  {}

  lemma ExtendsPlain(v: bv32)
    requires v & 0x8000 == 0
    ensures (v & 0xFFFF) | 0 == v % 0x1_0000
    ensures v % 0x1_0000 < 0x8000
  {}

  lemma ReplacesWord(x: bv32, v: bv32)
    ensures (x & 0xFFFF_0000) | (v & 0xFFFF) == x - x % 0x1_0000 + v % 0x1_0000
  {}

  // ---- The bytes of a word of memory ----

  lemma Lane(a: bv32)
    ensures a & 3 == a % 4 && a % 4 < 4
  {}

  lemma Lane0(w: bv32)
    ensures w >> 24 == w / 0x100_0000 % 0x100
  {}

  lemma Lane1(w: bv32)
    ensures (w >> 16) & 0xff == w / 0x1_0000 % 0x100
  {}

  lemma Lane2(w: bv32)
    ensures (w >> 8) & 0xff == w / 0x100 % 0x100
  {}

  lemma Lane3(w: bv32)
    ensures w & 0xff == w / 1 % 0x100
  {}

  lemma Replaces0(w: bv32, b: bv32)
    ensures (w & 0x00FF_FFFF) | (b << 24) == w - w / 0x100_0000 % 0x100 * 0x100_0000 + b % 0x100 * 0x100_0000
  {}

  lemma Replaces1(w: bv32, b: bv32)
    ensures (w & 0xFF00_FFFF) | ((b & 0xff) << 16) == w - w / 0x1_0000 % 0x100 * 0x1_0000 + b % 0x100 * 0x1_0000
  {}

  lemma Replaces2(w: bv32, b: bv32)
    ensures (w & 0xFFFF_00FF) | ((b & 0xff) << 8) == w - w / 0x100 % 0x100 * 0x100 + b % 0x100 * 0x100
  {}

  lemma Replaces3(w: bv32, b: bv32)
    ensures (w & 0xFFFF_FF00) | (b & 0xff) == w - w / 1 % 0x100 * 1 + b % 0x100 * 1
  {}

  lemma OneMore(acc: bv32, b: bv32)
    requires b < 0x100
    ensures (acc << 8) | b == 0x100 * acc + b
  {}

  lemma Bit11(e: bv16)
    ensures e | 0x800 == if e / 0x800 % 2 == 1 then e else e + 0x800
  {}

  lemma WordSum(w: bv32)
    ensures 0x100_0000 * (w / 0x100_0000 % 0x100) + 0x1_0000 * (w / 0x1_0000 % 0x100) + 0x100 * (w / 0x100 % 0x100)
            + w / 1 % 0x100 == w
  {}

  lemma OneByte(b0: bv32)
    ensures ((0 as bv32) << 8) | b0 == b0
  {}

  lemma TwoBytes(b0: bv32, b1: bv32)
    requires b0 < 0x100 && b1 < 0x100
    ensures (b0 << 8) | b1 == 0x100 * b0 + b1
  {}

  lemma FourBytes(b0: bv32, b1: bv32, b2: bv32, b3: bv32)
    requires b0 < 0x100 && b1 < 0x100 && b2 < 0x100 && b3 < 0x100
    ensures (((((b0 << 8) | b1) << 8) | b2) << 8) | b3 == 0x100_0000 * b0 + 0x1_0000 * b1 + 0x100 * b2 + b3
  {}

  lemma Rewritten(w: bv32, v: bv32)
    ensures (((((((w & 0x00FF_FFFF) | ((v >> 24) << 24)) & 0xFF00_FFFF) | ((((v >> 16) & 0xff) & 0xff) << 16))
               & 0xFFFF_00FF) | ((((v >> 8) & 0xff) & 0xff) << 8)) & 0xFFFF_FF00) | ((v & 0xff) & 0xff) == v
  {}

  // ---- Special status word ----

  lemma FaultSum(code: bv16, cm: bv16, tt: bv16, lock: bv16, read: bv16, size: bv16, space: bv16)
    requires code % 0x400 == 0 && code < 0x1000 && cm <= 1 && tt % 8 == 0 && tt < 0x20 && lock <= 1 && read <= 1
    requires size < 4 && space < 8
    ensures code | (cm << 12) | tt | (lock << 9) | (read << 8) | (size << 5) | space
            == code + 0x1000 * cm + 0x200 * lock + 0x100 * read + 0x20 * size + tt + space
  {}

  lemma FaultParts(code: bv16, cm: bv16, tt: bv16, lock: bv16, read: bv16, size: bv16, space: bv16)
    requires code % 0x400 == 0 && code < 0x1000 && cm <= 1 && tt % 8 == 0 && tt < 0x20 && lock <= 1 && read <= 1
    requires size < 4 && space < 8
    ensures code + 0x1000 * cm + 0x200 * lock + 0x100 * read + 0x20 * size + tt + space >= 0x1000 <==> cm == 1
    ensures (code + 0x1000 * cm + 0x200 * lock + 0x100 * read + 0x20 * size + tt + space) / 0x2000 % 2 == 0
  {}

  // ---- Distances ----

  lemma NotMoved(x: bv32, d: bv32)
    ensures x + d == x <==> d == 0
  {}

  lemma NoDistance(v: bv32, a: bv32)
    ensures v - a == 0 <==> v == a
  {}
}
