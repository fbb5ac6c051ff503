/**
 Facts of bit-vector arithmetic, each spelled out in the operators themselves.  Ring
 indices have five bits, so that they wrap round by themselves; widths have six.
 */
module BitFacts {

  lemma RotateLeft(v: bv32, n: bv5, i: bv5)
    ensures (((v << n) | (v >> (0 - n))) >> (31 - i)) & 1 == (v >> (31 - (i + n))) & 1
  {}

  lemma RotateRight(v: bv32, n: bv5, i: bv5)
    ensures (((v >> n) | (v << (0 - n))) >> (31 - i)) & 1 == (v >> (31 - (i - n))) & 1
  {}

  lemma LeftOnes(w: bv6, i: bv5)
    requires 1 <= w <= 32
    ensures (((0xFFFF_FFFF as bv32) << (32 - w)) >> (31 - i)) & 1 == 1 <==> i as bv6 < w
  {}

  /** v << (32 - w), the low w bits of v brought to the left end. */
  lemma ShiftLeft(v: bv32, w: bv6, i: bv5)
    requires 1 <= w <= 32
    ensures ((v << (32 - w)) >> (31 - i)) & 1 == 1
            <==> i as bv6 < w && (v >> (31 - (i + ((32 - w) as bv5)))) & 1 == 1
  {}

  lemma UpParts(x: bv32, y: bv32, n: bv6)
    requires n < 32
    ensures (x | y) << n == (x << n) | (y << n)
  {}

  lemma DownParts(x: bv32, y: bv32, n: bv6)
    requires n < 32
    ensures (x | y) >> n == (x >> n) | (y >> n)
  {}

  lemma UpOut(x: bv32, n: bv6)
    requires 0 < n < 32
    ensures (x << (32 - n)) << n == 0
  {}

  lemma DownOut(x: bv32, n: bv6)
    requires 0 < n < 32
    ensures (x >> n) >> (32 - n) == 0
  {}

  lemma BothParts(x: bv32, n: bv6)
    requires 0 < n < 32
    ensures ((x >> n) << n) | ((x << (32 - n)) >> (32 - n)) == x
  {}

  lemma OrNothing(x: bv32, y: bv32)
    ensures (x | 0) | (0 | y) == x | y
  {}

  lemma TurnBack(x: bv32, n: bv6)
    requires 0 < n < 32
    ensures (((x >> n) | (x << (32 - n))) << n) | (((x >> n) | (x << (32 - n))) >> (32 - n)) == x
  {
    UpParts(x >> n, x << (32 - n), n);
    DownParts(x >> n, x << (32 - n), 32 - n);
    UpOut(x, n);
    DownOut(x, n);
    BothParts(x, n);
    OrNothing((x >> n) << n, (x << (32 - n)) >> (32 - n));
  }

  // ---- Shifting there and back, with the operators named ----

  function Or(x: bv32, y: bv32): bv32 { x | y }

  function Only(x: bv32, m: bv32): bv32 { x & m }

  function Rest(x: bv32, m: bv32): bv32 { x & !m }

  function Up(x: bv32, n: bv6): bv32
    requires n < 32
  {
    x << n
  }

  function Down(x: bv32, n: bv6): bv32
    requires n < 32
  {
    x >> n
  }

  lemma UpJoined(x: bv32, y: bv32, n: bv6)
    requires n < 32
    ensures Up(Or(x, y), n) == Or(Up(x, n), Up(y, n))
  {
    UpParts(x, y, n);
  }

  lemma JoinedNothing(x: bv32)
    ensures Or(x, 0) == x
  {}

  lemma TwoParts(v: bv32, m: bv32)
    ensures Or(Only(v, m), Rest(v, m)) == v
  {}

  lemma HighOut(v: bv32, m: bv32, k: bv6)
    requires k < 32 && m == Down(0xFFFF_FFFF, k)
    ensures Up(Rest(v, m), k) == 0
  {}

  lemma Returns(x: bv32, m: bv32, k: bv6)
    requires k < 32 && m == Down(0xFFFF_FFFF, k)
    ensures Down(Up(Only(x, m), k), k) == Only(x, m)
  {
    assert (x & m) >> (32 - k) == 0;
  }

  /** Only the low bits of v survive a shift to the left. */
  lemma DownMask(v: bv32, m: bv32, k: bv6)
    requires k < 32 && m == Down(0xFFFF_FFFF, k)
    ensures Down(Up(v, k), k) == Only(v, m)
  {
    hide Or, Up, Down, Only, Rest;
    TwoParts(v, m);
    UpJoined(Only(v, m), Rest(v, m), k);
    HighOut(v, m, k);
    JoinedNothing(Up(Only(v, m), k));
    Returns(v, m, k);
  }

  lemma ShiftsOut(x: bv32, i: bv6)
    requires i < 32
    ensures x << i == 0 <==> (x >> (31 - i)) & 1 != 1 && x << (i + 1) == 0
  {}

  lemma Placed(x: bv32, v: bv32, w: bv6)
    requires 1 <= w <= 32
    ensures ((x & !((0xFFFF_FFFF as bv32) << (32 - w))) | (v << (32 - w))) & ((0xFFFF_FFFF as bv32) << (32 - w))
            == v << (32 - w)
  {}

  lemma DownAgain(v: bv32, w: bv6)
    requires 1 <= w <= 32
    ensures (v << (32 - w)) >> (32 - w) == v & ((0xFFFF_FFFF as bv32) >> (32 - w))
  {
    DownMask(v, Down(0xFFFF_FFFF, 32 - w), 32 - w);
  }

  lemma ShiftByGap(x: bv32, w: bv6)
    requires 1 <= w <= 32
    ensures x >> ((32 - w) as bv5) == x >> (32 - w)
  {}

  /** x >> (32 - w), the left w bits of x brought to the right end. */
  lemma LowerLeft(x: bv32, w: bv6, i: bv5)
    requires 1 <= w <= 32
    ensures ((x >> (32 - w)) >> (31 - i)) & 1 == 1
            <==> i >= (32 - w) as bv5 && (x >> (31 - (i - ((32 - w) as bv5)))) & 1 == 1
  {}

  // ---- Bit numbers of memory: 35 bits, of which the upper 32 are the address ----

  lemma ShiftSum(x: bv32, y: bv32)
    ensures ((x + y) as bv35) << 3 == ((x as bv35) << 3) + ((y as bv35) << 3)
  {}

  /** The sign bits t and u that a shift by three and a widening to 35 bits bring in. */
  lemma SplitOffset(f: bv32, t: bv32, u: bv35)
    requires (f >= 0x8000_0000 && t == 0xE000_0000 && u == 0x7_0000_0000) || (f < 0x8000_0000 && t == 0 && u == 0)
    ensures (f as bv35) | u == ((((f >> 3) | t) as bv35) << 3) + ((f & 7) as bv35)
  {}

  lemma Window(i: bv35, base: bv32, o: bv6, w: bv6)
    requires o < 8 && 1 <= w <= 32
    ensures i - (((base as bv35) << 3) + (o as bv35)) < w as bv35
            <==> ((i >> 3) as bv32) - base < ((o + w + 7) >> 3) as bv32
                 && o <= (((((i >> 3) as bv32) - base) & 63) as bv6 << 3) + ((i & 7) as bv6) < o + w
  {}

  lemma OneMore(d: bv32, n: bv6)
    requires n < 5
    ensures d < (n + 1) as bv32 <==> d < n as bv32 || d == n as bv32
    ensures ((n as bv32) & 63) as bv6 == n
  {}
}
