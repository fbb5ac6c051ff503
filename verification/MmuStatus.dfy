/** MMUSR: the result of a probe packed into one long. */
module MmuStatus {
  import opened Addresses
  import NumberFacts
  import opened MmuTables
  import opened Atc
  import opened AtcInvariant
  import opened AtcLive
  import opened AtcTheorems

  function Flag(b: bool): bv32 { if b then 1 else 0 }

  function Word(r: bv32, t: bv32, w: bv32, m: bv32, cm: bv32, s: bv32, ux: bv32, g: bv32, b: bv32, p: bv32): bv32 {
    r | (t << 1) | (w << 2) | (m << 4) | (cm << 5) | (s << 7) | (ux << 8) | (g << 10) | (b << 11) | (p << 12)
  }

  function Bits(paddr: bv32, ux: bv32, cm: bv32, R: bool, T: bool, W: bool, M: bool, S: bool, G: bool, B: bool): bv32 {
    Word(Flag(R), Flag(T), Flag(W), Flag(M), cm, Flag(S), ux, Flag(G), Flag(B), paddr)
  }

  /** mmu_result::value. */
  function Packed(res: MmuResult): bv32 {
    Bits(res.paddr, res.Ux, res.CM, res.R, res.T, res.W, res.M, res.S, res.G, res.B)
  }

  function Frame(w: bv32): bv32 { w >> 12 }

  function UserBits(w: bv32): bv32 { (w >> 8) & 3 }

  function CacheMode(w: bv32): bv32 { (w >> 5) & 3 }

  predicate Bit(w: bv32, k: bv32) { w & k != 0 }

  /** MMUSR as the MC68040 User's Manual, section 3, lays it out. */
  function Unpacked(w: bv32): MmuResult {
    MmuResult(Frame(w), UserBits(w), CacheMode(w), Bit(w, 0x1), Bit(w, 0x2), Bit(w, 0x4), Bit(w, 0x10),
              Bit(w, 0x80), Bit(w, 0x400), Bit(w, 0x800))
  }

  predicate Narrow(paddr: bv32, ux: bv32, cm: bv32) { paddr < 0x10_0000 && ux < 4 && cm < 4 }

  predicate Fits(res: MmuResult) { Narrow(res.paddr, res.Ux, res.CM) }

  lemma CodesBack(p: bv32, u: bv32, c: bv32, R: bool, T: bool, W: bool, M: bool, S: bool, G: bool, B: bool)
    requires Narrow(p, u, c)
    ensures var w := Bits(p, u, c, R, T, W, M, S, G, B);
            Frame(w) == p && UserBits(w) == u && CacheMode(w) == c
  {}

  lemma FlagsBack(p: bv32, u: bv32, c: bv32, R: bool, T: bool, W: bool, M: bool, S: bool, G: bool, B: bool)
    requires Narrow(p, u, c)
    ensures var w := Bits(p, u, c, R, T, W, M, S, G, B);
            && Bit(w, 0x1) == R && Bit(w, 0x2) == T && Bit(w, 0x4) == W && Bit(w, 0x10) == M
            && Bit(w, 0x80) == S && Bit(w, 0x400) == G && Bit(w, 0x800) == B
  {}

  /** The same in numbers. */
  function Number(r: bv32, t: bv32, w: bv32, m: bv32, cm: bv32, s: bv32, ux: bv32, g: bv32, b: bv32, p: bv32): bv32 {
    r + 2 * t + 4 * w + 16 * m + 32 * cm + 128 * s + 256 * ux + 1024 * g + 2048 * b + 4096 * p
  }

  lemma WordNumber(r: bv32, t: bv32, w: bv32, m: bv32, cm: bv32, s: bv32, ux: bv32, g: bv32, b: bv32, p: bv32)
    requires r <= 1 && t <= 1 && w <= 1 && m <= 1 && cm <= 3 && s <= 1 && ux <= 3 && g <= 1 && b <= 1 && p <= 0xF_FFFF
    ensures Word(r, t, w, m, cm, s, ux, g, b, p) == Number(r, t, w, m, cm, s, ux, g, b, p)
  {
    NumberFacts.Mmusr(r, t, w, m, cm, s, ux, g, b, p);
  }

  lemma FlagSmall(b: bool)
    ensures Flag(b) <= 1
  {}

  lemma NarrowSmall(p: bv32, u: bv32, c: bv32)
    requires Narrow(p, u, c)
    ensures p <= 0xF_FFFF && u <= 3 && c <= 3
  {}

  /** What each field of MMUSR is worth. */
  lemma PackedNumber(res: MmuResult)
    requires Fits(res)
    ensures Packed(res)
            == Number(Flag(res.R), Flag(res.T), Flag(res.W), Flag(res.M), res.CM, Flag(res.S), res.Ux, Flag(res.G),
                      Flag(res.B), res.paddr)
  {
    hide Word, Number, Narrow, Flag;
    NarrowSmall(res.paddr, res.Ux, res.CM);
    forall b: bool ensures Flag(b) <= 1 {
      FlagSmall(b);
    }
    WordNumber(Flag(res.R), Flag(res.T), Flag(res.W), Flag(res.M), res.CM, Flag(res.S), res.Ux, Flag(res.G),
               Flag(res.B), res.paddr);
  }

  /** The fields can be told apart if and only if each fits its place. */
  lemma PackedBack(res: MmuResult)
    ensures Unpacked(Packed(res)) == res <==> Fits(res)
  {
    hide Bits, Frame, UserBits, CacheMode, Bit, Narrow;
    WordFits(Packed(res));
    if Fits(res) {
      CodesBack(res.paddr, res.Ux, res.CM, res.R, res.T, res.W, res.M, res.S, res.G, res.B);
      FlagsBack(res.paddr, res.Ux, res.CM, res.R, res.T, res.W, res.M, res.S, res.G, res.B);
    }
  }

  lemma WordFits(pg: bv32)
    ensures Narrow(Frame(pg), UserBits(pg), CacheMode(pg))
    ensures Narrow(pg >> 12, (pg >> 8) & 3, (pg >> 5) & 3)
  {}

  lemma MatchesFits(m: Memory, w: Walk, res: MmuResult)
    requires Matches(m, w, res) && res.R
    ensures Fits(res)
  {
    hide SBit, GBit, WBit, Narrow;
    WordFits(m[w.desc]);
  }

  lemma PlainFits(page: bv32)
    requires page < 0x10_0000
    ensures Narrow(page, 0, 0) && Narrow(0, 0, 0)
  {}

  lemma TtrFits(t: Ttr, page: bv32, sys: bool)
    requires page < 0x10_0000
    ensures Fits(TestTtr(t, page, sys))
  {
    hide Narrow;
    PlainFits(page);
  }

  lemma DirectFits(r: Registers, st: State, page: bv32, sys: bool, code: bool, write: bool)
    requires Shaped(st.atc) && page < 0x10_0000 && !ByTables(r, page, sys, code)
    ensures Fits(Ptest(r, st, page, sys, code, write).0)
  {
    hide PtestTables, TestTtr, Narrow;
    TtrFits(if code then r.ittr0 else r.dttr0, page, sys);
    TtrFits(if code then r.ittr1 else r.dttr1, page, sys);
    PlainFits(page);
  }

  lemma PageFits(addr: bv32)
    ensures PageOf(addr) < 0x10_0000
  {}

  /** What MMUSR says after a translation that found a page is what a fresh walk says. */
  lemma ProbeSaysWalk(r: Registers, st: State, addr: bv32, sys: bool, code: bool, write: bool)
    requires LiveInv(r, st) && !(ByTables(r, PageOf(addr), sys, code) && Stale(r, st, PageOf(addr), sys, code))
    requires Ptest(r, st, PageOf(addr), sys, code, write).0.R
    ensures var (res, st') := Ptest(r, st, PageOf(addr), sys, code, write);
            && Unpacked(Packed(res)) == res
            && (ByTables(r, PageOf(addr), sys, code)
                ==> Matches(st'.mem, WalkOf(r, st'.mem, sys, PageOf(addr)), Unpacked(Packed(res))))
  {
    hide Ptest, ByTables, WalkOf, Stale, Packed, Unpacked, PageOf, LiveInv, Matches, Fits;
    LiveShaped(r, st);
    var page := PageOf(addr);
    var (res, st') := Ptest(r, st, page, sys, code, write);
    PackedBack(res);
    PageFits(addr);
    if ByTables(r, page, sys, code) {
      LiveTransparent(r, st, page, sys, code, write);
      MatchesFits(st'.mem, WalkOf(r, st'.mem, sys, page), res);
    } else {
      DirectFits(r, st, page, sys, code, write);
    }
  }

  lemma LiveShaped(r: Registers, st: State)
    requires LiveInv(r, st)
    ensures Shaped(st.atc)
  {}
}
