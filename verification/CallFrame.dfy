/**
 Call frame information (DWARF 5, sections 6.4.2, 7.6 and 7.24): the numbers and instructions
 the translator writes, and a reader of them.
 */
module CallFrame {
  import opened Powers

  ghost predicate IsBytes(s: seq<nat>) { forall k :: 0 <= k < |s| ==> s[k] < 0x100 }

  // ---- Fixed-size numbers, the low byte first ----

  function Little(n: nat, v: nat): (s: seq<nat>)
    ensures |s| == n
  {
    if n == 0 then [] else [v % 0x100] + Little(n - 1, v / 0x100)
  }

  function FromLittle(s: seq<nat>): nat {
    if s == [] then 0 else s[0] + 0x100 * FromLittle(s[1..])
  }

  /** 256^n. */
  function Limit(n: nat): (p: nat)
    ensures p > 0
  {
    if n == 0 then 1 else 0x100 * Limit(n - 1)
  }

  lemma {:induction false} LittleBack(n: nat, v: nat)
    ensures IsBytes(Little(n, v))
    ensures FromLittle(Little(n, v)) == v % Limit(n)
  {
    if n > 0 {
      LittleBack(n - 1, v / 0x100);
      var s := Little(n, v);
      assert s[1..] == Little(n - 1, v / 0x100);
      DivMod(v, 0x100);
      DivMod(v / 0x100, Limit(n - 1));
      MulMul(v / 0x100 / Limit(n - 1), 0x100, Limit(n - 1));
      MulAdd(v / 0x100 / Limit(n - 1) * Limit(n - 1), v / 0x100 % Limit(n - 1), 0x100);
      MulMul(v / 0x100 / Limit(n - 1), Limit(n - 1), 0x100);
      Divides(v, Limit(n), v / 0x100 / Limit(n - 1), v / 0x100 % Limit(n - 1) * 0x100 + v % 0x100);
    }
  }

  // ---- LEB128 ----

  /** WriteULEB128. */
  function Uleb(v: nat): (s: seq<nat>)
    ensures s != []
  {
    if v < 128 then [v] else [v % 128 + 128] + Uleb(v / 128)
  }

  datatype Read<T> = Done(value: T, rest: seq<nat>) | Bad

  function ReadUleb(s: seq<nat>): (r: Read<nat>)
    ensures r.Done? ==> |r.rest| < |s|
  {
    if s == [] then Bad
    else if s[0] < 128 then Done(s[0], s[1..])
    else match ReadUleb(s[1..])
      case Done(high, rest) => Done(s[0] - 128 + 128 * high, rest)
      case Bad => Bad
  }

  lemma {:induction false} UlebBack(v: nat, rest: seq<nat>)
    ensures IsBytes(Uleb(v))
    ensures ReadUleb(Uleb(v) + rest) == Done(v, rest)
  {
    var s := Uleb(v) + rest;
    if v < 128 {
      assert s[1..] == rest;
    } else {
      UlebBack(v / 128, rest);
      assert s[1..] == Uleb(v / 128) + rest;
    }
  }

  /** WriteSLEB128, in which v >>= 7 rounds down. */
  function Sleb(v: int): (s: seq<nat>)
    ensures s != []
    decreases if v < 0 then -v else v
  {
    if v >= 0 then Uleb(v)
    else if v > -128 then [v % 128]
    else [v % 0x100] + Sleb(v / 128)
  }

  /** A signed number: bit 6 of the last byte is the sign. */
  function ReadSleb(s: seq<nat>): Read<int> {
    if s == [] then Bad
    else
    var b: int := s[0];
    if b < 128 then Done(if b < 64 then b else b - 128, s[1..])
    else match ReadSleb(s[1..])
      case Done(high, rest) => Done(b - 128 + 128 * high, rest)
      case Bad => Bad
  }

  /** Whether the last byte written shows the sign, and no earlier byte seems the last. */
  predicate SlebShows(v: int)
    decreases if v < 0 then -v else v
  {
    if v >= 0 then (if v < 128 then v < 64 else SlebShows(v / 128))
    else if v > -128 then v >= -64
    else v / 128 % 2 == 1 && SlebShows(v / 128)
  }

  lemma {:induction false} SlebOfUleb(v: nat, rest: seq<nat>)
    ensures ReadSleb(Uleb(v) + rest) == Done(v, rest) <==> SlebShows(v)
    ensures ReadSleb(Uleb(v) + rest).Done?
  {
    var s := Uleb(v) + rest;
    if v < 128 {
      assert s[1..] == rest;
    } else {
      SlebOfUleb(v / 128, rest);
      assert s[1..] == Uleb(v / 128) + rest;
    }
  }

  lemma ReadMore(b: nat, rest: seq<nat>)
    requires b >= 128
    ensures ReadSleb([b] + rest)
            == match ReadSleb(rest) case Done(high, more) => Done(b - 128 + 128 * high, more) case Bad => Bad
  {
    assert ([b] + rest)[1..] == rest;
  }

  lemma {:induction false} SlebRead(v: int, rest: seq<nat>)
    ensures ReadSleb(Sleb(v) + rest) == Done(v, rest) <==> SlebShows(v)
    decreases if v < 0 then -v else v
  {
    var s := Sleb(v) + rest;
    if v >= 0 {
      SlebOfUleb(v, rest);
    } else if v > -128 {
      assert s[1..] == rest;
    } else {
      SlebNegative(v, rest);
      SlebRead(v / 128, rest);
    }
  }

  lemma ByteSplit(v: int)
    ensures v % 0x100 == v / 128 % 2 * 128 + v % 128 && v == 128 * (v / 128) + v % 128 && 0 <= v % 128 < 128
  {
    DivMod(v, 128);
    DivMod(v / 128, 2);
    Divides(v, 0x100, v / 128 / 2, v / 128 % 2 * 128 + v % 128);
  }

  /** A byte of a negative number reads as one more follows just when the next digit is odd. */
  lemma SlebNegative(v: int, rest: seq<nat>)
    requires v <= -128
    ensures var more := ReadSleb(Sleb(v / 128) + rest);
            ReadSleb(Sleb(v) + rest) == Done(v, rest)
            <==> v / 128 % 2 == 1 && more == Done(v / 128, rest)
  {
    var q, b, more := v / 128, v % 0x100, Sleb(v / 128) + rest;
    assert Sleb(v) + rest == [b] + more;
    hide Sleb;
    ByteSplit(v);
    LongerRest(q, rest);
    NegativeByte(v, q, b, more, rest);
  }

  lemma NegativeByte(v: int, q: int, b: nat, more: seq<nat>, rest: seq<nat>)
    requires v == 128 * q + b % 128 && b < 0x100 && more != rest
    ensures ReadSleb([b] + more) == Done(v, rest) <==> b >= 128 && ReadSleb(more) == Done(q, rest)
  {
    if b >= 128 {
      ReadMore(b, more);
    } else {
      assert ([b] + more)[1..] == more;
    }
  }

  lemma LongerRest(v: int, rest: seq<nat>)
    ensures Sleb(v) + rest != rest
  {
    assert |Sleb(v) + rest| > |rest|;
  }

  // ---- Which numbers WriteSLEB128 writes ----

  /** 128^k. */
  function Place(k: nat): (p: nat)
    ensures p > 0
  {
    if k == 0 then 1 else 128 * Place(k - 1)
  }

  /** The digit of v, to the base 128, whose place is 128^k. */
  function DigitAt(v: int, k: nat): int { v / Place(k) % 128 }

  /**
   The last byte written is that of place k, and reads as intended: of a positive number it is
   below 64; a negative one is at least -64 places, and its digits above the first are all odd,
   because their low bits become the marks that more bytes follow.
   */
  ghost predicate WrittenAt(v: int, k: nat) {
    if v >= 0 then (k == 0 || Place(k) <= v) && v < 64 * Place(k)
    else (k == 0 || v < -127 * Place(k - 1)) && -64 * Place(k) <= v
         && forall i :: 1 <= i <= k ==> DigitAt(v, i) % 2 == 1
  }

  lemma NextPlace(v: int, p: nat)
    requires p > 0
    ensures v / 128 / p == v / (128 * p)
  {
    DivMod(v, 128);
    DivMod(v / 128, p);
    var q, s, r := v / 128 / p, v / 128 % p, v % 128;
    MulMul(q, p, 128);
    MulAdd(q * p, s, 128);
    assert v == q * (128 * p) + (128 * s + r);
    Divides(v, 128 * p, q, 128 * s + r);
  }

  lemma OddDigit(v: int, k: nat)
    ensures DigitAt(v, k) % 2 == v / Place(k) % 2
  {
    hide Place;
    var q := v / Place(k);
    DivMod(q, 128);
    Divides(q, 2, q / 128 * 64 + q % 128 / 2, q % 128 % 2);
  }

  lemma DigitStep(v: int, i: nat)
    ensures DigitAt(v / 128, i) == DigitAt(v, i + 1)
  {
    NextPlace(v, Place(i));
  }

  lemma DigitsStep(v: int, k: nat)
    ensures (forall i :: 1 <= i <= k + 1 ==> DigitAt(v, i) % 2 == 1)
            <==> v / 128 % 2 == 1 && (forall i :: 1 <= i <= k ==> DigitAt(v / 128, i) % 2 == 1)
  {
    hide DigitAt;
    OddDigit(v, 1);
    assert Place(1) == 128 * Place(0) == 128;
    forall i: nat ensures DigitAt(v / 128, i) == DigitAt(v, i + 1) {
      DigitStep(v, i);
    }
    if v / 128 % 2 == 1 && (forall i :: 1 <= i <= k ==> DigitAt(v / 128, i) % 2 == 1) {
      forall i | 1 <= i <= k + 1 ensures DigitAt(v, i) % 2 == 1 {
        if i > 1 {
          assert DigitAt(v / 128, i - 1) == DigitAt(v, i - 1 + 1);
        }
      }
    }
  }

  /** One byte less. */
  lemma WrittenStep(v: int, k: nat)
    requires v >= 128 || v <= -128
    ensures WrittenAt(v, k + 1) <==> WrittenAt(v / 128, k) && (v < 0 ==> v / 128 % 2 == 1)
    ensures !WrittenAt(v, 0)
  {
    hide DigitAt;
    DigitsStep(v, k);
    assert Place(k + 1) == 128 * Place(k);
  }

  lemma {:induction false} ShowsIff(v: int)
    ensures SlebShows(v) <==> exists k: nat :: WrittenAt(v, k)
    decreases if v < 0 then -v else v
  {
    hide DigitAt;
    if -128 < v < 128 {
      forall k: nat | k > 0 ensures !WrittenAt(v, k) {
        assert Place(k) == 128 * Place(k - 1);
      }
      assert Place(0) == 1;
      assert WrittenAt(v, 0) == SlebShows(v);
    } else {
      ShowsIff(v / 128);
      forall k: nat ensures WrittenAt(v, k + 1) <==> WrittenAt(v / 128, k) && (v < 0 ==> v / 128 % 2 == 1) {
        WrittenStep(v, k);
      }
      WrittenStep(v, 0);
      var shows := v < 0 ==> v / 128 % 2 == 1;
      if k: nat :| WrittenAt(v, k) {
        assert WrittenAt(v, k - 1 + 1);
        assert WrittenAt(v / 128, k - 1) && shows;
      } else if shows {
        forall k: nat ensures !WrittenAt(v / 128, k) {
          assert !WrittenAt(v, k + 1);
        }
      }
    }
  }

  /** WriteSLEB128 writes v readably if and only if v is WrittenAt some place. */
  lemma SlebIff(v: int, rest: seq<nat>)
    ensures ReadSleb(Sleb(v) + rest) == Done(v, rest) <==> exists k: nat :: WrittenAt(v, k)
  {
    SlebRead(v, rest);
    ShowsIff(v);
  }

  /** The one value it is given reads back; 64 does not, nor does -256, whose second digit is even. */
  lemma SlebExamples(rest: seq<nat>)
    ensures ReadSleb(Sleb(-1) + rest) == Done(-1, rest)
    ensures ReadSleb(Sleb(64) + rest) == Done(-64, rest)
    ensures ReadSleb(Sleb(-256) + rest) == Done(0, [126] + rest)
  {
    assert (Sleb(-1) + rest)[1..] == rest && (Sleb(64) + rest)[1..] == rest;
    assert Sleb(-256) == [0, 126];
    assert (Sleb(-256) + rest)[1..] == [126] + rest;
  }

  // ---- Instructions ----

  /** DW_CFA_advance_loc, DW_CFA_def_cfa, DW_CFA_def_cfa_offset and DW_CFA_offset. */
  datatype Cfi = Advance(delta: nat) | DefCfa(reg: nat, off: nat) | DefOffset(off: nat) | Saved(reg: nat, at: nat)

  /** (2 << 6) | register, as it is stored in a byte. */
  function SavedTag(reg: nat): (b: nat)
    ensures b < 0x100
  {
    Or(0x80, reg) % 0x100
  }

  lemma SavedTags(reg: nat)
    ensures SavedTag(reg) >= 0x80 && (reg < 64 ==> SavedTag(reg) == 0x80 + reg)
  {
    var h, low := TopBitOr(reg);
    hide Or, Pow2;
    Divides(Or(0x80, reg), 0x100, h, 0x80 + low);
    if reg < 64 {
      assert 0x80 % Pow2(6) == 0 && reg < Pow2(6) by { Pow26(); }
      OrApart(0x80, reg, 6);
    }
  }

  lemma TopBitOr(reg: nat) returns (h: nat, low: nat)
    ensures Or(0x80, reg) == 0x100 * h + 0x80 + low && low < 0x80
  {
    hide Or;
    var r3 := reg / 2 / 2 / 2;
    var r6 := r3 / 2 / 2 / 2;
    var l := OrSteps(16, reg);
    var l' := OrSteps(2, r3);
    OrStep(1, r6);
    OddOr(r6 / 2);
    h, low := Or(1, r6 / 2) / 2, 64 * (r6 % 2) + 8 * l' + l;
  }

  lemma OrSteps(a: nat, b: nat) returns (low: nat)
    requires a > 0
    ensures Or(8 * a, b) == 8 * Or(a, b / 2 / 2 / 2) + low && low < 8
  {
    hide Or;
    var b1, b2 := b / 2, b / 2 / 2;
    OrStep(4 * a, b);
    OrStep(2 * a, b1);
    OrStep(a, b2);
    low := 4 * (b2 % 2) + 2 * (b1 % 2) + b % 2;
  }

  lemma Pow26()
    ensures Pow2(6) == 64
  {
    assert Pow2(3) == 8;
  }

  lemma OrStep(a: nat, b: nat)
    requires a > 0
    ensures Or(2 * a, b) == 2 * Or(a, b / 2) + b % 2
  {}

  lemma OddOr(b: nat)
    ensures Or(1, b) % 2 == 1
  {}

  /** WriteAdvanceLoc of a delta, WriteDefineCFA, WriteDefineStackOffset, WriteRegisterStackLocation. */
  function Encoded(c: Cfi): seq<nat> {
    match c
    case Advance(d) =>
      if d < 0x40 then [0x40 + d]
      else if d < 0x100 then [2] + Little(1, d)
      else if d < 0x1_0000 then [3] + Little(2, d)
      else [4] + Little(4, d)
    case DefCfa(reg, off) => [0x0C] + Uleb(reg) + Uleb(off)
    case DefOffset(off) => [0x0E] + Uleb(off)
    case Saved(reg, at) => [SavedTag(reg)] + Uleb(at)
  }

  /** What the encoding has room for. */
  predicate Encodable(c: Cfi) {
    match c
    case Advance(d) => d < 0x1_0000_0000
    case Saved(reg, _) => reg < 64
    case _ => true
  }

  function AllEncoded(cs: seq<Cfi>): seq<nat> {
    if cs == [] then [] else Encoded(cs[0]) + AllEncoded(cs[1..])
  }

  function ReadLittle(n: nat, s: seq<nat>): (r: Read<nat>)
    ensures r.Done? ==> |r.rest| <= |s|
  {
    if |s| < n then Bad else Done(FromLittle(s[..n]), s[n..])
  }

  /** One instruction; None for DW_CFA_nop. */
  datatype Option<T> = None | Some(value: T)

  function ReadCfi(s: seq<nat>): (r: Read<Option<Cfi>>)
    requires s != []
    ensures r.Done? ==> |r.rest| < |s|
  {
    var b, t := s[0], s[1..];
    if b == 0 then Done(None, t)
    else if 0x40 <= b < 0x80 then Done(Some(Advance(b - 0x40)), t)
    else if 0x80 <= b < 0xC0 then
      match ReadUleb(t)
      case Done(v, u) => Done(Some(Saved(b - 0x80, v)), u)
      case Bad => Bad
    else if b == 2 || b == 3 || b == 4 then
      match ReadLittle(if b == 2 then 1 else if b == 3 then 2 else 4, t)
      case Done(v, u) => Done(Some(Advance(v)), u)
      case Bad => Bad
    else if b == 0x0E then
      match ReadUleb(t)
      case Done(v, u) => Done(Some(DefOffset(v)), u)
      case Bad => Bad
    else if b == 0x0C then
      match ReadUleb(t)
      case Done(v, u) =>
        (match ReadUleb(u)
         case Done(w, x) => Done(Some(DefCfa(v, w)), x)
         case Bad => Bad)
      case Bad => Bad
    else Bad
  }

  function ReadAll(s: seq<nat>): Option<seq<Cfi>>
    decreases |s|
  {
    if s == [] then Some([])
    else match ReadCfi(s)
      case Bad => None
      case Done(c, rest) =>
        match ReadAll(rest)
        case None => None
        case Some(cs) => Some(if c.Some? then [c.value] + cs else cs)
  }

  lemma ReadLittleBack(n: nat, v: nat, rest: seq<nat>)
    requires v < Limit(n)
    ensures ReadLittle(n, Little(n, v) + rest) == Done(v, rest)
  {
    LittleBack(n, v);
    Divides(v, Limit(n), 0, v);
    assert (Little(n, v) + rest)[..n] == Little(n, v);
    assert (Little(n, v) + rest)[n..] == rest;
  }

  lemma Limits()
    ensures Limit(1) == 0x100 && Limit(2) == 0x1_0000 && Limit(4) == 0x1_0000_0000
            && Limit(8) == 0x1_0000_0000_0000_0000
  {
    assert Limit(3) == 0x100_0000;
    assert Limit(6) == 0x1_0000_0000_0000;
  }

  lemma AdvanceBack(d: nat, rest: seq<nat>)
    requires d < 0x1_0000_0000
    ensures Encoded(Advance(d)) != [] && ReadCfi(Encoded(Advance(d)) + rest) == Done(Some(Advance(d)), rest)
  {
    hide Little, FromLittle, Uleb, ReadUleb, Limit, ReadLittle;
    var s := Encoded(Advance(d)) + rest;
    Limits();
    if d < 0x40 {
      assert s[1..] == rest;
    } else {
      var n := if d < 0x100 then 1 else if d < 0x1_0000 then 2 else 4;
      assert s[1..] == Little(n, d) + rest;
      ReadLittleBack(n, d, rest);
    }
  }

  lemma DefCfaBack(reg: nat, off: nat, rest: seq<nat>)
    ensures ReadCfi(Encoded(DefCfa(reg, off)) + rest) == Done(Some(DefCfa(reg, off)), rest)
  {
    hide Uleb, ReadUleb;
    var s := Encoded(DefCfa(reg, off)) + rest;
    assert s[1..] == Uleb(reg) + (Uleb(off) + rest);
    UlebBack(reg, Uleb(off) + rest);
    UlebBack(off, rest);
  }

  lemma DefOffsetBack(off: nat, rest: seq<nat>)
    ensures ReadCfi(Encoded(DefOffset(off)) + rest) == Done(Some(DefOffset(off)), rest)
  {
    hide Uleb, ReadUleb;
    assert (Encoded(DefOffset(off)) + rest)[1..] == Uleb(off) + rest;
    UlebBack(off, rest);
  }

  lemma SavedBack(reg: nat, at: nat, rest: seq<nat>)
    requires reg < 64
    ensures ReadCfi(Encoded(Saved(reg, at)) + rest) == Done(Some(Saved(reg, at)), rest)
  {
    hide Uleb, ReadUleb, SavedTag;
    SavedTags(reg);
    assert (Encoded(Saved(reg, at)) + rest)[1..] == Uleb(at) + rest;
    UlebBack(at, rest);
  }

  /** Is what is read no instruction, or another one? */
  predicate Lost(c: Cfi, r: Read<Option<Cfi>>) {
    r.Bad? || (r.value.Some? && r.value.value != c)
  }

  lemma AdvanceLost(d: nat, rest: seq<nat>)
    requires d >= 0x1_0000_0000
    ensures Lost(Advance(d), ReadCfi(Encoded(Advance(d)) + rest))
  {
    hide Little, FromLittle, Uleb, ReadUleb, Limit;
    var s := Encoded(Advance(d)) + rest;
    Limits();
    LittleBack(4, d);
    DivMod(d, 0x1_0000_0000);
    assert s[1..] == Little(4, d) + rest;
    assert s[1..][..4] == Little(4, d);
  }

  lemma SavedLost(reg: nat, at: nat, rest: seq<nat>)
    requires reg >= 64
    ensures Lost(Saved(reg, at), ReadCfi(Encoded(Saved(reg, at)) + rest))
  {
    hide Uleb, ReadUleb, SavedTag;
    SavedTags(reg);
    assert (Encoded(Saved(reg, at)) + rest)[1..] == Uleb(at) + rest;
  }

  /** One instruction is read back, and what follows is left, if and only if the encoding has room
      for it: otherwise nothing is read, or another instruction. */
  lemma CfiBack(c: Cfi, rest: seq<nat>)
    ensures Encoded(c) != []
    ensures var r := ReadCfi(Encoded(c) + rest); if Encodable(c) then r == Done(Some(c), rest) else Lost(c, r)
  {
    NotEmpty(c);
    hide Encoded, ReadCfi;
    match c
    case Advance(d) => if Encodable(c) { AdvanceBack(d, rest); } else { AdvanceLost(d, rest); }
    case DefCfa(reg, off) => DefCfaBack(reg, off, rest);
    case DefOffset(off) => DefOffsetBack(off, rest);
    case Saved(reg, at) => if Encodable(c) { SavedBack(reg, at, rest); } else { SavedLost(reg, at, rest); }
  }

  lemma NotEmpty(c: Cfi)
    ensures Encoded(c) != []
  {}

  function Zeros(n: nat): (s: seq<nat>)
    ensures |s| == n
  {
    seq(n, _ => 0)
  }

  lemma {:induction false} PaddingReads(n: nat)
    ensures ReadAll(Zeros(n)) == Some([])
  {
    if n > 0 {
      assert Zeros(n)[1..] == Zeros(n - 1);
      PaddingReads(n - 1);
    }
  }

  predicate AllEncodable(cs: seq<Cfi>) { forall c :: c in cs ==> Encodable(c) }

  /** A sequence of instructions is read back, padding after it or not, if and only if each of
      them is. */
  lemma {:induction false} AllBack(cs: seq<Cfi>, n: nat)
    ensures ReadAll(AllEncoded(cs) + Zeros(n)) == Some(cs) <==> AllEncodable(cs)
  {
    hide Encoded, ReadCfi, Encodable;
    if cs == [] {
      PaddingReads(n);
      assert AllEncoded(cs) + Zeros(n) == Zeros(n);
    } else {
      var rest := AllEncoded(cs[1..]) + Zeros(n);
      assert AllEncoded(cs) + Zeros(n) == Encoded(cs[0]) + rest;
      CfiBack(cs[0], rest);
      AllBack(cs[1..], n);
      assert [cs[0]] + cs[1..] == cs;
    }
  }

  // ---- Places in the code ----

  /** What the translator asks for, with the places in the code themselves. */
  datatype Note = Here(offset: nat) | Stack(off: nat) | Kept(reg: nat, at: nat)

  /** delta = offset - lastOffset, in 64 bits. */
  function Delta(offset: nat, last: nat): nat { (offset - last) % 0x1_0000_0000_0000_0000 }

  function Cfis(notes: seq<Note>, last: nat): seq<Cfi> {
    if notes == [] then []
    else match notes[0]
      case Here(offset) => [Advance(Delta(offset, last))] + Cfis(notes[1..], offset)
      case Stack(off) => [DefOffset(off)] + Cfis(notes[1..], last)
      case Kept(reg, at) => [Saved(reg, at)] + Cfis(notes[1..], last)
  }

  /** The notes a reader makes of the instructions. */
  function Notes(cs: seq<Cfi>, last: nat): seq<Note> {
    if cs == [] then []
    else match cs[0]
      case Advance(d) => [Here(last + d)] + Notes(cs[1..], last + d)
      case DefOffset(off) => [Stack(off)] + Notes(cs[1..], last)
      case Saved(reg, at) => [Kept(reg, at)] + Notes(cs[1..], last)
      case DefCfa(_, _) => Notes(cs[1..], last)
  }

  /** The places do not go back, nor forward by 2^32, and the registers are below 64. */
  predicate Orderly(notes: seq<Note>, last: nat) {
    notes == [] ||
    match notes[0]
    case Here(offset) => last <= offset < last + 0x1_0000_0000 && Orderly(notes[1..], offset)
    case Stack(_) => Orderly(notes[1..], last)
    case Kept(reg, _) => reg < 64 && Orderly(notes[1..], last)
  }

  lemma {:induction false} NotesBack(notes: seq<Note>, last: nat)
    requires Orderly(notes, last)
    ensures AllEncodable(Cfis(notes, last))
    ensures Notes(Cfis(notes, last), last) == notes
  {
    if notes != [] {
      var cs := Cfis(notes, last);
      match notes[0]
      case Here(offset) =>
        Divides(offset - last, 0x1_0000_0000_0000_0000, 0, offset - last);
        NotesBack(notes[1..], offset);
        assert cs[1..] == Cfis(notes[1..], offset);
      case Stack(off) =>
        NotesBack(notes[1..], last);
        assert cs[1..] == Cfis(notes[1..], last);
      case Kept(reg, at) =>
        NotesBack(notes[1..], last);
        assert cs[1..] == Cfis(notes[1..], last);
    }
  }

  /** The bytes written for orderly notes are read back as those notes. */
  lemma WrittenNotes(notes: seq<Note>, last: nat, n: nat)
    requires Orderly(notes, last)
    ensures var r := ReadAll(AllEncoded(Cfis(notes, last)) + Zeros(n));
            r.Some? && Notes(r.value, last) == notes
  {
    hide Orderly, ReadAll, AllEncoded, Cfis, Notes;
    NotesBack(notes, last);
    AllBack(Cfis(notes, last), n);
  }
}
