/**
 Decimal arithmetic on bytes of two digits: ABCD, SBCD and NBCD, and chains of them through
 X over numbers of any length.
 */
module Bcd {
  import opened Powers
  import opened CpuFlags

  predicate Byte(v: nat) { v < 0x100 }

  /** Both digits are decimal. */
  predicate Valid(v: nat) { v < 0x100 && v / 16 < 10 && v % 16 < 10 }

  function Bcd2Bin(v: nat): nat { v / 16 * 10 + v % 16 }

  /** (v / 10) << 4 | (v % 10), in a byte. */
  function Bin2Bcd(v: nat): nat { Or(v / 10 * 16, v % 10) % 0x100 }

  lemma Bin2BcdIs(v: nat)
    ensures Bin2Bcd(v) == (v / 10 * 16 + v % 10) % 0x100
  {
    assert Pow2(2) == 4 && Pow2(4) == 16;
    ModAdds(0, v / 10, 16);
    OrApart(v / 10 * 16, v % 10, 4);
  }

  /** The two conversions are inverse to each other between 0..99 and the valid bytes. */
  lemma BinBack(v: nat)
    requires v < 100
    ensures Valid(Bin2Bcd(v)) && Bcd2Bin(Bin2Bcd(v)) == v
  {
    var q, r := v / 10, v % 10;
    Bin2BcdIs(v);
    Divides(q * 16 + r, 16, q, r);
    Divides(q * 16 + r, 0x100, 0, q * 16 + r);
    hide Bin2Bcd;
  }

  lemma BcdBack(b: nat)
    requires Valid(b)
    ensures Bcd2Bin(b) < 100 && Bin2Bcd(Bcd2Bin(b)) == b
  {
    var q, r := b / 16, b % 16;
    Bin2BcdIs(q * 10 + r);
    Divides(q * 10 + r, 10, q, r);
    Divides(b, 0x100, 0, b);
    hide Bin2Bcd;
  }

  // ---- One byte ----

  /** The byte stored, and X (and C) after it. */
  datatype Digits = Digits(r: nat, x: bool)

  function Abcd(v1: nat, v2: nat, x: bool): Digits {
    var d := Bcd2Bin(v1) + Bcd2Bin(v2) + Num(x);
    if d >= 100 then Digits(Bin2Bcd(d - 100), true) else Digits(Bin2Bcd(d), false)
  }

  function Sbcd(v1: nat, v2: nat, x: bool): Digits {
    var d := Bcd2Bin(v1) - Bcd2Bin(v2) - Num(x);
    if d < 0 then Digits(Bin2Bcd(if d + 100 < 0 then (d + 100) % 0x100 else d + 100), true)
    else Digits(Bin2Bcd(d), false)
  }

  function Nbcd(v: nat, x: bool): Digits {
    var d := (100 - Bcd2Bin(v) - Num(x)) % 0x100;
    Digits(Bin2Bcd(if d == 100 then 0 else d), d != 100)
  }

  lemma AbcdByte(v1: nat, v2: nat, x: bool)
    requires Valid(v1) && Valid(v2)
    ensures var s := Abcd(v1, v2, x);
            && Valid(s.r)
            && Bcd2Bin(v1) + Bcd2Bin(v2) + Num(x) == Bcd2Bin(s.r) + 100 * Num(s.x)
            && Sbcd(s.r, v2, x) == Digits(v1, s.x)
  {
    hide Bcd2Bin, Bin2Bcd, Valid;
    BcdBack(v1);
    BcdBack(v2);
    var d := Bcd2Bin(v1) + Bcd2Bin(v2) + Num(x);
    BinBack(if d >= 100 then d - 100 else d);
  }

  lemma SbcdByte(v1: nat, v2: nat, x: bool)
    requires Valid(v1) && Valid(v2)
    ensures var s := Sbcd(v1, v2, x);
            && Valid(s.r)
            && Bcd2Bin(v1) - Bcd2Bin(v2) - Num(x) == Bcd2Bin(s.r) - 100 * Num(s.x)
            && Abcd(s.r, v2, x) == Digits(v1, s.x)
  {
    hide Bcd2Bin, Bin2Bcd, Valid;
    BcdBack(v1);
    BcdBack(v2);
    var d := Bcd2Bin(v1) - Bcd2Bin(v2) - Num(x);
    BinBack(if d < 0 then d + 100 else d);
  }

  /** Negating is subtracting from zero. */
  lemma NbcdIsSbcd(v: nat, x: bool)
    requires Valid(v)
    ensures Nbcd(v, x) == Sbcd(0, v, x)
  {
    hide Bin2Bcd;
    BcdBack(v);
    var d := 100 - Bcd2Bin(v) - Num(x);
    Divides(d, 0x100, 0, d);
    assert Bcd2Bin(0) == 0;
  }

  lemma ZeroByte(v: nat)
    requires Valid(v)
    ensures Bcd2Bin(v) == 0 <==> v == 0
  {}

  method DoAbcd(cpu: Cpu, v1: nat, v2: nat, oldX: bool) returns (r: nat)
    requires Byte(v1) && Byte(v2)
    modifies cpu
    ensures Digits(r, cpu.X) == Abcd(v1, v2, oldX) && cpu.C == cpu.X
    ensures cpu.Z == (old(cpu.Z) && Bcd2Bin(v1) + Bcd2Bin(v2) + Num(oldX) == 100 * Num(cpu.X))
    ensures Valid(v1) && Valid(v2) ==> cpu.Z == (old(cpu.Z) && r == 0)
    ensures cpu.N == old(cpu.N) && cpu.V == old(cpu.V)
  {
    hide Bcd2Bin, Bin2Bcd;
    var d := Bcd2Bin(v1);
    d := d + Bcd2Bin(v2) + Num(oldX);
    cpu.C := d >= 100;
    cpu.X := cpu.C;
    if cpu.X {
      d := d - 100;
    }
    if d != 0 {
      cpu.Z := false;
    }
    r := Bin2Bcd(d);
    if Valid(v1) && Valid(v2) {
      BcdBack(v1);
      BcdBack(v2);
      BinBack(d);
      ZeroByte(r);
    }
  }

  method DoSbcd(cpu: Cpu, v1: nat, v2: nat, oldX: bool) returns (r: nat)
    requires Byte(v1) && Byte(v2)
    modifies cpu
    ensures Digits(r, cpu.X) == Sbcd(v1, v2, oldX) && cpu.C == cpu.X
    ensures cpu.Z == (old(cpu.Z) && Bcd2Bin(v1) - Bcd2Bin(v2) - Num(oldX) == -100 * Num(cpu.X))
    ensures Valid(v1) && Valid(v2) ==> cpu.Z == (old(cpu.Z) && r == 0)
    ensures cpu.N == old(cpu.N) && cpu.V == old(cpu.V)
  {
    hide Bcd2Bin, Bin2Bcd;
    var d := Bcd2Bin(v1) - Bcd2Bin(v2) - Num(oldX);
    cpu.C := d < 0;
    if cpu.C {
      d := d + 100;
    }
    cpu.X := cpu.C;
    if d != 0 {
      cpu.Z := false;
    }
    r := Bin2Bcd(if d < 0 then d % 0x100 else d);
    if Valid(v1) && Valid(v2) {
      BcdBack(v1);
      BcdBack(v2);
      BinBack(d);
      ZeroByte(r);
    }
  }

  /** 100 less a byte's number, in a byte. */
  lemma NegatedByte(v: nat, x: bool)
    requires Byte(v)
    ensures var e := 100 - Bcd2Bin(v) - Num(x);
            e % 0x100 == if e < 0 then e + 0x100 else e
    ensures 0 <= Bcd2Bin(v) <= 165
  {
    var e := 100 - Bcd2Bin(v) - Num(x);
    assert 0 <= v / 16 < 16 && 0 <= v % 16 < 16;
    if e < 0 {
      Divides(e, 0x100, -1, e + 0x100);
    } else {
      Divides(e, 0x100, 0, e);
    }
  }

  method DoNbcd(cpu: Cpu, v: nat, oldX: bool) returns (r: nat)
    requires Byte(v)
    modifies cpu
    ensures Digits(r, cpu.X) == Nbcd(v, oldX) && cpu.C == cpu.X
    ensures cpu.Z == (old(cpu.Z) && Bcd2Bin(v) + Num(oldX) == 100 * Num(cpu.X))
    ensures Valid(v) ==> cpu.Z == (old(cpu.Z) && r == 0)
    ensures cpu.N == old(cpu.N) && cpu.V == old(cpu.V)
  {
    hide Bcd2Bin, Bin2Bcd;
    var d := Bcd2Bin(v);
    NegatedByte(v, oldX);
    d := (100 - d - Num(oldX)) % 0x100;
    cpu.C := d != 100;
    cpu.X := cpu.C;
    if d == 100 {
      d := 0;
    }
    if d != 0 {
      cpu.Z := false;
    }
    r := Bin2Bcd(d);
    if Valid(v) {
      BcdBack(v);
      BinBack(d);
      ZeroByte(r);
    }
  }

  // ---- Numbers of any length ----

  ghost predicate AllValid(s: seq<nat>) { forall k :: 0 <= k < |s| ==> Valid(s[k]) }

  /** The number whose bytes are s, the lowest first. */
  function Value(s: seq<nat>): nat {
    if s == [] then 0 else Bcd2Bin(s[0]) + 100 * Value(s[1..])
  }

  /** 100^n. */
  function Hundreds(n: nat): nat { if n == 0 then 1 else 100 * Hundreds(n - 1) }

  datatype Op = Add | Subtract

  function OneByte(op: Op, v1: nat, v2: nat, x: bool): Digits {
    match op
    case Add => Abcd(v1, v2, x)
    case Subtract => Sbcd(v1, v2, x)
  }

  /** The bytes from the lowest to the highest, each taking X from the one before. */
  function Chain(op: Op, a: seq<nat>, b: seq<nat>, x: bool): (seq<nat>, bool)
    requires |a| == |b|
  {
    if a == [] then ([], x)
    else
      var d := OneByte(op, a[0], b[0], x);
      var (rest, x') := Chain(op, a[1..], b[1..], d.x);
      ([d.r] + rest, x')
  }

  /**
   A chain of ABCD adds and a chain of SBCD subtracts, modulo 100^n, with X the carry or the
   borrow; the digits stay decimal, and the same chain of the other instruction undoes it.
   */
  lemma {:induction false} ChainIs(op: Op, a: seq<nat>, b: seq<nat>, x: bool)
    requires |a| == |b| && AllValid(a) && AllValid(b)
    ensures var (r, x') := Chain(op, a, b, x);
            && |r| == |a| && AllValid(r)
            && (op.Add? ==> Value(a) + Value(b) + Num(x) == Value(r) + Num(x') * Hundreds(|a|))
            && (op.Subtract? ==> Value(a) - Value(b) - Num(x) == Value(r) - Num(x') * Hundreds(|a|))
            && Chain(if op.Add? then Subtract else Add, r, b, x) == (a, x')
  {
    hide Abcd, Sbcd, Bcd2Bin, Valid;
    if a != [] {
      AbcdByte(a[0], b[0], x);
      SbcdByte(a[0], b[0], x);
      var d := OneByte(op, a[0], b[0], x);
      ChainIs(op, a[1..], b[1..], d.x);
      var (rest, x') := Chain(op, a[1..], b[1..], d.x);
      assert ([d.r] + rest)[1..] == rest;
      assert a == [a[0]] + a[1..];
      MulMul(Num(x'), 100, Hundreds(|a| - 1));
    }
  }

  lemma {:induction false} ValueBound(s: seq<nat>)
    requires AllValid(s)
    ensures Value(s) < Hundreds(|s|)
  {
    if s != [] {
      BcdBack(s[0]);
      ValueBound(s[1..]);
    }
  }

  /** The result modulo 100^n, and X set just when it does not fit. */
  lemma ChainModulo(op: Op, a: seq<nat>, b: seq<nat>, x: bool)
    requires |a| == |b| && AllValid(a) && AllValid(b)
    ensures var (r, x') := Chain(op, a, b, x);
            var exact := if op.Add? then Value(a) + Value(b) + Num(x) else Value(a) - Value(b) - Num(x);
            var m := Hundreds(|a|);
            m > 0 && Value(r) == exact % m && (x' <==> !(0 <= exact < m))
  {
    hide Chain, Value;
    var (r, x') := Chain(op, a, b, x);
    ChainIs(op, a, b, x);
    ValueBound(a);
    ValueBound(b);
    ValueBound(r);
    var m := Hundreds(|a|);
    Divides(if op.Add? then Value(a) + Value(b) + Num(x) else Value(a) - Value(b) - Num(x), m,
            if !x' then 0 else if op.Add? then 1 else -1, Value(r));
  }

  ghost predicate AllZero(s: seq<nat>) { forall k :: 0 <= k < |s| ==> s[k] == 0 }

  lemma {:induction false} ValueZero(s: seq<nat>)
    requires AllValid(s)
    ensures Value(s) == 0 <==> AllZero(s)
  {
    if s != [] {
      ZeroByte(s[0]);
      ValueZero(s[1..]);
      hide Valid, Bcd2Bin;
      assert AllZero(s) <==> s[0] == 0 && AllZero(s[1..]) by {
        assert s == [s[0]] + s[1..];
      }
    }
  }

  function Joined(front: seq<nat>, rest: (seq<nat>, bool)): (seq<nat>, bool) { (front + rest.0, rest.1) }

  lemma ChainStep(op: Op, s: seq<nat>, b: seq<nat>, front: seq<nat>, i: nat, x: bool)
    requires i < |s| == |b|
    ensures var d := OneByte(op, s[i], b[i], x);
            Joined(front, Chain(op, s[i..], b[i..], x)) == Joined(front + [d.r], Chain(op, s[i + 1..], b[i + 1..], d.x))
  {
    hide OneByte;
    assert s[i..][1..] == s[i + 1..] && b[i..][1..] == b[i + 1..];
    var d := OneByte(op, s[i], b[i], x);
    var rest := Chain(op, s[i + 1..], b[i + 1..], d.x).0;
    assert front + ([d.r] + rest) == (front + [d.r]) + rest;
  }

  lemma JoinedEnds(op: Op, rest: (seq<nat>, bool), front: seq<nat>, x: bool)
    ensures Joined([], rest) == rest
    ensures Joined(front, Chain(op, [], [], x)) == (front, x)
  {
    assert [] + rest.0 == rest.0 && front + [] == front;
  }

  lemma ZeroAppend(s: seq<nat>, v: nat)
    ensures AllZero(s + [v]) <==> AllZero(s) && v == 0
  {
    if AllZero(s + [v]) {
      assert (s + [v])[|s|] == v;
      assert forall k :: 0 <= k < |s| ==> (s + [v])[k] == s[k];
    }
  }

  lemma OneByteValid(op: Op, v1: nat, v2: nat, x: bool)
    requires Valid(v1) && Valid(v2)
    ensures Valid(OneByte(op, v1, v2, x).r)
  {
    hide Abcd, Sbcd;
    AbcdByte(v1, v2, x);
    SbcdByte(v1, v2, x);
  }

  /** ABCD or SBCD of two bytes, by the instruction. */
  method DoOne(cpu: Cpu, op: Op, v1: nat, v2: nat) returns (r: nat)
    requires Valid(v1) && Valid(v2)
    modifies cpu
    ensures Digits(r, cpu.X) == OneByte(op, v1, v2, old(cpu.X)) && Valid(r)
    ensures cpu.Z == (old(cpu.Z) && r == 0)
  {
    OneByteValid(op, v1, v2, cpu.X);
    hide Abcd, Sbcd;
    match op {
      case Add => r := DoAbcd(cpu, v1, v2, cpu.X);
      case Subtract => r := DoSbcd(cpu, v1, v2, cpu.X);
    }
  }

  /** ABCD or SBCD on every byte of two numbers, in place; X and Z go from byte to byte.  The two may
      be the same number. */
  method RunChain(cpu: Cpu, op: Op, a: array<nat>, b: array<nat>)
    requires a.Length == b.Length && AllValid(a[..]) && AllValid(b[..])
    modifies cpu, a
    ensures (a[..], cpu.X) == Chain(op, old(a[..]), old(b[..]), old(cpu.X))
    ensures cpu.Z == (old(cpu.Z) && Value(a[..]) == 0)
  {
    hide OneByte, Valid, Value, AllZero, Chain, Joined;
    ghost var s, t, x, z := a[..], b[..], cpu.X, cpu.Z;
    var i := 0;
    assert s[0..] == s && t[0..] == t && a[..0] == [];
    JoinedEnds(op, Chain(op, s, t, x), [], x);
    NoneZero();
    while i < a.Length
      invariant 0 <= i <= a.Length
      invariant forall k :: i <= k < a.Length ==> b[k] == t[k]
      invariant AllValid(a[..i]) && forall k :: i <= k < a.Length ==> a[k] == s[k]
      invariant Chain(op, s, t, x) == Joined(a[..i], Chain(op, s[i..], t[i..], cpu.X))
      invariant cpu.Z == (z && AllZero(a[..i]))
    {
      ghost var front := a[..i];
      ChainStep(op, s, t, front, i, cpu.X);
      a[i] := DoOne(cpu, op, a[i], b[i]);
      assert a[..i + 1] == front + [a[i]];
      ZeroAppend(front, a[i]);
      i := i + 1;
    }
    assert a[..i] == a[..] && s[i..] == [] && t[i..] == [];
    JoinedEnds(op, ([], false), a[..], cpu.X);
    ValueZero(a[..]);
  }

  lemma NoneZero()
    ensures AllZero([])
  {}
}
