/** Powers of two, truncation and bit-wise or on natural numbers. */
module Powers {

  function Pow2(k: nat): (p: nat)
    ensures p > 0
  {
    if k == 0 then 1 else 2 * Pow2(k - 1)
  }

  lemma {:induction false} Pow2Sum(j: nat, k: nat)
    ensures Pow2(j + k) == Pow2(j) * Pow2(k)
  {
    if j > 0 {
      Pow2Sum(j - 1, k);
    }
  }

  lemma {:induction false} Pow2Grows(j: nat, k: nat)
    requires j <= k
    ensures Pow2(j) <= Pow2(k)
  {
    if j < k {
      Pow2Grows(j, k - 1);
    }
  }

  lemma Pow2Values()
    ensures Pow2(8) == 0x100 && Pow2(16) == 0x1_0000 && Pow2(32) == 0x1_0000_0000
  {
    assert Pow2(4) == 16;
    Pow2Sum(4, 4);
    Pow2Sum(8, 8);
    Pow2Sum(16, 16);
  }

  function Num(b: bool): nat { if b then 1 else 0 }

  // ---- Products ----

  lemma {:induction false} AtLeast(a: int, d: int)
    requires a >= 1 && d > 0
    ensures a * d >= d
  {
    if a > 1 {
      AtLeast(a - 1, d);
      assert a * d == (a - 1) * d + d;
    }
  }

  lemma MulSub(a: int, b: int, d: int)
    ensures (a - b) * d == a * d - b * d
  {}

  lemma MulAdd(a: int, b: int, d: int)
    ensures (a + b) * d == a * d + b * d
  {}

  lemma MulMul(a: int, b: int, c: int)
    ensures (a * b) * c == a * (b * c)
  {}

  lemma MulPos(a: int, b: int)
    requires a > 0 && b > 0
    ensures a * b > 0
  {}

  lemma MulNat(a: int, b: int)
    requires a >= 0 && b >= 0
    ensures a * b >= 0
  {}

  /** Two digits, r to the base d and s to the base e. */
  lemma TwoDigits(d: int, e: int, r: int, s: int)
    requires 0 <= r < d && 0 <= s < e
    ensures 0 <= s * d + r < d * e
  {
    MulNat(s, d);
    AtLeast(e - s, d);
    MulSub(e, s, d);
  }

  lemma Compare(a: int, b: int, e: int)
    requires e > 0
    ensures a * e < b * e <==> a < b
  {
    MulSub(a, b, e);
    MulSub(b, a, e);
    if a < b {
      AtLeast(b - a, e);
    } else {
      MulNat(a - b, e);
    }
  }

  // ---- Division and remainder ----

  lemma Unique(d: int, q: int, r: int, t: int, m: int)
    requires q * d + r == t * d + m && 0 <= r < d && 0 <= m < d
    ensures q == t && r == m
  {
    if q > t {
      MulSub(q, t, d);
      AtLeast(q - t, d);
    } else if q < t {
      MulSub(t, q, d);
      AtLeast(t - q, d);
    }
  }

  lemma DivMod(x: int, d: int)
    requires d > 0
    ensures x == (x / d) * d + x % d && 0 <= x % d < d
  {}

  /** The quotient and the remainder are determined. */
  lemma Divides(x: int, d: int, q: int, r: int)
    requires d > 0 && x == q * d + r && 0 <= r < d
    ensures x / d == q && x % d == r
  {
    DivMod(x, d);
    Unique(d, q, r, x / d, x % d);
  }

  /** Quotients nought and minus one. */
  lemma SmallQuotient(x: int, d: int)
    requires d > 0
    ensures x / d == 0 <==> 0 <= x < d
    ensures x / d == -1 <==> 0 <= x + d && x < 0
  {
    if 0 <= x < d {
      Divides(x, d, 0, x);
    } else if 0 <= x + d && x < 0 {
      Divides(x, d, -1, x + d);
    } else {
      DivMod(x, d);
    }
  }

  function Quot(v: nat, d: nat): nat
    requires d > 0
  {
    v / d
  }

  function Prod(v: nat, p: nat): nat {
    MulNat(v, p);
    v * p
  }

  /** Dividing twice. */
  lemma DivDiv(x: int, d: int, e: int)
    requires d > 0 && e > 0
    ensures d * e > 0 && x / d / e == x / (d * e)
  {
    MulPos(d, e);
    var q, r := x / d, x % d;
    DivMod(x, d);
    DivMod(q, e);
    MulAdd(q / e * e, q % e, d);
    MulMul(q / e, e, d);
    TwoDigits(d, e, r, q % e);
    Divides(x, d * e, q / e, q % e * d + r);
  }

  /** A multiple of the divisor comes out of the quotient. */
  lemma ModAdds(x: int, k: int, d: int)
    requires d > 0
    ensures (x + k * d) % d == x % d && (x + k * d) / d == x / d + k
  {
    DivMod(x, d);
    MulAdd(x / d, k, d);
    Divides(x + k * d, d, x / d + k, x % d);
  }

  /** Scaling both sides. */
  lemma ScaledMod(x: int, d: int, e: int)
    requires d > 0 && e > 0
    ensures d * e > 0 && (x * e) % (d * e) == (x % d) * e && (x * e) / (d * e) == x / d
  {
    MulPos(d, e);
    DivMod(x, d);
    var q, r := x / d, x % d;
    MulAdd(q * d, r, e);
    MulMul(q, d, e);
    TwoDigits(e, d, 0, r);
    Divides(x * e, d * e, q, r * e);
  }

  // ---- Or ----

  /** The bit-wise or of two numbers. */
  function Or(a: nat, b: nat): nat
    decreases a + b
  {
    if a == 0 then b else if b == 0 then a
    else 2 * Or(a / 2, b / 2) + (if a % 2 == 1 || b % 2 == 1 then 1 else 0)
  }

  /** Numbers with no bit in common: the or is the sum. */
  lemma {:induction false} OrApart(a: nat, b: nat, k: nat)
    requires a % Pow2(k) == 0 && b < Pow2(k)
    ensures Or(a, b) == a + b
    decreases k
  {
    if k > 0 && a > 0 && b > 0 {
      var p := Pow2(k - 1);
      DivMod(a, 2 * p);
      var q := a / (2 * p);
      assert a == 2 * (q * p) by { assert q * (2 * p) == 2 * (q * p); }
      assert a / 2 == q * p;
      ModAdds(0, q, p);
      OrApart(a / 2, b / 2, k - 1);
    } else if k == 0 {
      assert b == 0;
    }
  }

  lemma {:induction false} OrSym(a: nat, b: nat)
    ensures Or(a, b) == Or(b, a)
    decreases a + b
  {
    if a != 0 && b != 0 {
      OrSym(a / 2, b / 2);
    }
  }

  lemma OrBelow(a: nat, b: nat, k: nat)
    requires a < Pow2(k) && b % Pow2(k) == 0
    ensures Or(a, b) == a + b
  {
    OrSym(a, b);
    OrApart(b, a, k);
  }
}
