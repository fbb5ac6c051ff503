/** The numbers the translator writes, byte by byte. */
module CallFrameBytes {
  import opened CallFrame
  import opened Powers

  lemma NextLimit(v: int, p: nat)
    requires p > 0
    ensures v / 0x100 / p == v / (0x100 * p)
  {
    DivMod(v, 0x100);
    DivMod(v / 0x100, p);
    var q, s, r := v / 0x100 / p, v / 0x100 % p, v % 0x100;
    MulMul(q, p, 0x100);
    MulAdd(q * p, s, 0x100);
    assert v == q * (0x100 * p) + (0x100 * s + r);
    Divides(v, 0x100 * p, q, 0x100 * s + r);
  }

  /** Byte k of a number of n bytes, the lowest first. */
  lemma {:induction false} LittleDigits(n: nat, v: nat, k: nat)
    requires k < n
    ensures Little(n, v)[k] == v / Limit(k) % 0x100
  {
    if k > 0 {
      LittleDigits(n - 1, v / 0x100, k - 1);
      NextLimit(v, Limit(k - 1));
    }
  }

  /** Byte k of ULEB128: seven bits, and 128 if the number goes on. */
  lemma {:induction false} UlebDigits(v: nat, k: nat)
    requires k < |Uleb(v)|
    ensures k + 1 < |Uleb(v)| <==> v / Place(k) >= 128
    ensures Uleb(v)[k] == if v / Place(k) >= 128 then v / Place(k) % 128 + 128 else v / Place(k)
  {
    assert Place(0) == 1;
    if k > 0 {
      assert Uleb(v)[1..] == Uleb(v / 128);
      UlebDigits(v / 128, k - 1);
      NextPlace(v, Place(k - 1));
    }
  }

  /** Byte k of a negative number, as WriteSLEB128 has it: eight bits, and seven of the last. */
  lemma {:induction false} SlebDigits(v: int, k: nat)
    requires v < 0 && k < |Sleb(v)|
    ensures k + 1 < |Sleb(v)| <==> v / Place(k) <= -128
    ensures Sleb(v)[k] == v / Place(k) % (if v / Place(k) <= -128 then 0x100 else 128)
    decreases -v
  {
    assert Place(0) == 1;
    if k > 0 {
      assert Sleb(v)[1..] == Sleb(v / 128);
      SlebDigits(v / 128, k - 1);
      NextPlace(v, Place(k - 1));
    }
  }
}
