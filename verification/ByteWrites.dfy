/**
 Words and longs on the byte bus, big-endian, one byte after the other: an access that faults
 has already stored the bytes before.  A list of writes is what a store amounts to.
 */
module ByteWrites {
  import opened Addresses
  import opened ByteBus

  datatype Size = W | L

  /** How many bytes. */
  function Bytes32(size: Size): bv32 { if size == W then 2 else 4 }

  datatype Write = Write(l: Loc, b: bv8)

  /** Byte j of a long, the first being the most significant. */
  function Part(v: bv32, j: bv5): bv8 { ((v >> (24 - 8 * j)) & 0xFF) as bv8 }

  function Joined(b0: bv8, b1: bv8, b2: bv8, b3: bv8): bv32 {
    ((b0 as bv32) << 24) | ((b1 as bv32) << 16) | ((b2 as bv32) << 8) | (b3 as bv32)
  }

  lemma JoinParts(v: bv32)
    ensures Joined(Part(v, 0), Part(v, 1), Part(v, 2), Part(v, 3)) == v
  {}

  /** The byte j places after a. */
  function Spot(a: bv32, j: bv32): Loc { At(Along(a, j)) }

  /** WriteW stores the low half. */
  function Writes(size: Size, a: bv32, v: bv32): seq<Write> {
    if size == W then [Write(Spot(a, 0), Part(v, 2)), Write(Spot(a, 1), Part(v, 3))]
    else [Write(Spot(a, 0), Part(v, 0)), Write(Spot(a, 1), Part(v, 1)),
          Write(Spot(a, 2), Part(v, 2)), Write(Spot(a, 3), Part(v, 3))]
  }

  function Apply(w: seq<Write>, m: Bytes): Bytes
    decreases |w|
  {
    if w == [] then m else Apply(w[1..], m[w[0].l := w[0].b])
  }

  /** How many writes go through before one meets a place that cannot be written. */
  function Reached(w: seq<Write>, access: set<Loc>): (n: nat)
    ensures n <= |w|
    ensures forall k :: 0 <= k < n ==> w[k].l in access
    ensures n < |w| ==> w[n].l !in access
  {
    if w == [] || w[0].l !in access then 0 else 1 + Reached(w[1..], access)
  }

  function Locs(w: seq<Write>): set<Loc> { set k | 0 <= k < |w| :: w[k].l }

  lemma {:induction false} ApplyAppend(w: seq<Write>, v: seq<Write>, m: Bytes)
    ensures Apply(w + v, m) == Apply(v, Apply(w, m))
    decreases |w|
  {
    if w == [] {
      assert w + v == v;
    } else {
      assert (w + v)[1..] == w[1..] + v;
      ApplyAppend(w[1..], v, m[w[0].l := w[0].b]);
    }
  }

  lemma {:induction false} ReachedAppend(w: seq<Write>, v: seq<Write>, access: set<Loc>)
    ensures Reached(w + v, access)
            == if Reached(w, access) == |w| then |w| + Reached(v, access) else Reached(w, access)
    decreases |w|
  {
    if w == [] {
      assert w + v == v;
    } else {
      assert (w + v)[1..] == w[1..] + v;
      ReachedAppend(w[1..], v, access);
    }
  }

  /** Two memories alike outside some places. */
  ghost predicate Alike(m: Bytes, n: Bytes, except: set<Loc>) {
    forall l :: l !in except ==> (l in m <==> l in n) && (l in m ==> m[l] == n[l])
  }

  /** Writes wipe out any difference in the places they write. */
  lemma {:induction false} ApplySame(w: seq<Write>, m: Bytes, n: Bytes)
    requires Alike(m, n, Locs(w))
    ensures Apply(w, m) == Apply(w, n)
    decreases |w|
  {
    if w == [] {
      assert Locs(w) == {};
      assert forall l :: (l in m <==> l in n) && (l in m ==> m[l] == n[l]);
      assert m == n;
    } else {
      var m', n' := m[w[0].l := w[0].b], n[w[0].l := w[0].b];
      forall l | l !in Locs(w[1..]) ensures (l in m' <==> l in n') && (l in m' ==> m'[l] == n'[l]) {
        if l != w[0].l {
          LocsTail(w, l);
        }
      }
      ApplySame(w[1..], m', n');
    }
  }

  lemma LocsTail(w: seq<Write>, l: Loc)
    requires w != []
    ensures l in Locs(w) <==> l == w[0].l || l in Locs(w[1..])
  {
    if l in Locs(w) {
      var k :| 0 <= k < |w| && w[k].l == l;
      if k > 0 {
        assert w[1..][k - 1].l == l;
      }
    }
    if l == w[0].l {
      assert w[0].l == l;
    }
    if l in Locs(w[1..]) {
      var k :| 0 <= k < |w| - 1 && w[1..][k].l == l;
      assert w[k + 1].l == l;
    }
  }

  lemma {:induction false} ApplyOutside(w: seq<Write>, m: Bytes)
    ensures Alike(Apply(w, m), m, Locs(w))
    decreases |w|
  {
    if w != [] {
      ApplyOutside(w[1..], m[w[0].l := w[0].b]);
      forall l | l !in Locs(w)
        ensures (l in Apply(w, m) <==> l in m) && (l in m ==> Apply(w, m)[l] == m[l])
      {
        LocsTail(w, l);
      }
    }
  }

  /** Doing all the writes after some of them is doing all of them. */
  lemma ApplyAgain(w: seq<Write>, n: nat, m: Bytes)
    requires n <= |w|
    ensures Apply(w, Apply(w[..n], m)) == Apply(w, m)
  {
    ApplyOutside(w[..n], m);
    forall l | l in Locs(w[..n]) ensures l in Locs(w) {
      var k :| 0 <= k < n && w[..n][k].l == l;
      assert w[k].l == l;
    }
    assert Alike(Apply(w[..n], m), m, Locs(w));
    ApplySame(w, Apply(w[..n], m), m);
  }

  // ---- On the bus ----

  /** The places that can be written. */
  function Access(bus: Bus): set<Loc>
    reads bus
  {
    set l | l in bus.bytes && l in bus.writable
  }

  method WriteOne(bus: Bus, l: Loc, b: bv8, ghost w: seq<Write>, ghost k: nat, ghost m: Bytes, ghost access: set<Loc>)
    returns (ok: bool)
    requires k < |w| && w[k] == Write(l, b) && access == Access(bus) && k <= Reached(w, access)
    requires bus.bytes == Apply(w[..k], m)
    modifies bus
    ensures Access(bus) == access
    ensures if ok then k + 1 <= Reached(w, access) && bus.bytes == Apply(w[..k + 1], m)
            else Reached(w, access) == k && bus.bytes == Apply(w[..k], m)
  {
    ok := bus.WriteB(l, b);
    assert w[..k + 1] == w[..k] + [w[k]];
    ApplyAppend(w[..k], [w[k]], m);
    assert Apply([w[k]], Apply(w[..k], m)) == Apply(w[..k], m)[l := b];
  }

  /** WriteW and WriteL: the bytes in order, up to the first that faults. */
  method WriteV(bus: Bus, size: Size, a: bv32, v: bv32) returns (ok: bool)
    modifies bus
    ensures Access(bus) == old(Access(bus))
    ensures var w, n := Writes(size, a, v), Reached(Writes(size, a, v), old(Access(bus)));
            bus.bytes == Apply(w[..n], old(bus.bytes)) && (ok <==> n == |w|)
  {
    hide Part, Along;
    ghost var w, m, access := Writes(size, a, v), bus.bytes, Access(bus);
    assert w[..0] == [];
    if size == W {
      ok := WriteOne(bus, Spot(a, 0), Part(v, 2), w, 0, m, access);
      if !ok { return; }
      ok := WriteOne(bus, Spot(a, 1), Part(v, 3), w, 1, m, access);
    } else {
      ok := WriteOne(bus, Spot(a, 0), Part(v, 0), w, 0, m, access);
      if !ok { return; }
      ok := WriteOne(bus, Spot(a, 1), Part(v, 1), w, 1, m, access);
      if !ok { return; }
      ok := WriteOne(bus, Spot(a, 2), Part(v, 2), w, 2, m, access);
      if !ok { return; }
      ok := WriteOne(bus, Spot(a, 3), Part(v, 3), w, 3, m, access);
    }
  }
}
