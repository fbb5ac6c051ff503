/** The MOVEM handlers, each a loop over the sixteen bits of the register list. */
module MovemOps {
  import opened Addresses
  import opened ByteBus
  import opened ByteWrites
  import opened Movem

  class Processor {
    /** D0 to D7 and A0 to A7. */
    var r: seq<bv32>
    var ea: bv32
    var movemRun: bool
    var pc: bv32

    constructor (r: seq<bv32>)
      requires |r| == 16
      ensures this.r == r && !movemRun
    {
      this.r, ea, movemRun, pc := r, 0, false, 0;
    }

    function Snapshot(): State
      reads this
    {
      State(r, ea, movemRun, pc)
    }
  }

  // ---- Stores ----

  /** The writes so far are the first of all writes, and the rest follow from iteration i. */
  ghost predicate Midway(size: Size, decr: bool, mask: seq<bool>, r: seq<bv32>, ea: bv32, done: seq<Write>, a: bv32,
                         i: nat) {
    && |mask| == 16 && |r| == 16 && i <= 16
    && var (w, end) := StoreFrom(size, decr, mask, r, ea, 0);
       var (rest, e) := StoreFrom(size, decr, mask, r, a, i);
       w == done + rest && end == e
  }

  lemma MidwayStep(size: Size, decr: bool, mask: seq<bool>, r: seq<bv32>, ea: bv32, done: seq<Write>, a: bv32, i: nat)
    requires i < 16 && Midway(size, decr, mask, r, ea, done, a, i)
    ensures !mask[i] ==> Midway(size, decr, mask, r, ea, done, a, i + 1)
    ensures mask[i]
            ==> Midway(size, decr, mask, r, ea, done + Writes(size, a, r[Stored(decr, i)]), Next(size, decr, a), i + 1)
  {
    hide Writes, Next;
    if mask[i] {
      var w := Writes(size, a, r[Stored(decr, i)]);
      var rest := StoreFrom(size, decr, mask, r, Next(size, decr, a), i + 1).0;
      assert done + (w + rest) == (done + w) + rest;
    }
  }

  /** The writes of iteration i come next. */
  lemma MidwayNext(size: Size, decr: bool, mask: seq<bool>, r: seq<bv32>, ea: bv32, done: seq<Write>, a: bv32, i: nat)
    requires i < 16 && Midway(size, decr, mask, r, ea, done, a, i) && mask[i]
    ensures done + Writes(size, a, r[Stored(decr, i)]) <= StoreFrom(size, decr, mask, r, ea, 0).0
  {
    hide Next, Writes;
    var v := Writes(size, a, r[Stored(decr, i)]);
    var rest := StoreFrom(size, decr, mask, r, Next(size, decr, a), i + 1).0;
    assert StoreFrom(size, decr, mask, r, ea, 0).0 == done + (v + rest) == (done + v) + rest;
  }

  /** A fault among the next writes v is the first among all writes w. */
  lemma NextFault(done: seq<Write>, v: seq<Write>, rest: seq<Write>, access: set<Loc>)
    requires Reached(done, access) == |done|
    ensures var n := Reached(v, access);
            && (n < |v| ==> Reached(done + (v + rest), access) == |done| + n)
            && (n == |v| ==> Reached(done + v, access) == |done + v|)
  {
    hide Reached;
    ReachedAppend(done, v + rest, access);
    ReachedAppend(v, rest, access);
    ReachedAppend(done, v, access);
  }

  lemma NextApply(done: seq<Write>, v: seq<Write>, rest: seq<Write>, n: nat, m: Bytes)
    requires n <= |v|
    ensures Apply((done + (v + rest))[..|done| + n], m) == Apply(v[..n], Apply(done, m))
    ensures Apply(done + v, m) == Apply(v, Apply(done, m))
  {
    hide Apply;
    assert (done + (v + rest))[..|done| + n] == done + v[..n];
    ApplyAppend(done, v[..n], m);
    ApplyAppend(done, v, m);
  }

  /** WriteW or WriteL of one register. */
  method StoreOne(bus: Bus, size: Size, a: bv32, x: bv32, ghost w: seq<Write>, ghost done: seq<Write>, ghost m: Bytes,
                  ghost access: set<Loc>) returns (ok: bool)
    requires done + Writes(size, a, x) <= w
    requires Reached(done, access) == |done| && bus.bytes == Apply(done, m) && Access(bus) == access
    modifies bus
    ensures Access(bus) == access
    ensures ok ==> Reached(done + Writes(size, a, x), access) == |done + Writes(size, a, x)|
    ensures ok ==> bus.bytes == Apply(done + Writes(size, a, x), m)
    ensures !ok ==> Reached(w, access) < |w| && bus.bytes == Apply(w[..Reached(w, access)], m)
  {
    hide Writes, Apply, Reached, Access;
    ghost var v := Writes(size, a, x);
    ghost var rest := w[|done + v|..];
    assert w == done + (v + rest);
    NextFault(done, v, rest, access);
    NextApply(done, v, rest, Reached(v, access), m);
    ok := WriteV(bus, size, a, x);
    assert v[..|v|] == v;
  }

  lemma MidwayEnd(size: Size, decr: bool, mask: seq<bool>, r: seq<bv32>, ea: bv32, done: seq<Write>, a: bv32)
    requires Midway(size, decr, mask, r, ea, done, a, 16)
    ensures StoreFrom(size, decr, mask, r, ea, 0) == (done, a)
  {
    assert done + [] == done;
  }

  /** The loop of the store forms. */
  method StoreLoop(bus: Bus, size: Size, decr: bool, mask: seq<bool>, r: seq<bv32>, ea: bv32)
      returns (ok: bool, a: bv32)
    requires |mask| == 16 && |r| == 16
    modifies bus
    ensures var (w, end) := StoreFrom(size, decr, mask, r, ea, 0);
            var n := Reached(w, old(Access(bus)));
            bus.bytes == Apply(w[..n], old(bus.bytes)) && (ok <==> n == |w|) && (ok ==> a == end)
  {
    ghost var m, access := bus.bytes, Access(bus);
    ghost var done: seq<Write> := [];
    a := ea;
    assert Midway(size, decr, mask, r, ea, done, a, 0) by {
      assert [] + StoreFrom(size, decr, mask, r, ea, 0).0 == StoreFrom(size, decr, mask, r, ea, 0).0;
    }
    hide Midway, StoreFrom, Writes, Along, Back, Part, Access, Next, Stored;
    var i := 0;
    while i < 16
      invariant 0 <= i <= 16
      invariant Midway(size, decr, mask, r, ea, done, a, i)
      invariant Reached(done, access) == |done| && bus.bytes == Apply(done, m) && Access(bus) == access
    {
      hide Apply, Reached;
      MidwayStep(size, decr, mask, r, ea, done, a, i);
      if mask[i] {
        MidwayNext(size, decr, mask, r, ea, done, a, i);
        ok := StoreOne(bus, size, a, r[Stored(decr, i)], StoreFrom(size, decr, mask, r, ea, 0).0, done, m, access);
        if !ok {
          return;
        }
        done := done + Writes(size, a, r[Stored(decr, i)]);
        a := Next(size, decr, a);
      }
      i := i + 1;
    }
    ok := true;
    MidwayEnd(size, decr, mask, r, ea, done, a);
    assert done[..|done|] == done;
  }

  method StoreDecr(p: Processor, bus: Bus, op: Instr) returns (ok: bool)
    requires Proper(op, p.Snapshot()) && op.form == Form.StoreDecr
    modifies p, bus
    ensures Outcome(p.Snapshot(), bus.bytes, ok)
            == Transfer(op, Begin(op, old(p.Snapshot())), old(bus.bytes), old(Access(bus)))
  {
    hide StoreFrom, Apply, Along, Back, Reached;
    p.pc := Along(p.pc, 4);
    if !p.movemRun {
      p.r := p.r[Base(op) := Back(p.r[Base(op)], Bytes32(op.size))];
      p.ea := p.r[Base(op)];
      p.movemRun := true;
    }
    var a;
    ok, a := StoreLoop(bus, op.size, true, op.mask, p.r, p.ea);
    if !ok { return; }
    p.r := p.r[Base(op) := Along(a, Bytes32(op.size))];
    p.movemRun := false;
  }

  method StoreBase(p: Processor, bus: Bus, op: Instr) returns (ok: bool)
    requires Proper(op, p.Snapshot()) && op.form == Form.StoreBase
    modifies p, bus
    ensures Outcome(p.Snapshot(), bus.bytes, ok)
            == Transfer(op, Begin(op, old(p.Snapshot())), old(bus.bytes), old(Access(bus)))
  {
    hide StoreFrom, Apply, Along, Back, Reached;
    p.pc := Along(p.pc, 4);
    if !p.movemRun {
      p.ea := op.target;
      p.pc := Along(p.pc, op.ext);
      p.movemRun := true;
    }
    var a;
    ok, a := StoreLoop(bus, op.size, false, op.mask, p.r, p.ea);
    if !ok { return; }
    p.movemRun := false;
  }

  // ---- Loads ----

  /** ReadW or ReadL, if it does not fault. */
  method ReadV(bus: Bus, size: Size, a: bv32) returns (ok: bool, v: bv32)
    ensures ok <==> Readable(size, a, bus.bytes.Keys)
    ensures ok ==> v == Fetched(size, a, bus.bytes)
  {
    hide Along, Joined;
    var b0, b1, b2, b3 := 0, 0, 0, 0;
    v := 0;
    ok, b0 := bus.ReadB(Spot(a, 0));
    if !ok { return; }
    ok, b1 := bus.ReadB(Spot(a, 1));
    if !ok { return; }
    if size == W {
      v := Joined(0, 0, b0, b1);
      return;
    }
    ok, b2 := bus.ReadB(Spot(a, 2));
    if !ok { return; }
    ok, b3 := bus.ReadB(Spot(a, 3));
    v := Joined(b0, b1, b2, b3);
  }

  /** One transfer through the address register itself. */
  method IncrOne(p: Processor, bus: Bus, size: Size, b: nat, i: nat) returns (ok: bool)
    requires |p.r| == 16 && b < 16 && i < 16
    modifies p`r
    ensures |p.r| == 16 && (ok <==> Readable(size, old(p.r[b]), bus.bytes.Keys))
    ensures if ok then p.r + [0] == LoadOne(size, b, i, old(p.r) + [0], bus.bytes) else p.r == old(p.r)
  {
    hide Loaded, Fetched, Along, Bytes32, Spot, Readable;
    var v;
    ok, v := ReadV(bus, size, p.r[b]);
    if !ok { return; }
    ghost var q := p.r;
    p.r := p.r[i := Loaded(size, i, p.r[i], v)];
    assert p.r + [0] == (q + [0])[i := Loaded(size, i, q[i], v)];
    p.r := p.r[b := Along(p.r[b], Bytes32(size))];
  }

  /** One transfer through a local variable. */
  method BaseOne(p: Processor, bus: Bus, size: Size, a: bv32, i: nat) returns (ok: bool, a': bv32)
    requires |p.r| == 16 && i < 16
    modifies p`r
    ensures |p.r| == 16 && (ok <==> Readable(size, a, bus.bytes.Keys))
    ensures if ok then p.r + [a'] == LoadOne(size, 16, i, old(p.r) + [a], bus.bytes) else p.r == old(p.r) && a' == a
  {
    hide Loaded, Fetched, Along, Bytes32, Spot, Readable;
    var v;
    ok, v := ReadV(bus, size, a);
    a' := a;
    if !ok { return; }
    ghost var q := p.r;
    p.r := p.r[i := Loaded(size, i, p.r[i], v)];
    a' := Along(a, Bytes32(size));
    assert p.r + [a'] == (q + [a])[i := Loaded(size, i, q[i], v)][16 := a'];
  }

  method LoadIncr(p: Processor, bus: Bus, op: Instr) returns (ok: bool)
    requires Proper(op, p.Snapshot()) && op.form == Form.LoadIncr
    modifies p
    ensures Outcome(p.Snapshot(), bus.bytes, ok)
            == Transfer(op, Begin(op, old(p.Snapshot())), bus.bytes, bus.bytes.Keys)
  {
    ghost var s := p.Snapshot();
    p.pc := Along(p.pc, 4);
    if !p.movemRun {
      p.ea := p.r[Base(op)];
      p.movemRun := true;
    }
    ghost var t := p.Snapshot();
    assert t == Begin(op, s);
    p.r := p.r[Base(op) := p.ea];
    assert p.r + [0] == Slots(op, t);
    hide LoadFrom, LoadOne, Along, Spot, Begin, Readable;
    var i := 0;
    while i < 16
      invariant 0 <= i <= 16 && |p.r| == 16
      invariant p.ea == t.ea && p.movemRun && p.pc == t.pc
      invariant LoadFrom(op.size, Base(op), op.mask, Slots(op, t), bus.bytes, bus.bytes.Keys, 0)
                == LoadFrom(op.size, Base(op), op.mask, p.r + [0], bus.bytes, bus.bytes.Keys, i)
    {
      LoadNext(op.size, Base(op), op.mask, p.r + [0], bus.bytes, bus.bytes.Keys, i);
      if op.mask[i] {
        ok := IncrOne(p, bus, op.size, Base(op), i);
        if !ok {
          assert (p.r + [0])[..16] == p.r;
          return;
        }
      }
      i := i + 1;
    }
    LoadEnd(op.size, Base(op), op.mask, p.r + [0], bus.bytes, bus.bytes.Keys);
    assert (p.r + [0])[..16] == p.r;
    p.movemRun := false;
    ok := true;
  }

  lemma LoadNext(size: Size, b: nat, mask: seq<bool>, r: seq<bv32>, m: Bytes, access: set<Loc>, i: nat)
    requires |mask| == 16 && |r| == 17 && b <= 16 && i < 16 && access <= m.Keys
    ensures LoadFrom(size, b, mask, r, m, access, i)
            == if !mask[i] then LoadFrom(size, b, mask, r, m, access, i + 1)
               else if !Readable(size, r[b], access) then (r, false)
               else LoadFrom(size, b, mask, LoadOne(size, b, i, r, m), m, access, i + 1)
  {
    hide Loaded, Fetched, Along, Spot;
  }

  lemma LoadEnd(size: Size, b: nat, mask: seq<bool>, r: seq<bv32>, m: Bytes, access: set<Loc>)
    requires |mask| == 16 && |r| == 17 && b <= 16 && access <= m.Keys
    ensures LoadFrom(size, b, mask, r, m, access, 16) == (r, true)
  {}

  method LoadBase(p: Processor, bus: Bus, op: Instr) returns (ok: bool)
    requires Proper(op, p.Snapshot()) && op.form == Form.LoadBase
    modifies p
    ensures Outcome(p.Snapshot(), bus.bytes, ok)
            == Transfer(op, Begin(op, old(p.Snapshot())), bus.bytes, bus.bytes.Keys)
  {
    ghost var s := p.Snapshot();
    p.pc := Along(p.pc, 4);
    if !p.movemRun {
      p.ea := op.target;
      p.pc := Along(p.pc, op.ext);
      p.movemRun := true;
    }
    ghost var t := p.Snapshot();
    assert t == Begin(op, s);
    var a := p.ea;
    assert p.r + [a] == Slots(op, t);
    hide LoadFrom, LoadOne, Along, Spot, Begin, Readable;
    var i := 0;
    while i < 16
      invariant 0 <= i <= 16 && |p.r| == 16
      invariant p.ea == t.ea && p.movemRun && p.pc == t.pc
      invariant LoadFrom(op.size, 16, op.mask, Slots(op, t), bus.bytes, bus.bytes.Keys, 0)
                == LoadFrom(op.size, 16, op.mask, p.r + [a], bus.bytes, bus.bytes.Keys, i)
    {
      LoadNext(op.size, 16, op.mask, p.r + [a], bus.bytes, bus.bytes.Keys, i);
      if op.mask[i] {
        ok, a := BaseOne(p, bus, op.size, a, i);
        if !ok {
          assert (p.r + [a])[..16] == p.r;
          return;
        }
      }
      i := i + 1;
    }
    LoadEnd(op.size, 16, op.mask, p.r + [a], bus.bytes, bus.bytes.Keys);
    assert (p.r + [a])[..16] == p.r;
    p.movemRun := false;
    ok := true;
  }
}
