/**
 What MOVEM puts where: every listed register's bytes at its place, in numbers; what a load makes of
 the bytes it finds; and registers saved and restored, in words and longs, below and above an
 address.
 */
module MovemRoundTrip {
  import opened Addresses
  import opened ByteBus
  import opened ByteWrites
  import opened Movem
  import NumberFacts

  // ---- Where the registers lie ----

  /** Is l among the bytes that the iterations from address a on may write? */
  predicate Near(size: Size, decr: bool, a: bv32, l: bv32, room: bv32) {
    if !decr then Above(a, l, room) else if size == W then BelowWord(a, l, room) else BelowLong(a, l, room)
  }

  predicate Above(a: bv32, l: bv32, room: bv32) { l - a < room }
  predicate BelowWord(a: bv32, l: bv32, room: bv32) { (a + 1) - l < room }
  predicate BelowLong(a: bv32, l: bv32, room: bv32) { (a + 3) - l < room }

  /** The bytes the iterations from i on may need. */
  function Room(i: nat): bv32
    requires i <= 16
  {
    if i == 16 then 0 else if i == 15 then 4 else if i == 14 then 8 else if i == 13 then 12 else if i == 12 then 16
    else if i == 11 then 20 else if i == 10 then 24 else if i == 9 then 28 else if i == 8 then 32 else if i == 7 then 36
    else if i == 6 then 40 else if i == 5 then 44 else if i == 4 then 48 else if i == 3 then 52 else if i == 2 then 56
    else if i == 1 then 60 else 64
  }

  lemma RoomStep(i: nat)
    requires i < 16
    ensures Room(i) == Room(i + 1) + 4 && Room(i + 1) <= 60 && 4 <= Room(i)
  {}

  /** The step from one register to the next. */
  function StepOf(size: Size): bv32 { if size == W then 2 else 4 }

  lemma StepIs(size: Size)
    ensures Bytes32(size) == StepOf(size)
  {}

  lemma NextIs(size: Size, decr: bool, a: bv32)
    ensures Next(size, decr, a) == if decr then Back(a, StepOf(size)) else Along(a, StepOf(size))
  {
    hide Along, Back;
    StepIs(size);
    hide Bytes32, StepOf;
  }

  lemma BackInline(a: bv32, n: bv32)
    ensures Back(a, n) == a - n
  {}

  lemma AboveMore(a: bv32, l: bv32, room: bv32)
    requires room <= 60
    ensures Above(a, l, room) ==> Above(a, l, room + 4)
    ensures BelowWord(a, l, room) ==> BelowWord(a, l, room + 4)
    ensures BelowLong(a, l, room) ==> BelowLong(a, l, room + 4)
  {}

  lemma NearMore(size: Size, decr: bool, a: bv32, l: bv32, room: bv32)
    requires Near(size, decr, a, l, room) && room <= 60
    ensures Near(size, decr, a, l, room + 4)
  {
    hide Above, BelowWord, BelowLong;
    AboveMore(a, l, room);
  }

  lemma WordDown(a: bv32, l: bv32, room: bv32)
    requires BelowWord(a - 2, l, room) && room <= 60
    ensures BelowWord(a, l, room + 4)
  {}

  lemma LongDown(a: bv32, l: bv32, room: bv32)
    requires BelowLong(a - 4, l, room) && room <= 60
    ensures BelowLong(a, l, room + 4)
  {}

  lemma WordUp(a: bv32, l: bv32, room: bv32)
    requires Above(a + 2, l, room) && room <= 60
    ensures Above(a, l, room + 4)
  {}

  lemma LongUp(a: bv32, l: bv32, room: bv32)
    requires Above(a + 4, l, room) && room <= 60
    ensures Above(a, l, room + 4)
  {}

  lemma NearNext(size: Size, decr: bool, a: bv32, l: bv32, room: bv32)
    requires Near(size, decr, Next(size, decr, a), l, room) && room <= 60
    ensures Near(size, decr, a, l, room + 4)
  {
    hide Above, BelowWord, BelowLong, Along, Back, Next;
    NextIs(size, decr, a);
    AlongInline(a, StepOf(size));
    BackInline(a, StepOf(size));
    if decr {
      if size == W {
        WordDown(a, l, room);
      } else {
        LongDown(a, l, room);
      }
    } else {
      if size == W {
        WordUp(a, l, room);
      } else {
        LongUp(a, l, room);
      }
    }
  }

  /** Is t the number of a byte of a word or long? */
  predicate ByteNo(size: Size, t: bv32) { t < StepOf(size) }

  lemma OwnWord(a: bv32, t: bv32, room: bv32)
    requires t < 2 && 4 <= room
    ensures BelowWord(a, a + t, room)
  {}

  lemma OwnLong(a: bv32, t: bv32, room: bv32)
    requires t < 4 && 4 <= room
    ensures BelowLong(a, a + t, room)
  {}

  lemma OwnAbove(a: bv32, t: bv32, room: bv32)
    requires t < 4 && 4 <= room
    ensures Above(a, a + t, room)
  {}

  /** The bytes of a register are near its address. */
  lemma SpotNear(size: Size, decr: bool, a: bv32, t: bv32, room: bv32)
    requires ByteNo(size, t) && 4 <= room
    ensures Near(size, decr, a, Spot(a, t).bits, room)
  {
    hide Above, BelowWord, BelowLong, Along;
    AlongInline(a, t);
    ByteNoIs(size, t);
    OwnAbove(a, t, room);
    if size == W {
      OwnWord(a, t, room);
    } else {
      OwnLong(a, t, room);
    }
  }

  lemma ByteNoIs(size: Size, t: bv32)
    requires ByteNo(size, t)
    ensures t < 4 && (size == W ==> t < 2)
  {}

  lemma FarBelowWord(a: bv32, t: bv32, room: bv32)
    requires t < 2 && room <= 60
    ensures !BelowWord(Back(a, 2), Along(a, t), room)
  {}

  lemma FarBelowLong(a: bv32, t: bv32, room: bv32)
    requires t < 4 && room <= 60
    ensures !BelowLong(Back(a, 4), Along(a, t), room)
  {}

  lemma FarAboveWord(a: bv32, t: bv32, room: bv32)
    requires t < 2 && room <= 60
    ensures !Above(Along(a, 2), Along(a, t), room)
  {}

  lemma FarAboveLong(a: bv32, t: bv32, room: bv32)
    requires t < 4 && room <= 60
    ensures !Above(Along(a, 4), Along(a, t), room)
  {}

  /** And not near the next one. */
  lemma SpotFar(size: Size, decr: bool, a: bv32, t: bv32, room: bv32)
    requires ByteNo(size, t) && room <= 60
    ensures !Near(size, decr, Next(size, decr, a), Spot(a, t).bits, room)
  {
    hide Above, BelowWord, BelowLong, Along, Back, Next, ByteNo;
    ByteNoIs(size, t);
    NextIs(size, decr, a);
    if size == W {
      FarBelowWord(a, t, room);
      FarAboveWord(a, t, room);
    } else {
      FarBelowLong(a, t, room);
      FarAboveLong(a, t, room);
    }
  }

  lemma SpotsNear(size: Size, decr: bool, a: bv32, i: nat)
    requires i < 16
    ensures forall t: bv32 :: ByteNo(size, t) ==> Near(size, decr, a, Spot(a, t).bits, Room(i))
  {
    RoomStep(i);
    hide Near, Along, Room, ByteNo;
    forall t: bv32 | ByteNo(size, t) ensures Near(size, decr, a, Spot(a, t).bits, Room(i)) {
      SpotNear(size, decr, a, t, Room(i));
    }
  }

  /** The writes from iteration i on stay within their room. */
  lemma {:induction false} StoresNear(size: Size, decr: bool, mask: seq<bool>, r: seq<bv32>, a: bv32, i: nat)
    requires |mask| == 16 && |r| >= 16 && i <= 16
    ensures forall w :: w in StoreFrom(size, decr, mask, r, a, i).0 ==> Near(size, decr, a, w.l.bits, Room(i))
    decreases 16 - i
  {
    hide Near, Room, Next, Along, Part;
    if i < 16 {
      RoomStep(i);
      if mask[i] {
        StoresNear(size, decr, mask, r, Next(size, decr, a), i + 1);
        var rest := StoreFrom(size, decr, mask, r, Next(size, decr, a), i + 1).0;
        SpotsNear(size, decr, a, i);
        forall w | w in rest ensures Near(size, decr, a, w.l.bits, Room(i)) {
          NearNext(size, decr, a, w.l.bits, Room(i + 1));
        }
        var v := Writes(size, a, r[Stored(decr, i)]);
        forall w | w in v ensures Near(size, decr, a, w.l.bits, Room(i)) {
          assert w == v[0] || w == v[1] || (size == L && (w == v[2] || w == v[3]));
        }
      } else {
        StoresNear(size, decr, mask, r, a, i + 1);
        forall w | w in StoreFrom(size, decr, mask, r, a, i + 1).0 ensures Near(size, decr, a, w.l.bits, Room(i)) {
          NearMore(size, decr, a, w.l.bits, Room(i + 1));
        }
      }
    }
  }

  /** No write after iteration i touches the bytes of iteration i. */
  lemma Apart(size: Size, decr: bool, mask: seq<bool>, r: seq<bv32>, a: bv32, i: nat, t: bv32)
    requires |mask| == 16 && |r| >= 16 && i < 16 && ByteNo(size, t)
    ensures Spot(a, t) !in Locs(StoreFrom(size, decr, mask, r, Next(size, decr, a), i + 1).0)
  {
    RoomStep(i);
    hide Near, Along, Room, Next, StoreFrom, ByteNo;
    StoresNear(size, decr, mask, r, Next(size, decr, a), i + 1);
    SpotFar(size, decr, a, t, Room(i + 1));
  }

  // ---- What memory holds ----

  /** The word or long x stands at a. */
  predicate Holds(size: Size, m: Bytes, a: bv32, x: bv32) {
    if size == W then HoldsByte(m, a, x, 0, 2) && HoldsByte(m, a, x, 1, 3)
    else HoldsByte(m, a, x, 0, 0) && HoldsByte(m, a, x, 1, 1) && HoldsByte(m, a, x, 2, 2) && HoldsByte(m, a, x, 3, 3)
  }

  predicate HoldsByte(m: Bytes, a: bv32, x: bv32, t: bv32, j: bv5) {
    Spot(a, t) in m && m[Spot(a, t)] == Part(x, j)
  }

  /** The address before iteration i: a step down or up for every register listed before. */
  function AddrAt(size: Size, decr: bool, mask: seq<bool>, ea: bv32, i: nat): bv32
    requires |mask| == 16 && i <= 16
  {
    if i == 0 then ea
    else
      var a := AddrAt(size, decr, mask, ea, i - 1);
      if !mask[i - 1] then a else if decr then Back(a, StepOf(size)) else Along(a, StepOf(size))
  }

  lemma AddrNext(size: Size, decr: bool, mask: seq<bool>, ea: bv32, i: nat)
    requires |mask| == 16 && i < 16
    ensures var a := AddrAt(size, decr, mask, ea, i);
            AddrAt(size, decr, mask, ea, i + 1) == if mask[i] then Next(size, decr, a) else a
  {
    hide Next, Along, Back, StepOf;
    NextIs(size, decr, AddrAt(size, decr, mask, ea, i));
  }

  lemma AddrStart(size: Size, decr: bool, mask: seq<bool>, ea: bv32)
    requires |mask| == 16
    ensures AddrAt(size, decr, mask, ea, 0) == ea
  {}

  lemma SpotsDiffer(a: bv32)
    ensures Along(a, 0) != Along(a, 1) && Along(a, 0) != Along(a, 2) && Along(a, 0) != Along(a, 3)
    ensures Along(a, 1) != Along(a, 2) && Along(a, 1) != Along(a, 3) && Along(a, 2) != Along(a, 3)
  {}

  lemma WritesHoldWord(a: bv32, x: bv32, m: Bytes)
    ensures Holds(W, Apply(Writes(W, a, x), m), a, x)
  {
    hide Along, Part;
    SpotsDiffer(a);
    var w := Writes(W, a, x);
    var m1 := m[w[0].l := w[0].b];
    var m2 := m1[w[1].l := w[1].b];
    assert Apply(w, m) == Apply(w[1..], m1) == Apply(w[1..][1..], m2) == m2;
  }

  lemma WritesHoldLong(a: bv32, x: bv32, m: Bytes)
    ensures Holds(L, Apply(Writes(L, a, x), m), a, x)
  {
    hide Along, Part;
    SpotsDiffer(a);
    var w := Writes(L, a, x);
    var m1 := m[w[0].l := w[0].b];
    var m2 := m1[w[1].l := w[1].b];
    var m3 := m2[w[2].l := w[2].b];
    var m4 := m3[w[3].l := w[3].b];
    assert Apply(w, m) == Apply(w[1..], m1) == Apply(w[1..][1..], m2) == Apply(w[1..][1..][1..], m3)
        == Apply(w[1..][1..][1..][1..], m4) == m4;
  }

  /** The writes that follow leave the bytes of iteration i alone. */
  lemma StillHolds(size: Size, decr: bool, mask: seq<bool>, r: seq<bv32>, a: bv32, i: nat, m: Bytes, x: bv32)
    requires |mask| == 16 && |r| >= 16 && i < 16 && Holds(size, m, a, x)
    ensures Holds(size, Apply(StoreFrom(size, decr, mask, r, Next(size, decr, a), i + 1).0, m), a, x)
  {
    hide HoldsByte, StoreFrom, Apply, Next;
    if size == W {
      StillByte(size, decr, mask, r, a, i, m, x, 0, 2);
      StillByte(size, decr, mask, r, a, i, m, x, 1, 3);
    } else {
      StillByte(size, decr, mask, r, a, i, m, x, 0, 0);
      StillByte(size, decr, mask, r, a, i, m, x, 1, 1);
      StillByte(size, decr, mask, r, a, i, m, x, 2, 2);
      StillByte(size, decr, mask, r, a, i, m, x, 3, 3);
    }
  }

  lemma StillByte(size: Size, decr: bool, mask: seq<bool>, r: seq<bv32>, a: bv32, i: nat, m: Bytes, x: bv32, t: bv32,
                  j: bv5)
    requires |mask| == 16 && |r| >= 16 && i < 16 && ByteNo(size, t) && HoldsByte(m, a, x, t, j)
    ensures HoldsByte(Apply(StoreFrom(size, decr, mask, r, Next(size, decr, a), i + 1).0, m), a, x, t, j)
  {
    hide StoreFrom, Apply, Next, Along, Part, Locs, ByteNo;
    ApplyOutside(StoreFrom(size, decr, mask, r, Next(size, decr, a), i + 1).0, m);
    Apart(size, decr, mask, r, a, i, t);
  }

  /** The register that iteration i stores: from A7 down to D0 below an address, from D0 up above it. */
  function RegOf(decr: bool, i: nat): nat
    requires i < 16
  {
    if decr then 15 - i else i
  }

  /** After the store, each listed register stands at the address of its iteration. */
  lemma {:induction false} Saved(size: Size, decr: bool, mask: seq<bool>, r: seq<bv32>, ea: bv32, i: nat, j: nat,
                                 m: Bytes)
    requires |mask| == 16 && |r| >= 16 && i <= j < 16 && mask[j]
    ensures Holds(size, Apply(StoreFrom(size, decr, mask, r, AddrAt(size, decr, mask, ea, i), i).0, m),
                  AddrAt(size, decr, mask, ea, j), r[RegOf(decr, j)])
    decreases 16 - i
  {
    hide Holds, Writes, Next, Along, Apply, AddrAt;
    var a := AddrAt(size, decr, mask, ea, i);
    AddrNext(size, decr, mask, ea, i);
    if !mask[i] {
      Saved(size, decr, mask, r, ea, i + 1, j, m);
    } else {
      var v := Writes(size, a, r[RegOf(decr, i)]);
      var rest := StoreFrom(size, decr, mask, r, Next(size, decr, a), i + 1).0;
      assert StoreFrom(size, decr, mask, r, a, i).0 == v + rest;
      ApplyAppend(v, rest, m);
      if i == j {
        WritesHoldWord(a, r[RegOf(decr, i)], m);
        WritesHoldLong(a, r[RegOf(decr, i)], m);
        StillHolds(size, decr, mask, r, a, i, Apply(v, m), r[RegOf(decr, i)]);
      } else {
        Saved(size, decr, mask, r, ea, i + 1, j, Apply(v, m));
      }
    }
  }

  lemma {:induction false} StoreEnd(size: Size, decr: bool, mask: seq<bool>, r: seq<bv32>, ea: bv32, i: nat)
    requires |mask| == 16 && |r| >= 16 && i <= 16
    ensures StoreFrom(size, decr, mask, r, AddrAt(size, decr, mask, ea, i), i).1 == AddrAt(size, decr, mask, ea, 16)
    decreases 16 - i
  {
    hide Writes, Next, AddrAt;
    if i < 16 {
      AddrNext(size, decr, mask, ea, i);
      StoreEnd(size, decr, mask, r, ea, i + 1);
    }
  }

  // ---- In numbers ----

  /** The four bytes of a number, the most significant first. */
  function Digit0(x: bv32): bv32 { x / 0x100_0000 }
  function Digit1(x: bv32): bv32 { x / 0x1_0000 % 0x100 }
  function Digit2(x: bv32): bv32 { x / 0x100 % 0x100 }
  function Digit3(x: bv32): bv32 { x % 0x100 }

  function Wide(b: bv8): bv32 { b as bv32 }

  predicate ByteIs(m: Bytes, l: Loc, d: bv32) { l in m && Wide(m[l]) == d }

  /** The bytes of x from a on; a word is the lower half. */
  predicate Stands(size: Size, m: Bytes, a: bv32, x: bv32) {
    if size == W then ByteIs(m, Spot(a, 0), Digit2(x)) && ByteIs(m, Spot(a, 1), Digit3(x))
    else ByteIs(m, Spot(a, 0), Digit0(x)) && ByteIs(m, Spot(a, 1), Digit1(x)) && ByteIs(m, Spot(a, 2), Digit2(x))
         && ByteIs(m, Spot(a, 3), Digit3(x))
  }

  lemma PartNumbers(x: bv32)
    ensures Wide(Part(x, 0)) == Digit0(x) && Wide(Part(x, 1)) == Digit1(x)
    ensures Wide(Part(x, 2)) == Digit2(x) && Wide(Part(x, 3)) == Digit3(x)
  {
    NumberFacts.Part0(x);
    NumberFacts.Part1(x);
    NumberFacts.Part2(x);
    NumberFacts.Part3(x);
  }

  lemma HoldsNumbers(size: Size, m: Bytes, a: bv32, x: bv32)
    requires Holds(size, m, a, x)
    ensures Stands(size, m, a, x)
  {
    hide Wide, Spot, Part, Digit0, Digit1, Digit2, Digit3;
    PartNumbers(x);
  }

  /** A store from t on, come through: the bytes of each listed register are at its place. */
  lemma Transferred(op: Instr, t: State, m: Bytes, access: set<Loc>)
    requires Proper(op, t) && Storing(op) && Transfer(op, t, m, access).ok
    ensures var decr, o := op.form == StoreDecr, Transfer(op, t, m, access);
            && o.s.r == (if decr then t.r[Base(op) := Along(AddrAt(op.size, true, op.mask, t.ea, 16), StepOf(op.size))]
                         else t.r)
            && AllSaved(op.size, decr, op.mask, t.ea, t.r, o.m)
  {
    hide Along, Holds, AddrAt, Next, StoreFrom, Apply, Reached, StepOf, Bytes32;
    var decr := op.form == StoreDecr;
    var w := AllWrites(op, t).0;
    AddrStart(op.size, decr, op.mask, t.ea);
    StoreEnd(op.size, decr, op.mask, t.r, t.ea, 0);
    StepIs(op.size);
    assert w[..|w|] == w;
    forall j | 0 <= j < 16 && op.mask[j]
      ensures Holds(op.size, Transfer(op, t, m, access).m, AddrAt(op.size, decr, op.mask, t.ea, j), t.r[RegOf(decr, j)])
    {
      Saved(op.size, decr, op.mask, t.r, t.ea, 0, j, m);
    }
  }

  /** Every listed register stands where the store put it. */
  ghost predicate AllSaved(size: Size, decr: bool, mask: seq<bool>, ea: bv32, r: seq<bv32>, m: Bytes) {
    && |mask| == 16 && |r| >= 16
    && forall j :: 0 <= j < 16 && mask[j] ==> Holds(size, m, AddrAt(size, decr, mask, ea, j), r[RegOf(decr, j)])
  }

  /** In numbers. */
  ghost predicate AllStand(size: Size, decr: bool, mask: seq<bool>, ea: bv32, r: seq<bv32>, m: Bytes) {
    && |mask| == 16 && |r| >= 16
    && forall j :: 0 <= j < 16 && mask[j] ==> Stands(size, m, AddrAt(size, decr, mask, ea, j), r[RegOf(decr, j)])
  }

  lemma SavedStand(size: Size, decr: bool, mask: seq<bool>, ea: bv32, r: seq<bv32>, m: Bytes)
    requires AllSaved(size, decr, mask, ea, r, m)
    ensures AllStand(size, decr, mask, ea, r, m)
  {
    hide Holds, Stands, AddrAt;
    forall j | 0 <= j < 16 && mask[j]
      ensures Stands(size, m, AddrAt(size, decr, mask, ea, j), r[RegOf(decr, j)])
    {
      HoldsNumbers(size, m, AddrAt(size, decr, mask, ea, j), r[RegOf(decr, j)]);
    }
  }

  /** A store to -(An) that comes through: from the first place below An down, A7 before D0; An, which is
      stored as the first place, ends at the last one. */
  lemma DecrTable(op: Instr, s: State, m: Bytes, access: set<Loc>)
    requires Proper(op, s) && op.form == StoreDecr && !s.run && Attempt(op, s, m, access).ok
    ensures var ea, o := Back(s.r[Base(op)], StepOf(op.size)), Attempt(op, s, m, access);
            && AllStand(op.size, true, op.mask, ea, s.r[Base(op) := ea], o.m)
            && o.s.r == s.r[Base(op) := Along(AddrAt(op.size, true, op.mask, ea, 16), StepOf(op.size))]
  {
    hide Transfer, AddrAt, StepOf, Back, Along, AllSaved, AllStand, Bytes32;
    StepIs(op.size);
    var t := Begin(op, s);
    Transferred(op, t, m, access);
    SavedStand(op.size, true, op.mask, t.ea, t.r, Transfer(op, t, m, access).m);
  }

  /** A store to any other address: from the address up, D0 before A7. */
  lemma BaseTable(op: Instr, s: State, m: Bytes, access: set<Loc>)
    requires Proper(op, s) && op.form == StoreBase && !s.run && Attempt(op, s, m, access).ok
    ensures var o := Attempt(op, s, m, access);
            AllStand(op.size, false, op.mask, op.target, s.r, o.m) && o.s.r == s.r
  {
    hide Transfer, AddrAt, AllSaved, AllStand, Along;
    var t := Begin(op, s);
    Transferred(op, t, m, access);
    SavedStand(op.size, false, op.mask, t.ea, t.r, Transfer(op, t, m, access).m);
  }

  // ---- Loads ----

  function WordOf(b0: bv8, b1: bv8): bv32 { 0x100 * Wide(b0) + Wide(b1) }

  function LongOf(b0: bv8, b1: bv8, b2: bv8, b3: bv8): bv32 {
    0x100_0000 * Wide(b0) + 0x1_0000 * Wide(b1) + 0x100 * Wide(b2) + Wide(b3)
  }

  /** The number at a. */
  function NumberAt(size: Size, m: Bytes, a: bv32): bv32
    requires Readable(size, a, m.Keys)
  {
    if size == W then WordOf(m[Spot(a, 0)], m[Spot(a, 1)])
    else LongOf(m[Spot(a, 0)], m[Spot(a, 1)], m[Spot(a, 2)], m[Spot(a, 3)])
  }

  lemma JoinedNumbers(b0: bv8, b1: bv8, b2: bv8, b3: bv8)
    ensures Joined(0, 0, b0, b1) == WordOf(b0, b1) && Joined(b0, b1, b2, b3) == LongOf(b0, b1, b2, b3)
  {
    NumberFacts.JoinWord(b0, b1);
    NumberFacts.JoinLong(b0, b1, b2, b3);
  }

  lemma FetchedNumber(size: Size, m: Bytes, a: bv32)
    requires Readable(size, a, m.Keys)
    ensures Fetched(size, a, m) == NumberAt(size, m, a)
  {
    hide Spot, Joined, WordOf, LongOf;
    if size == W {
      JoinedNumbers(m[Spot(a, 0)], m[Spot(a, 1)], 0, 0);
    } else {
      JoinedNumbers(m[Spot(a, 0)], m[Spot(a, 1)], m[Spot(a, 2)], m[Spot(a, 3)]);
    }
  }

  /** What loading v makes of register k: a long is v; a word replaces the lower half of a data register,
      and an address register takes it with its sign. */
  function Taken(size: Size, k: nat, old_: bv32, v: bv32): bv32 {
    if size == L then v
    else if k < 8 then old_ - old_ % 0x1_0000 + v % 0x1_0000
    else if v % 0x1_0000 >= 0x8000 then v % 0x1_0000 + 0xFFFF_0000
    else v % 0x1_0000
  }

  lemma LoadedNumber(size: Size, k: nat, old_: bv32, v: bv32)
    ensures Loaded(size, k, old_, v) == Taken(size, k, old_, v)
  {
    ExtendedNumber(v);
    WithWordNumber(old_, v);
    hide Extended, WithWord;
  }

  lemma ExtendedNumber(v: bv32)
    ensures Extended(v) == if v % 0x1_0000 >= 0x8000 then v % 0x1_0000 + 0xFFFF_0000 else v % 0x1_0000
  {
    if v & 0x8000 != 0 {
      NumberFacts.ExtendsSign(v);
    } else {
      NumberFacts.ExtendsPlain(v);
    }
  }

  lemma WithWordNumber(x: bv32, v: bv32)
    ensures WithWord(x, v) == x - x % 0x1_0000 + v % 0x1_0000
  {
    NumberFacts.ReplacesWord(x, v);
  }

  /** Each iteration finds its word or long at the next place. */
  lemma {:induction false} LoadsFound(size: Size, b: nat, mask: seq<bool>, ea: bv32, q: seq<bv32>, m: Bytes,
                                      access: set<Loc>, k: nat)
    requires |mask| == 16 && |q| == 17 && b <= 16 && k <= 16 && access <= m.Keys
    requires b < 16 ==> b < k || !mask[b]
    requires q[b] == AddrAt(size, false, mask, ea, k) && LoadFrom(size, b, mask, q, m, access, k).1
    ensures var p := LoadFrom(size, b, mask, q, m, access, k).0;
            && p[b] == AddrAt(size, false, mask, ea, 16)
            && (forall t :: 0 <= t < 16 && t != b && !(t >= k && mask[t]) ==> p[t] == q[t])
            && (forall t :: k <= t < 16 && mask[t] ==>
                  Readable(size, AddrAt(size, false, mask, ea, t), m.Keys) &&
                  p[t] == Loaded(size, t, q[t], Fetched(size, AddrAt(size, false, mask, ea, t), m)))
    decreases 16 - k
  {
    hide Along, Fetched, Spot, Readable, AddrAt, Loaded, Bytes32, Next;
    if k < 16 {
      AddrNext(size, false, mask, ea, k);
      if mask[k] {
        ReadableIn(size, q[b], access, m.Keys);
        UpIs(size, q[b]);
        LoadsFound(size, b, mask, ea, LoadOne(size, b, k, q, m), m, access, k + 1);
      } else {
        LoadsFound(size, b, mask, ea, q, m, access, k + 1);
      }
    }
  }

  lemma UpIs(size: Size, a: bv32)
    ensures Next(size, false, a) == Along(a, Bytes32(size))
  {}

  lemma ReadableIn(size: Size, a: bv32, access: set<Loc>, keys: set<Loc>)
    requires Readable(size, a, access) && access <= keys
    ensures Readable(size, a, keys)
  {}

  /** Where a load starts. */
  function LoadStart(op: Instr, s: State): bv32
    requires Proper(op, s)
  {
    if op.form == LoadIncr then s.r[Base(op)] else op.target
  }

  /** What a load that comes through leaves: every listed register has taken the number at its place, and
      An of the postincrement form lies behind the last. */
  ghost predicate AllTaken(op: Instr, s: State, m: Bytes, p: seq<bv32>)
    requires Proper(op, s)
  {
    var ea := LoadStart(op, s);
    && |p| == 16
    && (op.form == LoadIncr ==> p[Base(op)] == AddrAt(op.size, false, op.mask, ea, 16))
    && (forall k :: 0 <= k < 16 && !op.mask[k] && !(op.form == LoadIncr && k == Base(op)) ==> p[k] == s.r[k])
    && (forall k :: 0 <= k < 16 && op.mask[k] ==>
          Readable(op.size, AddrAt(op.size, false, op.mask, ea, k), m.Keys) &&
          p[k] == Taken(op.size, k, s.r[k], NumberAt(op.size, m, AddrAt(op.size, false, op.mask, ea, k))))
  }

  /** For every list without An. */
  lemma LoadTable(op: Instr, s: State, m: Bytes, access: set<Loc>)
    requires Proper(op, s) && !Storing(op) && !s.run && access <= m.Keys && Attempt(op, s, m, access).ok
    requires op.form == LoadIncr ==> !op.mask[Base(op)]
    ensures AllTaken(op, s, m, Attempt(op, s, m, access).s.r)
  {
    hide Along, LoadFrom, AddrAt, Readable, Fetched, Loaded, Taken, NumberAt;
    var ea, t := LoadStart(op, s), Begin(op, s);
    AddrStart(op.size, false, op.mask, ea);
    LoadsFound(op.size, Counter(op), op.mask, ea, Slots(op, t), m, access, 0);
    var p := Attempt(op, s, m, access).s.r;
    forall k | 0 <= k < 16 && op.mask[k]
      ensures Readable(op.size, AddrAt(op.size, false, op.mask, ea, k), m.Keys) &&
              p[k] == Taken(op.size, k, s.r[k], NumberAt(op.size, m, AddrAt(op.size, false, op.mask, ea, k)))
    {
      var a := AddrAt(op.size, false, op.mask, ea, k);
      assert Readable(op.size, a, m.Keys);
      FetchedNumber(op.size, m, a);
      LoadedNumber(op.size, k, s.r[k], Fetched(op.size, a, m));
    }
  }

  // ---- Saved and restored ----

  lemma WordBack(b0: bv8, b1: bv8, x: bv32)
    requires Wide(b0) == Digit2(x) && Wide(b1) == Digit3(x)
    ensures WordOf(b0, b1) == x % 0x1_0000
  {
    NumberFacts.WordDigits(x);
  }

  lemma LongBack(b0: bv8, b1: bv8, b2: bv8, b3: bv8, x: bv32)
    requires Wide(b0) == Digit0(x) && Wide(b1) == Digit1(x) && Wide(b2) == Digit2(x) && Wide(b3) == Digit3(x)
    ensures LongOf(b0, b1, b2, b3) == x
  {
    NumberFacts.LongDigits(x);
  }

  lemma HeldNumber(size: Size, m: Bytes, a: bv32, x: bv32)
    requires Stands(size, m, a, x)
    ensures Readable(size, a, m.Keys) && NumberAt(size, m, a) == if size == W then x % 0x1_0000 else x
  {
    hide Wide, Spot, Digit0, Digit1, Digit2, Digit3, WordOf, LongOf;
    if size == W {
      WordBack(m[Spot(a, 0)], m[Spot(a, 1)], x);
    } else {
      LongBack(m[Spot(a, 0)], m[Spot(a, 1)], m[Spot(a, 2)], m[Spot(a, 3)], x);
    }
  }

  /** A register taken from where it stands. */
  lemma HeldTaken(size: Size, m: Bytes, a: bv32, x: bv32, k: nat, old_: bv32)
    requires Stands(size, m, a, x)
    ensures Readable(size, a, m.Keys) && Taken(size, k, old_, NumberAt(size, m, a)) == Taken(size, k, old_, x)
  {
    hide Stands, Readable, NumberAt;
    HeldNumber(size, m, a, x);
    NumberFacts.ModAgain(x);
  }

  lemma TakenLong(k: nat, old_: bv32, x: bv32)
    ensures Taken(L, k, old_, x) == x
  {}

  /**
   Words or longs stored at an address other than -(An), and loaded from there, whatever becomes of
   the registers in between: every listed register takes its own number back.
   */
  lemma BaseRestore(save: Instr, load: Instr, s: State, m: Bytes, access: set<Loc>, s': State, access': set<Loc>)
    requires save.form == StoreBase && save.size == load.size && load.mask == save.mask && !Storing(load)
    requires Proper(save, s) && !s.run && Attempt(save, s, m, access).ok
    requires Proper(load, s') && !s'.run && LoadStart(load, s') == save.target
    requires load.form == LoadIncr ==> !load.mask[Base(load)]
    requires access' <= Attempt(save, s, m, access).m.Keys
    requires Attempt(load, s', Attempt(save, s, m, access).m, access').ok
    ensures var p := Attempt(load, s', Attempt(save, s, m, access).m, access').s.r;
            forall k :: 0 <= k < 16 && save.mask[k] ==> p[k] == Taken(save.size, k, s'.r[k], s.r[k])
  {
    hide Attempt, AddrAt, Stands, Readable, NumberAt, Taken;
    var o := Attempt(save, s, m, access);
    BaseTable(save, s, m, access);
    LoadTable(load, s', o.m, access');
    forall k | 0 <= k < 16 && save.mask[k]
      ensures Attempt(load, s', o.m, access').s.r[k] == Taken(save.size, k, s'.r[k], s.r[k])
    {
      HeldTaken(save.size, o.m, AddrAt(save.size, false, save.mask, save.target, k), s.r[k], k, s'.r[k]);
    }
  }

  function Reversed(mask: seq<bool>): (q: seq<bool>)
    requires |mask| == 16
    ensures |q| == 16
  {
    seq(16, k requires 0 <= k < 16 => mask[15 - k])
  }

  lemma DownUp(a: bv32, n: bv32)
    ensures Along(a - n, n) == a
  {}

  lemma StepBack(a: bv32, n: bv32)
    ensures Along(Back(a, n), n) == a
  {
    hide Along, Back;
    BackInline(a, n);
    DownUp(a, n);
  }

  /** The load goes up the places that the store went down. */
  lemma {:induction false} PlacesMeet(size: Size, mask: seq<bool>, ea: bv32, k: nat)
    requires |mask| == 16 && k <= 16
    ensures var end := Along(AddrAt(size, true, mask, ea, 16), StepOf(size));
            AddrAt(size, false, Reversed(mask), end, k) == Along(AddrAt(size, true, mask, ea, 16 - k), StepOf(size))
  {
    hide StepOf, Reversed, Along, Back;
    if k > 0 {
      PlacesMeet(size, mask, ea, k - 1);
      StepBack(AddrAt(size, true, mask, ea, 16 - k), StepOf(size));
      ReversedAt(mask, k - 1);
    }
  }

  lemma ReversedAt(mask: seq<bool>, k: nat)
    requires |mask| == 16 && k < 16
    ensures Reversed(mask)[k] == mask[15 - k]
  {}

  lemma PlaceMet(size: Size, mask: seq<bool>, ea: bv32, k: nat)
    requires |mask| == 16 && k < 16 && mask[15 - k]
    ensures var end := Along(AddrAt(size, true, mask, ea, 16), StepOf(size));
            AddrAt(size, false, Reversed(mask), end, k) == AddrAt(size, true, mask, ea, 15 - k)
  {
    PlacesMeet(size, mask, ea, k);
    StepBack(AddrAt(size, true, mask, ea, 15 - k), StepOf(size));
    hide StepOf, Reversed, Along, Back;
  }

  /**
   Words or longs pushed with -(An) and popped with (An)+ and the list turned round, for every list
   without An, whatever becomes of the listed registers in between: each of them takes its own
   number back, the others keep theirs, and An is back.
   */
  lemma PushPop(save: Instr, load: Instr, s: State, m: Bytes, access: set<Loc>, s': State, access': set<Loc>)
    requires save.form == StoreDecr && load.form == LoadIncr && save.size == load.size && save.reg == load.reg
    requires Proper(save, s) && !s.run && !save.mask[15 - Base(save)] && Attempt(save, s, m, access).ok
    requires load.mask == Reversed(save.mask) && Proper(load, s') && !s'.run
    requires forall k :: 0 <= k < 16 && !save.mask[15 - k] ==> s'.r[k] == Attempt(save, s, m, access).s.r[k]
    requires access' <= Attempt(save, s, m, access).m.Keys
    requires Attempt(load, s', Attempt(save, s, m, access).m, access').ok
    ensures var p := Attempt(load, s', Attempt(save, s, m, access).m, access').s.r;
            && |p| == 16
            && (forall k :: 0 <= k < 16 && !save.mask[15 - k] ==> p[k] == s.r[k])
            && (forall k :: 0 <= k < 16 && save.mask[15 - k] ==> p[k] == Taken(save.size, k, s'.r[k], s.r[k]))
  {
    hide Attempt, AddrAt, Stands, Readable, NumberAt, Taken, StepOf, Reversed, Along, Back;
    var o, b := Attempt(save, s, m, access), Base(save);
    var ea := Back(s.r[b], StepOf(save.size));
    DecrTable(save, s, m, access);
    ReversedAt(save.mask, b);
    LoadTable(load, s', o.m, access');
    StepBack(s.r[b], StepOf(save.size));
    PlacesMeet(save.size, save.mask, ea, 16);
    AddrStart(save.size, true, save.mask, ea);
    var p := Attempt(load, s', o.m, access').s.r;
    forall k | 0 <= k < 16 && !save.mask[15 - k] ensures p[k] == s.r[k] {
      ReversedAt(save.mask, k);
    }
    forall k | 0 <= k < 16 && save.mask[15 - k] ensures p[k] == Taken(save.size, k, s'.r[k], s.r[k]) {
      ReversedAt(save.mask, k);
      PlaceMet(save.size, save.mask, ea, k);
      HeldTaken(save.size, o.m, AddrAt(save.size, true, save.mask, ea, 15 - k), s.r[k], k, s'.r[k]);
    }
  }

  /** In longs every register is back. */
  lemma SaveRestore(save: Instr, load: Instr, s: State, m: Bytes, access: set<Loc>, s': State, access': set<Loc>)
    requires save.form == StoreDecr && load.form == LoadIncr && save.size == load.size == L && save.reg == load.reg
    requires Proper(save, s) && !s.run && !save.mask[15 - Base(save)] && Attempt(save, s, m, access).ok
    requires load.mask == Reversed(save.mask) && Proper(load, s') && !s'.run
    requires forall k :: 0 <= k < 16 && !save.mask[15 - k] ==> s'.r[k] == Attempt(save, s, m, access).s.r[k]
    requires access' <= Attempt(save, s, m, access).m.Keys
    requires Attempt(load, s', Attempt(save, s, m, access).m, access').ok
    ensures Attempt(load, s', Attempt(save, s, m, access).m, access').s.r == s.r
  {
    hide Attempt, Taken, Reversed;
    PushPop(save, load, s, m, access, s', access');
    forall k | 0 <= k < 16 ensures Taken(L, k, s'.r[k], s.r[k]) == s.r[k] {
      TakenLong(k, s'.r[k], s.r[k]);
    }
  }
}
