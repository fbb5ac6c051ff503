/**
 Inputs for the theorems about MOVEM and its exceptions: runs that meet their hypotheses, and
 runs in which what they say is lost is lost.
 */
module MovemExamples {
  import opened Addresses
  import opened ByteBus
  import opened ByteWrites
  import M = Movem
  import E = Exceptions
  import T = ExceptionTheorems
  import opened MovemException

  // ---- The program counter after a restart ----

  /** The list of D0 alone. */
  function OnlyD0(): (mask: seq<bool>)
    ensures |mask| == 16
  {
    [true] + seq(15, _ => false)
  }

  /** MOVEM.W D0,(0x1000).W, with the word of the address behind the list. */
  const STORE_D0 := M.Instr(M.StoreBase, W, 0, OnlyD0(), 0x1000, 2)

  function Start(): M.State { M.State(seq(16, _ => 0), 0, false, 0x100) }

  lemma {:induction false} NoneStored(size: Size, decr: bool, mask: seq<bool>, r: seq<bv32>, a: bv32, i: nat)
    requires |mask| == 16 && |r| >= 16 && i <= 16 && forall k :: i <= k < 16 ==> !mask[k]
    ensures M.StoreFrom(size, decr, mask, r, a, i) == ([], a)
    decreases 16 - i
  {
    if i < 16 {
      NoneStored(size, decr, mask, r, a, i + 1);
    }
  }

  lemma OneStored(t: M.State)
    requires |t.r| == 16
    ensures M.AllWrites(STORE_D0, t).0 == Writes(W, t.ea, t.r[0])
  {
    hide Along, Part, Spot;
    NoneStored(W, false, OnlyD0(), t.r, M.Next(W, false, t.ea), 1);
    assert Writes(W, t.ea, t.r[0]) + [] == Writes(W, t.ea, t.r[0]);
  }

  /** The two bytes at 0x1000. */
  function Word1000(): set<Loc> { {Spot(0x1000, 0), Spot(0x1000, 1)} }

  lemma AttemptIs(t: M.State, m: Bytes, access: set<Loc>)
    requires |t.r| == 16 && t.ea == 0x1000 && t.run
    ensures !M.Transfer(STORE_D0, t, m, {}).ok && M.Transfer(STORE_D0, t, m, {}).s == t
    ensures M.Transfer(STORE_D0, t, m, Word1000()).ok && M.Transfer(STORE_D0, t, m, Word1000()).s.pc == t.pc
  {
    hide Along, Part, Spot;
    OneStored(t);
    var w := Writes(W, 0x1000, t.r[0]);
    assert Reached(w, {}) == 0;
    assert w[1..][0].l in Word1000() && w[1..][1..] == [];
    assert Reached(w[1..][1..], Word1000()) == 0;
    assert Reached(w, Word1000()) == 2;
  }

  /** A store that faults once comes back with the program counter at its extension word. */
  lemma RestartMovesPc(m: Bytes)
    ensures M.Proper(STORE_D0, Start()) && M.AllFault(STORE_D0, Start(), m, [{}])
    ensures M.Rerun(STORE_D0, Start(), m, [{}], Word1000()).ok && M.Attempt(STORE_D0, Start(), m, Word1000()).ok
    ensures M.Rerun(STORE_D0, Start(), m, [{}], Word1000()).s.pc != M.Attempt(STORE_D0, Start(), m, Word1000()).s.pc
  {
    hide M.Transfer, Spot, Along;
    var t := M.Begin(STORE_D0, Start());
    AttemptIs(t, m, {});
    var o := M.Attempt(STORE_D0, Start(), m, {});
    AttemptIs(M.Begin(STORE_D0, o.s), o.m, {});
    M.Restart(STORE_D0, Start(), m, [{}], Word1000(), Word1000());
  }

  // ---- A base register in its own list ----

  function OnlyA0(): (mask: seq<bool>)
    ensures |mask| == 16 && forall k :: 0 <= k < 16 ==> (mask[k] <==> k == 8)
  {
    seq(16, k => k == 8)
  }

  /** MOVEM.L (A0)+,A0. */
  const LOAD_A0 := M.Instr(M.LoadIncr, L, 0, OnlyA0(), 0, 0)

  function From1000(): M.State { M.State(seq(16, _ => 0x1000), 0, false, 0x100) }

  /** A long of zero at 0x1000. */
  function Zero1000(): Bytes {
    map[Spot(0x1000, 0) := 0, Spot(0x1000, 1) := 0, Spot(0x1000, 2) := 0, Spot(0x1000, 3) := 0]
  }

  lemma {:induction false} NoneLoaded(size: Size, b: nat, mask: seq<bool>, r: seq<bv32>, m: Bytes, access: set<Loc>,
                                      i: nat, n: nat)
    requires |mask| == 16 && |r| == 17 && b <= 16 && i <= n <= 16 && access <= m.Keys
    requires forall k :: i <= k < n ==> !mask[k]
    ensures M.LoadFrom(size, b, mask, r, m, access, i) == M.LoadFrom(size, b, mask, r, m, access, n)
    decreases n - i
  {
    if i < n {
      NoneLoaded(size, b, mask, r, m, access, i + 1, n);
    }
  }

  lemma ZeroFetched()
    ensures M.Readable(L, 0x1000, Zero1000().Keys) && M.Loaded(L, 8, 0x1000, M.Fetched(L, 0x1000, Zero1000())) == 0
    ensures Along(0, Bytes32(L)) == 4
  {
    hide Spot;
  }

  /** A0 ends at 4, behind the zero it was loaded with, and not at 0x1004 behind its place. */
  lemma BaseLost()
    ensures var o := M.Attempt(LOAD_A0, From1000(), Zero1000(), Zero1000().Keys);
            o.ok && o.s.r[8] == 4
  {
    hide M.Readable, M.Loaded, M.Fetched, Zero1000, Along;
    ZeroFetched();
    var m, q := Zero1000(), M.Slots(LOAD_A0, M.Begin(LOAD_A0, From1000()));
    NoneLoaded(L, 8, OnlyA0(), q, m, m.Keys, 0, 8);
    var p := M.LoadOne(L, 8, 8, q, m);
    assert M.LoadFrom(L, 8, OnlyA0(), q, m, m.Keys, 8) == M.LoadFrom(L, 8, OnlyA0(), p, m, m.Keys, 9);
    NoneLoaded(L, 8, OnlyA0(), p, m, m.Keys, 9, 16);
  }

  // ---- Exceptions between the attempts ----

  /** The fault of a MOVEM in supervisor mode, with an idle handler; the interrupt stack pointer is isp. */
  function IdleTrip(s: M.State, isp: bv32, m: Bytes): Trip
    requires |s.r| == 16
  {
    var sr := E.Sr(false, false, false, false, false, 7, false, true, 0);
    var e := E.State(sr, s.r[15], 0, isp, 0, s.pc, s.pc, s.ea, s.run, false, Ssw(0, 0, s.run), 0);
    var (h, mh) := E.Entered(e, E.Access, map[], 0);
    Trip(e, 0, 0, map[], 0, h, mh, m)
  }

  lemma IdleCaught(s: M.State, isp: bv32, m: Bytes)
    requires |s.r| == 16
    ensures Caught(IdleTrip(s, isp, m), s) && Handled(IdleTrip(s, isp, m))
    ensures IdleTrip(s, isp, m).e.a7 == E.Active(IdleTrip(s, isp, m).e) <==> s.r[15] == isp
  {
    hide E.Entered, T.HandlerDone, Ssw;
    T.IdleHandler(E.Access, IdleTrip(s, isp, m).e, map[], 0);
    assert Plain(0);
  }

  /** One such trip after every attempt, with the stack pointer in force. */
  ghost function IdleTrips(op: M.Instr, s: M.State, m: Bytes, faults: seq<set<Loc>>): (trips: seq<Trip>)
    requires M.Proper(op, s) && Mapped(op, m, faults, {})
    ensures |trips| == |faults|
    decreases |faults|
  {
    if faults == [] then []
    else
      var o := M.Attempt(op, s, m, faults[0]);
      M.AttemptKeepsMemory(op, s, m, faults[0]);
      [IdleTrip(o.s, o.s.r[15], o.m)] + IdleTrips(op, o.s, o.m, faults[1..])
  }

  /** Every run of faults has exceptions and handlers that meet the hypotheses of RestartThrough. */
  lemma {:induction false} TripsMet(op: M.Instr, s: M.State, m: Bytes, faults: seq<set<Loc>>)
    requires M.Proper(op, s) && Mapped(op, m, faults, {}) && !E.OddPc(s.pc) && E.Short32(s.pc) == s.pc
    requires M.AllFault(op, s, m, faults)
    ensures Trips(op, s, m, faults, IdleTrips(op, s, m, faults), {})
    ensures forall t :: t in IdleTrips(op, s, m, faults) ==> t.e.a7 == E.Active(t.e)
    decreases |faults|
  {
    hide M.Attempt, Caught, Handled, E.Rte, E.Active, E.Short32, E.OddPc, Returned, Alike;
    if faults != [] {
      var o := M.Attempt(op, s, m, faults[0]);
      M.AttemptKeepsMemory(op, s, m, faults[0]);
      AlikeSelf(o.m, {});
      MappedAfter(op, s, m, faults, o.m, {});
      FaultedState(op, s, m, faults[0]);
      var t := IdleTrip(o.s, o.s.r[15], o.m);
      IdleCaught(o.s, o.s.r[15], o.m);
      TripBack(o.s, t);
      TripsMet(op, o.s, o.m, faults[1..]);
      assert IdleTrips(op, s, m, faults)[1..] == IdleTrips(op, o.s, o.m, faults[1..]);
    }
  }

  /** Two handled faults that do not give a MOVEM back: one of an instruction at 0x10000, and one taken
      while the interrupt stack pointer was not A7. */
  lemma TripsLost(r: seq<bv32>)
    requires |r| == 16 && r[15] == 0x2000
    ensures var s := M.State(r, 0x3000, true, 0x1_0000);
            var t := IdleTrip(s, 0x2000, map[]);
            Caught(t, s) && Handled(t) && E.Rte(t.h, t.mh).Resumed? && Returned(s, t) != s
    ensures var s := M.State(r, 0x3000, true, 0x100);
            var t := IdleTrip(s, 0x1000, map[]);
            Caught(t, s) && Handled(t) && E.Rte(t.h, t.mh).Resumed? && Returned(s, t) != s
  {
    EvenPlaces();
    hide Caught, Handled, E.Rte, E.Active, E.Short32, E.OddPc, Returned, IdleTrip;
    var s, t := M.State(r, 0x3000, true, 0x1_0000), M.State(r, 0x3000, true, 0x100);
    IdleCaught(s, 0x2000, map[]);
    TripBack(s, IdleTrip(s, 0x2000, map[]));
    IdleCaught(t, 0x1000, map[]);
    TripBack(t, IdleTrip(t, 0x1000, map[]));
  }

  lemma EvenPlaces()
    ensures !E.OddPc(0x1_0000) && E.Short32(0x1_0000) != 0x1_0000 && !E.OddPc(0x100)
  {}

  // ---- A MOVEM in the handler ----

  /** MOVEM.L D0,-(A7); in the predecrement forms the list is turned round. */
  const PUSH_D0 := M.Instr(M.StoreDecr, L, 7, seq(15, _ => false) + [true], 0, 0)

  /** The handler of a MOVEM's fault saves D0 in front of the place where that MOVEM was, and its
      stack pointer goes there. */
  lemma HandlerMovem(r: seq<bv32>, m: Bytes, access: set<Loc>)
    requires |r| == 16 && r[15] == 0x2000
    requires {Spot(0x3000, 0), Spot(0x3000, 1), Spot(0x3000, 2), Spot(0x3000, 3)} <= access
    requires {Spot(0x1FFC, 0), Spot(0x1FFC, 1), Spot(0x1FFC, 2), Spot(0x1FFC, 3)} <= access
    ensures var s := M.State(r, 0x3000, true, 0x100);
            var o, f := M.Attempt(PUSH_D0, s, m, access), M.Attempt(PUSH_D0, Cleared(s), m, access);
            && o.s.r[15] == 0x3000 && o.m == Apply(Writes(L, 0x3000, r[0]), m)
            && f.s.r[15] == 0x1FFC && f.m == Apply(Writes(L, 0x1FFC, r[0]), m)
  {
    var s := M.State(r, 0x3000, true, 0x100);
    var t, u := M.Begin(PUSH_D0, s), M.Begin(PUSH_D0, Cleared(s));
    PushPlaces();
    hide M.Transfer, Along, Back, Writes, Apply, Spot;
    Pushes(t, m, access);
    Pushes(u, m, access);
  }

  /** The transfer of that instruction. */
  lemma Pushes(t: M.State, m: Bytes, access: set<Loc>)
    requires |t.r| == 16 && {Spot(t.ea, 0), Spot(t.ea, 1), Spot(t.ea, 2), Spot(t.ea, 3)} <= access
    ensures var o := M.Transfer(PUSH_D0, t, m, access);
            o.ok && o.m == Apply(Writes(L, t.ea, t.r[0]), m) && o.s.r == t.r[15 := Along(Back(t.ea, 4), 4)]
  {
    hide Along, Back, Part, Spot;
    OnePushed(t, 0);
    AllReached(t.ea, t.r[0], access);
  }

  lemma PushPlaces()
    ensures Back(0x2000, 4) == 0x1FFC
    ensures Along(Back(0x3000, 4), 4) == 0x3000 && Along(Back(0x1FFC, 4), 4) == 0x1FFC
  {}

  lemma {:induction false} OnePushed(t: M.State, i: nat)
    requires |t.r| == 16 && i < 16
    ensures M.StoreFrom(L, true, PUSH_D0.mask, t.r, t.ea, i) == (Writes(L, t.ea, t.r[0]), Back(t.ea, 4))
    decreases 16 - i
  {
    hide Along, Back, Part, Spot;
    if i < 15 {
      OnePushed(t, i + 1);
    } else {
      assert Writes(L, t.ea, t.r[0]) + [] == Writes(L, t.ea, t.r[0]);
    }
  }

  lemma AllReached(a: bv32, v: bv32, access: set<Loc>)
    requires {Spot(a, 0), Spot(a, 1), Spot(a, 2), Spot(a, 3)} <= access
    ensures var w := Writes(L, a, v); Reached(w, access) == |w| && w[..|w|] == w
  {
    hide Along, Part, Spot;
    var w := Writes(L, a, v);
    assert forall k :: 0 <= k < |w| ==> w[k].l in access;
    assert w[..|w|] == w;
  }
}
