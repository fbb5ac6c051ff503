/**
 MOVEM from (An)+ with An in its list: the load goes on from the value loaded, so that An does not
 end behind the last place unless it has been loaded with the address of its own.
 */
module MovemBase {
  import opened Addresses
  import opened ByteBus
  import opened ByteWrites
  import opened Movem
  import opened MovemRoundTrip
  import NumberFacts

  /** How far the places behind An are moved, when An's place is a and v is loaded. */
  function Moved(ea: bv32, v: bv32, a: bv32): bv32 { Along(ea, Back(v, a)) }

  lemma SumSwap(x: bv32, m: bv32, n: bv32)
    ensures Along(x + m, n) == Along(x + n, m)
  {}

  lemma AlongSwap(x: bv32, m: bv32, n: bv32)
    ensures Along(Along(x, m), n) == Along(Along(x, n), m)
  {
    hide Along;
    AlongInline(x, m);
    AlongInline(x, n);
    SumSwap(x, m, n);
  }

  lemma SumBack(a: bv32, v: bv32)
    ensures Along(a, v - a) == v
  {}

  lemma AlongBack(a: bv32, v: bv32)
    ensures Along(a, Back(v, a)) == v
  {
    hide Along, Back;
    BackInline(v, a);
    SumBack(a, v);
  }

  lemma AlongSame(x: bv32, v: bv32, a: bv32)
    ensures Along(x, Back(v, a)) == x <==> v == a
  {
    hide Along, Back;
    AlongInline(x, Back(v, a));
    NumberFacts.NotMoved(x, Back(v, a));
    BackInline(v, a);
    NumberFacts.NoDistance(v, a);
  }

  lemma {:induction false} AddrMoved(size: Size, mask: seq<bool>, ea: bv32, d: bv32, k: nat)
    requires |mask| == 16 && k <= 16
    ensures AddrAt(size, false, mask, Along(ea, d), k) == Along(AddrAt(size, false, mask, ea, k), d)
  {
    hide Along, StepOf;
    if k > 0 {
      AddrMoved(size, mask, ea, d, k - 1);
      AlongSwap(AddrAt(size, false, mask, ea, k - 1), d, StepOf(size));
    }
  }

  /** The loads before An's own. */
  lemma {:induction false} LoadsBefore(size: Size, b: nat, mask: seq<bool>, ea: bv32, q: seq<bv32>, m: Bytes,
                                       access: set<Loc>, k: nat) returns (p: seq<bv32>)
    requires |mask| == 16 && |q| == 17 && b < 16 && k <= b && access <= m.Keys
    requires q[b] == AddrAt(size, false, mask, ea, k) && LoadFrom(size, b, mask, q, m, access, k).1
    ensures |p| == 17 && LoadFrom(size, b, mask, q, m, access, k) == LoadFrom(size, b, mask, p, m, access, b)
    ensures p[b] == AddrAt(size, false, mask, ea, b)
    ensures forall t :: 0 <= t < 16 && t != b && !(k <= t < b && mask[t]) ==> p[t] == q[t]
    ensures forall t :: k <= t < b && mask[t] ==>
              Readable(size, AddrAt(size, false, mask, ea, t), m.Keys) &&
              p[t] == Loaded(size, t, q[t], Fetched(size, AddrAt(size, false, mask, ea, t), m))
    decreases b - k
  {
    hide Along, Fetched, Spot, Readable, AddrAt, Loaded, Bytes32, Next;
    p := q;
    if k < b {
      AddrNext(size, false, mask, ea, k);
      if mask[k] {
        ReadableIn(size, q[b], access, m.Keys);
        UpIs(size, q[b]);
        p := LoadsBefore(size, b, mask, ea, LoadOne(size, b, k, q, m), m, access, k + 1);
      } else {
        p := LoadsBefore(size, b, mask, ea, q, m, access, k + 1);
      }
    }
  }

  /** What is loaded into An. */
  function Own(size: Size, b: nat, m: Bytes, a: bv32): bv32
    requires Readable(size, a, m.Keys)
  {
    Taken(size, b, 0, NumberAt(size, m, a))
  }

  lemma OwnLoaded(size: Size, b: nat, m: Bytes, a: bv32, old_: bv32)
    requires Readable(size, a, m.Keys) && b >= 8
    ensures Loaded(size, b, old_, Fetched(size, a, m)) == Own(size, b, m, a)
  {
    FetchedNumber(size, m, a);
    LoadedNumber(size, b, old_, NumberAt(size, m, a));
    hide Fetched, NumberAt, Loaded, Readable;
  }

  /** An's own load, and where the next place is. */
  lemma OwnLoad(size: Size, b: nat, mask: seq<bool>, ea: bv32, q: seq<bv32>, m: Bytes, access: set<Loc>)
    requires |mask| == 16 && |q| == 17 && 8 <= b < 16 && mask[b] && access <= m.Keys
    requires q[b] == AddrAt(size, false, mask, ea, b) && LoadFrom(size, b, mask, q, m, access, b).1
    ensures Readable(size, q[b], m.Keys)
    ensures var p := LoadOne(size, b, b, q, m);
            && LoadFrom(size, b, mask, q, m, access, b) == LoadFrom(size, b, mask, p, m, access, b + 1)
            && p[b] == AddrAt(size, false, mask, Moved(ea, Own(size, b, m, q[b]), q[b]), b + 1)
            && (forall t :: 0 <= t < 16 && t != b ==> p[t] == q[t])
  {
    hide Along, Back, Fetched, Spot, Readable, AddrAt, Loaded, Next, Own, StepOf, Bytes32;
    ReadableIn(size, q[b], access, m.Keys);
    var v := Own(size, b, m, q[b]);
    OwnLoaded(size, b, m, q[b], q[b]);
    AddrMoved(size, mask, ea, Back(v, q[b]), b);
    AlongBack(q[b], v);
    AddrNext(size, false, mask, Moved(ea, v, q[b]), b);
    UpIs(size, v);
  }

  /** What such a load leaves: the places behind An's are moved by the difference between what it is
      loaded with and its own place, and An with them. */
  ghost predicate BaseTaken(op: Instr, s: State, m: Bytes, p: seq<bv32>)
    requires Proper(op, s)
  {
    var b, ea := Base(op), s.r[Base(op)];
    var a := AddrAt(op.size, false, op.mask, ea, b);
    && |p| == 16 && Readable(op.size, a, m.Keys)
    && var there := Moved(ea, Own(op.size, b, m, a), a);
       && p[b] == AddrAt(op.size, false, op.mask, there, 16)
       && (forall k :: 0 <= k < 16 && !op.mask[k] ==> p[k] == s.r[k])
       && (forall k :: 0 <= k < 16 && op.mask[k] && k != b ==>
             TakenAt(op.size, m, AddrAt(op.size, false, op.mask, if k < b then ea else there, k), k, s.r[k], p[k]))
  }

  predicate TakenAt(size: Size, m: Bytes, a: bv32, k: nat, old_: bv32, x: bv32) {
    Readable(size, a, m.Keys) && x == Taken(size, k, old_, NumberAt(size, m, a))
  }

  lemma TakenThere(size: Size, m: Bytes, a: bv32, k: nat, old_: bv32)
    requires Readable(size, a, m.Keys)
    ensures TakenAt(size, m, a, k, old_, Loaded(size, k, old_, Fetched(size, a, m)))
  {
    hide Readable, NumberAt, Taken, Loaded, Fetched;
    FetchedNumber(size, m, a);
    LoadedNumber(size, k, old_, NumberAt(size, m, a));
  }

  lemma LoadBase(op: Instr, s: State, m: Bytes, access: set<Loc>)
    requires Proper(op, s) && op.form == LoadIncr && op.mask[Base(op)] && !s.run && access <= m.Keys
    requires Attempt(op, s, m, access).ok
    ensures BaseTaken(op, s, m, Attempt(op, s, m, access).s.r)
  {
    hide Along, LoadFrom, AddrAt, Readable, Fetched, Loaded, Own, LoadOne, TakenAt, Moved;
    var b, ea := Base(op), s.r[Base(op)];
    var a := AddrAt(op.size, false, op.mask, ea, b);
    AddrStart(op.size, false, op.mask, ea);
    var q := LoadsBefore(op.size, b, op.mask, ea, Slots(op, Begin(op, s)), m, access, 0);
    OwnLoad(op.size, b, op.mask, ea, q, m, access);
    var there := Moved(ea, Own(op.size, b, m, a), a);
    LoadsFound(op.size, b, op.mask, there, LoadOne(op.size, b, b, q, m), m, access, b + 1);
    var p := Attempt(op, s, m, access).s.r;
    forall k | 0 <= k < 16 && op.mask[k] && k != b
      ensures TakenAt(op.size, m, AddrAt(op.size, false, op.mask, if k < b then ea else there, k), k, s.r[k], p[k])
    {
      TakenThere(op.size, m, AddrAt(op.size, false, op.mask, if k < b then ea else there, k), k, s.r[k]);
    }
  }

  /** An ends behind the last of all places if and only if it was loaded with its own place's address. */
  lemma BaseEndsIff(op: Instr, s: State, m: Bytes, access: set<Loc>)
    requires Proper(op, s) && op.form == LoadIncr && op.mask[Base(op)] && !s.run && access <= m.Keys
    requires Attempt(op, s, m, access).ok
    ensures var b, ea := Base(op), s.r[Base(op)];
            var a := AddrAt(op.size, false, op.mask, ea, b);
            && Readable(op.size, a, m.Keys)
            && (Attempt(op, s, m, access).s.r[b] == AddrAt(op.size, false, op.mask, ea, 16)
                <==> Own(op.size, b, m, a) == a)
  {
    hide Attempt, AddrAt, Readable, Own, TakenAt, Along, Back;
    LoadBase(op, s, m, access);
    var b, ea := Base(op), s.r[Base(op)];
    var a := AddrAt(op.size, false, op.mask, ea, b);
    var v := Own(op.size, b, m, a);
    AddrMoved(op.size, op.mask, ea, Back(v, a), 16);
    AlongSame(AddrAt(op.size, false, op.mask, ea, 16), v, a);
  }

  // ---- Pushed and popped with An in the list ----

  /** An comes back from -(An) and (An)+ if and only if what was stored of it is the address it was
      stored at. */
  lemma PopBaseIff(save: Instr, load: Instr, s: State, m: Bytes, access: set<Loc>, s': State, access': set<Loc>)
    requires save.form == StoreDecr && load.form == LoadIncr && save.size == load.size && save.reg == load.reg
    requires Proper(save, s) && !s.run && save.mask[15 - Base(save)] && Attempt(save, s, m, access).ok
    requires load.mask == Reversed(save.mask) && Proper(load, s') && !s'.run
    requires s'.r[Base(save)] == Attempt(save, s, m, access).s.r[Base(save)]
    requires access' <= Attempt(save, s, m, access).m.Keys
    requires Attempt(load, s', Attempt(save, s, m, access).m, access').ok
    ensures var p, b := Attempt(load, s', Attempt(save, s, m, access).m, access').s.r, Base(save);
            var ea := Back(s.r[b], StepOf(save.size));
            p[b] == s.r[b] <==> Taken(save.size, b, 0, ea) == AddrAt(save.size, true, save.mask, ea, 15 - b)
  {
    hide Attempt, AddrAt, Stands, Readable, NumberAt, Taken, StepOf, Reversed, Along, Back;
    var o, b := Attempt(save, s, m, access), Base(save);
    var ea := Back(s.r[b], StepOf(save.size));
    DecrTable(save, s, m, access);
    ReversedAt(save.mask, b);
    BaseEndsIff(load, s', o.m, access');
    StepBack(s.r[b], StepOf(save.size));
    PlacesMeet(save.size, save.mask, ea, 16);
    AddrStart(save.size, true, save.mask, ea);
    PlaceMet(save.size, save.mask, ea, b);
    HeldTaken(save.size, o.m, AddrAt(save.size, true, save.mask, ea, 15 - b), ea, b, 0);
  }

  /** How far the first k iterations of a store have gone down. */
  function Down(size: Size, mask: seq<bool>, k: nat): bv32
    requires |mask| == 16 && k <= 16
  {
    if k == 0 then 0
    else if mask[k - 1] then Along(Down(size, mask, k - 1), StepOf(size)) else Down(size, mask, k - 1)
  }

  /** At most a long an iteration. */
  function Most(k: nat): bv32
    requires k <= 16
  {
    64 - Room(k)
  }

  predicate Within(d: bv32, most: bv32) { d <= most }

  lemma DownMore(d: bv32, step: bv32, room: bv32)
    requires room <= 60 && d <= 60 - room && 0 < step <= 4
    ensures Within(Along(d, step), 64 - room) && Along(d, step) != 0
  {}

  lemma DownKept(d: bv32, room: bv32)
    requires room <= 60 && d <= 60 - room
    ensures Within(d, 64 - room)
  {}

  lemma StepSmall(size: Size)
    ensures 0 < StepOf(size) <= 4
  {}

  lemma RoomLess(k: nat)
    requires 0 < k <= 16
    ensures Room(k) <= 60 && 64 - Room(k - 1) == 60 - Room(k)
  {}

  lemma MostNext(size: Size, d: bv32, k: nat)
    requires 0 < k <= 16 && Within(d, Most(k - 1))
    ensures Within(d, Most(k)) && Within(Along(d, StepOf(size)), Most(k)) && Along(d, StepOf(size)) != 0
  {
    RoomLess(k);
    StepSmall(size);
    hide Along, StepOf, Room;
    DownMore(d, StepOf(size), Room(k));
    DownKept(d, Room(k));
  }

  lemma NothingYet()
    ensures Within(0, Most(0))
  {}

  predicate NoneBefore(mask: seq<bool>, k: nat)
    requires k <= |mask|
  {
    forall i :: 0 <= i < k ==> !mask[i]
  }

  lemma {:induction false} DownIff(size: Size, mask: seq<bool>, k: nat)
    requires |mask| == 16 && k <= 16
    ensures Within(Down(size, mask, k), Most(k))
    ensures Down(size, mask, k) == 0 <==> NoneBefore(mask, k)
  {
    hide StepOf, Along, Most, Within;
    if k == 0 {
      NothingYet();
    } else {
      DownIff(size, mask, k - 1);
      MostNext(size, Down(size, mask, k - 1), k);
    }
  }

  lemma BackMore(a: bv32, m: bv32, n: bv32)
    ensures Back(a - m, n) == Back(a, m + n)
  {}

  lemma BackTwice(a: bv32, m: bv32, n: bv32)
    ensures Back(Back(a, m), n) == Back(a, Along(m, n))
  {
    hide Back, Along;
    BackInline(a, m);
    AlongInline(m, n);
    BackMore(a, m, n);
  }

  lemma BackNone(a: bv32)
    ensures Back(a, 0) == a
  {}

  lemma {:induction false} AddrDown(size: Size, mask: seq<bool>, ea: bv32, k: nat)
    requires |mask| == 16 && k <= 16
    ensures AddrAt(size, true, mask, ea, k) == Back(ea, Down(size, mask, k))
  {
    hide StepOf, Along, Back;
    if k == 0 {
      BackNone(ea);
    } else {
      AddrDown(size, mask, ea, k - 1);
      BackTwice(ea, Down(size, mask, k - 1), StepOf(size));
    }
  }

  lemma BackSame(a: bv32, d: bv32)
    ensures a == Back(a, d) <==> d == 0
  {}

  /** With longs: if and only if no register above An is listed. */
  lemma PopLongBaseIff(save: Instr, load: Instr, s: State, m: Bytes, access: set<Loc>, s': State, access': set<Loc>)
    requires save.form == StoreDecr && load.form == LoadIncr && save.size == load.size == L && save.reg == load.reg
    requires Proper(save, s) && !s.run && save.mask[15 - Base(save)] && Attempt(save, s, m, access).ok
    requires load.mask == Reversed(save.mask) && Proper(load, s') && !s'.run
    requires s'.r[Base(save)] == Attempt(save, s, m, access).s.r[Base(save)]
    requires access' <= Attempt(save, s, m, access).m.Keys
    requires Attempt(load, s', Attempt(save, s, m, access).m, access').ok
    ensures var p, b := Attempt(load, s', Attempt(save, s, m, access).m, access').s.r, Base(save);
            p[b] == s.r[b] <==> NoneBefore(save.mask, 15 - b)
  {
    hide Attempt, AddrAt, Taken, StepOf, Reversed, Back, Down;
    PopBaseIff(save, load, s, m, access, s', access');
    var b := Base(save);
    var ea := Back(s.r[b], StepOf(L));
    TakenLong(b, 0, ea);
    AddrDown(L, save.mask, ea, 15 - b);
    DownIff(L, save.mask, 15 - b);
    BackSame(ea, Down(L, save.mask, 15 - b));
  }

  /** An loaded with its own place's address: the places behind it are where they should be. */
  lemma NotMoved(ea: bv32, v: bv32, a: bv32)
    ensures v == a ==> Moved(ea, v, a) == ea
  {
    AlongSame(ea, v, a);
    hide Along, Back;
  }

  /** One register popped. */
  lemma Popped(save: Instr, load: Instr, s: State, m: Bytes, access: set<Loc>, s': State, access': set<Loc>, k: nat)
    requires save.form == StoreDecr && load.form == LoadIncr && save.size == load.size == L && save.reg == load.reg
    requires Proper(save, s) && !s.run && save.mask[15 - Base(save)] && Attempt(save, s, m, access).ok
    requires load.mask == Reversed(save.mask) && Proper(load, s') && !s'.run
    requires s'.r[Base(save)] == Attempt(save, s, m, access).s.r[Base(save)]
    requires access' <= Attempt(save, s, m, access).m.Keys
    requires Attempt(load, s', Attempt(save, s, m, access).m, access').ok
    requires k < 16 && k != Base(save) && save.mask[15 - k]
    requires var o, b := Attempt(save, s, m, access), Base(save);
             var a := AddrAt(L, false, load.mask, s'.r[b], b);
             BaseTaken(load, s', o.m, Attempt(load, s', o.m, access').s.r) && Own(L, b, o.m, a) == a
    ensures Attempt(load, s', Attempt(save, s, m, access).m, access').s.r[k] == s.r[k]
  {
    hide Attempt, AddrAt, Stands, Readable, NumberAt, Taken, StepOf, Reversed, Along, Back, Own, Moved;
    var o, b := Attempt(save, s, m, access), Base(save);
    var ea := Back(s.r[b], StepOf(L));
    var a := AddrAt(L, false, load.mask, s'.r[b], b);
    NotMoved(s'.r[b], Own(L, b, o.m, a), a);
    DecrTable(save, s, m, access);
    ReversedAt(save.mask, b);
    ReversedAt(save.mask, k);
    PlaceMet(L, save.mask, ea, k);
    HeldTaken(L, o.m, AddrAt(L, true, save.mask, ea, 15 - k), s.r[k], k, s'.r[k]);
    TakenLong(k, s'.r[k], s.r[k]);
  }

  /**
   MOVEM.L to -(An) and from (An)+ with An in its own list and the list turned round, whatever
   becomes of the other listed registers in between: every register is back if and only if none
   above An is listed.
   */
  lemma SaveRestoreIff(save: Instr, load: Instr, s: State, m: Bytes, access: set<Loc>, s': State, access': set<Loc>)
    requires save.form == StoreDecr && load.form == LoadIncr && save.size == load.size == L && save.reg == load.reg
    requires Proper(save, s) && !s.run && save.mask[15 - Base(save)] && Attempt(save, s, m, access).ok
    requires load.mask == Reversed(save.mask) && Proper(load, s') && !s'.run
    requires s'.r[Base(save)] == Attempt(save, s, m, access).s.r[Base(save)]
    requires forall k :: 0 <= k < 16 && !save.mask[15 - k] ==> s'.r[k] == Attempt(save, s, m, access).s.r[k]
    requires access' <= Attempt(save, s, m, access).m.Keys
    requires Attempt(load, s', Attempt(save, s, m, access).m, access').ok
    ensures Attempt(load, s', Attempt(save, s, m, access).m, access').s.r == s.r
            <==> NoneBefore(save.mask, 15 - Base(save))
  {
    hide Attempt, AddrAt, Readable, StepOf, Reversed, Along, Back, Own, Moved, NoneBefore, TakenAt;
    PopLongBaseIff(save, load, s, m, access, s', access');
    var o, b := Attempt(save, s, m, access), Base(save);
    var p := Attempt(load, s', o.m, access').s.r;
    if NoneBefore(save.mask, 15 - b) {
      ReversedAt(save.mask, b);
      LoadBase(load, s', o.m, access');
      BaseEndsIff(load, s', o.m, access');
      DecrTable(save, s, m, access);
      EndBack(save.mask, s.r[b]);
      forall k | 0 <= k < 16 ensures p[k] == s.r[k] {
        ReversedAt(save.mask, k);
        if k != b && save.mask[15 - k] {
          Popped(save, load, s, m, access, s', access', k);
        }
      }
      assert p == s.r;
    }
  }

  /** The load's last place is where the store began. */
  lemma EndBack(mask: seq<bool>, x: bv32)
    requires |mask| == 16
    ensures var ea := Back(x, StepOf(L));
            AddrAt(L, false, Reversed(mask), Along(AddrAt(L, true, mask, ea, 16), StepOf(L)), 16) == x
  {
    hide AddrAt, StepOf, Along, Back, Reversed;
    var ea := Back(x, StepOf(L));
    PlacesMeet(L, mask, ea, 16);
    AddrStart(L, true, mask, ea);
    StepBack(x, StepOf(L));
  }
}
