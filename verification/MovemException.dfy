/**
 A MOVEM that faults, the access fault, its handler, RTE and the next attempt, put together.
 The frames, and whatever else the handlers write, lie in some places that are theirs.
 */
module MovemException {
  import opened Addresses
  import opened ByteBus
  import opened ByteWrites
  import M = Movem
  import E = Exceptions
  import T = ExceptionTheorems
  import X = ExceptionTable

  /**
   One access fault and its handling: the processor when the exception is taken, the two parts
   of the special status word that do not depend on MOVEM, the processor at the RTE, and the
   memory that MOVEM goes on with.
   */
  datatype Trip = Trip(e: E.State, code: bv16, access: bv16, words: E.Words, handler: bv32, h: E.State, mh: E.Words,
                       after: Bytes)

  /** CP, CU, CT and CM are clear. */
  predicate Plain(w: bv16) { w & 0xF000 == 0 }

  /** ACCESS_FAULT: the code of the fault, CM for a MOVEM under way, and what was accessed. */
  function Ssw(code: bv16, access: bv16, run: bool): bv16 { code | (if run then 0x1000 else 0) | access }

  lemma SswBits(code: bv16, access: bv16, run: bool)
    requires Plain(code) && Plain(access)
    ensures E.MovemFault(Ssw(code, access, run)) == run && !E.Traced(Ssw(code, access, run))
  {}

  /** It is the word that ACCESS_FAULT makes. */
  lemma SswIs(code: bv16, a: X.Touch, run: bool)
    requires X.Sound(code, a)
    ensures X.FaultWord(code, run, a) == Ssw(code, X.FaultWord(0, false, a), run)
    ensures Plain(code) && Plain(X.FaultWord(0, false, a))
  {}

  /** The exception is that of a fault that left the MOVEM in state s, with no trace pending. */
  predicate Caught(t: Trip, s: M.State) {
    && |s.r| == 16 && t.e.a7 == s.r[15] && t.e.ea == s.ea && t.e.movemRun == s.run && t.e.oldpc == s.pc
    && !t.e.mustTrace && Plain(t.code) && Plain(t.access) && t.e.ssw == Ssw(t.code, t.access, s.run)
  }

  ghost predicate Handled(t: Trip) {
    var (e, me) := E.Entered(t.e, E.Access, t.words, t.handler);
    T.HandlerDone(E.Access, t.e, e, me, t.h, t.mh)
  }

  /** The MOVEM's part of the processor after the RTE; the handler has kept D0 to A6. */
  function Returned(s: M.State, t: Trip): M.State
    requires |s.r| == 16 && !E.Rte(t.h, t.mh).FormatError?
  {
    var x := E.Rte(t.h, t.mh).s;
    M.State(s.r[15 := x.a7], x.ea, x.movemRun, x.pc)
  }

  lemma EvenHalf(pc: bv32)
    ensures E.OddPc(E.Short32(pc)) == E.OddPc(pc)
  {}

  /**
   The handler resumes the MOVEM, and does so exactly as the fault left it if and only if the
   banked stack pointer in force equalled A7 and the instruction lies in the first 64 KiB.
   */
  lemma TripBack(s: M.State, t: Trip)
    requires Caught(t, s) && Handled(t) && s.run && !E.OddPc(s.pc)
    ensures E.Rte(t.h, t.mh).Resumed?
    ensures Returned(s, t) == s <==> t.e.a7 == E.Active(t.e) && E.Short32(s.pc) == s.pc
  {
    hide Ssw, Plain, E.Entered, E.Rte, E.Active, E.Short32, E.OddPc, E.MovemFault, E.Traced, T.HandlerDone;
    SswBits(t.code, t.access, s.run);
    EvenHalf(s.pc);
    T.EnterAndReturn(E.Access, t.e, t.words, t.handler, t.h, t.mh);
  }

  /** What loads can access is there, and no handler writes it. */
  predicate Mapped(op: M.Instr, m: Bytes, faults: seq<set<Loc>>, free: set<Loc>) {
    !M.Storing(op) ==> forall f :: f in faults ==> f <= m.Keys && f !! free
  }

  lemma MappedAlike(op: M.Instr, m: Bytes, n: Bytes, faults: seq<set<Loc>>, free: set<Loc>)
    requires Alike(m, n, free) && Mapped(op, m, faults, free)
    ensures Mapped(op, n, faults, free)
  {}

  /** The memory that a handler leaves to the next attempt. */
  lemma MappedAfter(op: M.Instr, s: M.State, m: Bytes, faults: seq<set<Loc>>, after: Bytes, free: set<Loc>)
    requires M.Proper(op, s) && faults != [] && Mapped(op, m, faults, free)
    ensures !M.Storing(op) ==> faults[0] <= m.Keys
    ensures Alike(M.Attempt(op, s, m, faults[0]).m, after, free) ==> Mapped(op, after, faults[1..], free)
  {
    hide M.Attempt, Alike;
    M.AttemptKeepsMemory(op, s, m, faults[0]);
    var n := M.Attempt(op, s, m, faults[0]).m;
    if Alike(n, after, free) {
      MappedAlike(op, n, after, faults[1..], free);
    }
  }

  /** Every attempt faults and is handled, each from where the last return left it; the handlers
      write nothing but free places. */
  ghost predicate Trips(op: M.Instr, s: M.State, m: Bytes, faults: seq<set<Loc>>, trips: seq<Trip>, free: set<Loc>)
    requires M.Proper(op, s) && |faults| == |trips| && Mapped(op, m, faults, free)
    decreases |faults|
  {
    faults != [] ==>
      var o := M.Attempt(op, s, m, faults[0]);
      MappedAfter(op, s, m, faults, trips[0].after, free);
      && !o.ok && Caught(trips[0], o.s) && Handled(trips[0]) && !E.Rte(trips[0].h, trips[0].mh).FormatError?
      && Alike(o.m, trips[0].after, free)
      && Trips(op, Returned(o.s, trips[0]), trips[0].after, faults[1..], trips[1..], free)
  }

  /** The attempts with the exceptions between them, and the one that comes through. */
  ghost function Through(op: M.Instr, s: M.State, m: Bytes, faults: seq<set<Loc>>, trips: seq<Trip>, free: set<Loc>,
                         last: set<Loc>): M.Outcome
    requires M.Proper(op, s) && |faults| == |trips| && Mapped(op, m, faults, free) && Mapped(op, m, [last], free)
    requires Trips(op, s, m, faults, trips, free)
    decreases |faults|
  {
    assert last in [last];
    if faults == [] then M.Attempt(op, s, m, last)
    else
      var o := M.Attempt(op, s, m, faults[0]);
      M.AttemptKeepsMemory(op, s, m, faults[0]);
      MappedAfter(op, s, m, faults, trips[0].after, free);
      MappedAlike(op, o.m, trips[0].after, [last], free);
      Through(op, Returned(o.s, trips[0]), trips[0].after, faults[1..], trips[1..], free, last)
  }

  // ---- Memories alike but for the free places ----

  lemma AlikeSelf(m: Bytes, free: set<Loc>)
    ensures Alike(m, m, free)
  {}

  lemma AlikeTrans(m: Bytes, n: Bytes, o: Bytes, free: set<Loc>)
    requires Alike(m, n, free) && Alike(n, o, free)
    ensures Alike(m, o, free)
  {}

  lemma {:induction false} ApplyAlike(w: seq<Write>, m: Bytes, n: Bytes, free: set<Loc>)
    requires Alike(m, n, free)
    ensures Alike(Apply(w, m), Apply(w, n), free)
    decreases |w|
  {
    if w != [] {
      ApplyAlike(w[1..], m[w[0].l := w[0].b], n[w[0].l := w[0].b], free);
    }
  }

  lemma FetchedAlike(size: Size, a: bv32, m: Bytes, n: Bytes, access: set<Loc>, free: set<Loc>)
    requires Alike(m, n, free) && access <= m.Keys && access <= n.Keys && access !! free
    requires M.Readable(size, a, access)
    ensures M.Fetched(size, a, m) == M.Fetched(size, a, n)
  {
    hide Joined, Spot;
    assert m[Spot(a, 0)] == n[Spot(a, 0)] && m[Spot(a, 1)] == n[Spot(a, 1)];
    if size == L {
      assert m[Spot(a, 2)] == n[Spot(a, 2)] && m[Spot(a, 3)] == n[Spot(a, 3)];
    }
  }

  lemma {:induction false} LoadsAlike(size: Size, b: nat, mask: seq<bool>, r: seq<bv32>, m: Bytes, n: Bytes,
                                      access: set<Loc>, i: nat, free: set<Loc>)
    requires |mask| == 16 && |r| == 17 && b <= 16 && i <= 16 && access <= m.Keys && access <= n.Keys
    requires Alike(m, n, free) && access !! free
    ensures M.LoadFrom(size, b, mask, r, m, access, i) == M.LoadFrom(size, b, mask, r, n, access, i)
    decreases 16 - i
  {
    hide M.Fetched, M.Loaded, Along, Spot, M.Readable, Alike;
    if i < 16 {
      if !mask[i] {
        LoadsAlike(size, b, mask, r, m, n, access, i + 1, free);
      } else if M.Readable(size, r[b], access) {
        ReadableMore(size, r[b], access, m.Keys);
        ReadableMore(size, r[b], access, n.Keys);
        FetchedAlike(size, r[b], m, n, access, free);
        LoadsAlike(size, b, mask, M.LoadOne(size, b, i, r, m), m, n, access, i + 1, free);
      }
    }
  }

  lemma ReadableMore(size: Size, a: bv32, access: set<Loc>, more: set<Loc>)
    requires M.Readable(size, a, access) && access <= more
    ensures M.Readable(size, a, more)
  {}

  /** An attempt does the same on such memories. */
  lemma AttemptAlike(op: M.Instr, s: M.State, m: Bytes, n: Bytes, access: set<Loc>, free: set<Loc>)
    requires M.Proper(op, s) && Alike(m, n, free)
    requires !M.Storing(op) ==> access <= m.Keys && access <= n.Keys && access !! free
    ensures var o, q := M.Attempt(op, s, m, access), M.Attempt(op, s, n, access);
            o.s == q.s && o.ok == q.ok && Alike(o.m, q.m, free)
  {
    var t := M.Begin(op, s);
    assert M.Proper(op, t);
    hide M.Begin, M.StoreFrom, M.LoadFrom, Reached, Apply, Alike;
    if M.Storing(op) {
      var w := M.AllWrites(op, t).0;
      ApplyAlike(w[..Reached(w, access)], m, n, free);
    } else {
      LoadsAlike(op.size, M.Counter(op), op.mask, M.Slots(op, t), m, n, access, 0, free);
    }
  }

  lemma FaultedState(op: M.Instr, s: M.State, m: Bytes, access: set<Loc>)
    requires M.Proper(op, s) && (!M.Storing(op) ==> access <= m.Keys)
    ensures var o := M.Attempt(op, s, m, access); !o.ok ==> o.s.run && o.s.pc == s.pc
  {}

  /** One attempt and its exception, on such memories. */
  lemma TripAlike(op: M.Instr, s: M.State, m: Bytes, n: Bytes, faults: seq<set<Loc>>, trips: seq<Trip>, free: set<Loc>)
    requires M.Proper(op, s) && |faults| == |trips| && faults != [] && Alike(m, n, free)
    requires Mapped(op, m, faults, free) && Mapped(op, n, faults, free)
    requires Trips(op, s, n, faults, trips, free) && !E.OddPc(s.pc) && E.Short32(s.pc) == s.pc
    requires trips[0].e.a7 == E.Active(trips[0].e)
    ensures !M.Storing(op) ==> faults[0] <= m.Keys && faults[0] <= n.Keys
    ensures var o, q := M.Attempt(op, s, m, faults[0]), M.Attempt(op, s, n, faults[0]);
            && !o.ok && o.s == q.s && o.s.pc == s.pc && Alike(o.m, trips[0].after, free)
            && (!M.Storing(op) ==> o.m == m)
            && !E.Rte(trips[0].h, trips[0].mh).FormatError? && Returned(q.s, trips[0]) == q.s
            && Mapped(op, trips[0].after, faults[1..], free)
            && Trips(op, q.s, trips[0].after, faults[1..], trips[1..], free)
  {
    hide M.Attempt, Caught, Handled, E.Rte, E.Active, E.Short32, E.OddPc, Returned, Alike;
    var o, q := M.Attempt(op, s, m, faults[0]), M.Attempt(op, s, n, faults[0]);
    AttemptAlike(op, s, m, n, faults[0], free);
    M.AttemptKeepsMemory(op, s, m, faults[0]);
    FaultedState(op, s, n, faults[0]);
    TripBack(q.s, trips[0]);
    AlikeTrans(o.m, q.m, trips[0].after, free);
    MappedAfter(op, s, n, faults, trips[0].after, free);
  }

  /** The first attempt of a run of them. */
  lemma RerunStep(op: M.Instr, s: M.State, m: Bytes, faults: seq<set<Loc>>, last: set<Loc>)
    requires M.Proper(op, s) && faults != []
    requires !M.Storing(op) ==> last <= m.Keys && forall f :: f in faults ==> f <= m.Keys
    ensures var o := M.Attempt(op, s, m, faults[0]);
            && (!M.Storing(op) ==> o.m == m && last <= m.Keys && forall f :: f in faults[1..] ==> f <= m.Keys)
            && M.Rerun(op, s, m, faults, last) == M.Rerun(op, o.s, o.m, faults[1..], last)
            && (M.AllFault(op, s, m, faults) <==> !o.ok && M.AllFault(op, o.s, o.m, faults[1..]))
  {
    hide M.Attempt;
    M.AttemptKeepsMemory(op, s, m, faults[0]);
  }

  lemma MappedIs(op: M.Instr, m: Bytes, faults: seq<set<Loc>>, last: set<Loc>, free: set<Loc>)
    requires Mapped(op, m, faults, free) && Mapped(op, m, [last], free)
    ensures !M.Storing(op) ==> last <= m.Keys && last !! free && forall f :: f in faults ==> f <= m.Keys
  {
    assert last in [last];
  }

  /** With the stack pointers in force, the exceptions between the attempts leave no trace but in
      the free places. */
  lemma {:induction false} SameAsRerun(op: M.Instr, s: M.State, m: Bytes, n: Bytes, faults: seq<set<Loc>>,
                                       trips: seq<Trip>, free: set<Loc>, last: set<Loc>)
    requires M.Proper(op, s) && |faults| == |trips| && Alike(m, n, free)
    requires Mapped(op, m, faults, free) && Mapped(op, m, [last], free)
    requires Mapped(op, n, faults, free) && Mapped(op, n, [last], free)
    requires Trips(op, s, n, faults, trips, free) && !E.OddPc(s.pc) && E.Short32(s.pc) == s.pc
    requires forall t :: t in trips ==> t.e.a7 == E.Active(t.e)
    ensures !M.Storing(op) ==> last <= m.Keys && forall f :: f in faults ==> f <= m.Keys
    ensures M.AllFault(op, s, m, faults)
    ensures var o, q := M.Rerun(op, s, m, faults, last), Through(op, s, n, faults, trips, free, last);
            o.s == q.s && o.ok == q.ok && Alike(o.m, q.m, free)
    decreases |faults|
  {
    MappedIs(op, m, faults, last, free);
    MappedIs(op, n, faults, last, free);
    hide M.Attempt, Caught, Handled, E.Rte, E.Active, E.Short32, E.OddPc, Returned, Alike;
    if faults == [] {
      AttemptAlike(op, s, m, n, last, free);
    } else {
      var o, after := M.Attempt(op, s, m, faults[0]), trips[0].after;
      TripAlike(op, s, m, n, faults, trips, free);
      RerunStep(op, s, m, faults, last);
      MappedAlike(op, o.m, after, [last], free);
      MappedRest(op, m, faults, free);
      hide M.Rerun, M.AllFault, Trips, Mapped;
      SameAsRerun(op, o.s, o.m, after, faults[1..], trips[1..], free, last);
    }
  }

  lemma MappedRest(op: M.Instr, m: Bytes, faults: seq<set<Loc>>, free: set<Loc>)
    requires faults != [] && Mapped(op, m, faults, free)
    ensures Mapped(op, m, faults[1..], free)
  {}

  /**
   A MOVEM through any number of access faults, each with its frame, its handler and its RTE,
   leaves the registers, EA and movem_run of a run without faults, and the memory of that run but
   for the places the handlers write, if the banked stack pointer is in force at each fault and the
   instruction lies in the first 64 KiB.
   */
  lemma RestartThrough(op: M.Instr, s: M.State, m: Bytes, faults: seq<set<Loc>>, trips: seq<Trip>, free: set<Loc>,
                       last: set<Loc>, full: set<Loc>)
    requires M.Proper(op, s) && !s.run && |faults| == |trips|
    requires Mapped(op, m, faults, free) && Mapped(op, m, [last, full], free)
    requires Trips(op, s, m, faults, trips, free) && !E.OddPc(s.pc) && E.Short32(s.pc) == s.pc
    requires forall t :: t in trips ==> t.e.a7 == E.Active(t.e)
    ensures Mapped(op, m, [last], free) && (!M.Storing(op) ==> full <= m.Keys)
    ensures var o, f := Through(op, s, m, faults, trips, free, last), M.Attempt(op, s, m, full);
            o.ok && f.ok ==> Alike(f.m, o.m, free) && o.s == f.s.(pc := o.s.pc)
                             && (o.s.pc == f.s.pc
                                 <==> faults == [] || op.form == M.StoreDecr || op.form == M.LoadIncr || op.ext == 0)
  {
    assert last in [last, full] && full in [last, full];
    hide M.Attempt, M.Rerun, M.AllFault, Through, Trips, E.Active, E.Short32, E.OddPc, Alike;
    AlikeSelf(m, free);
    SameAsRerun(op, s, m, m, faults, trips, free, last);
    if M.Rerun(op, s, m, faults, last).ok && M.Attempt(op, s, m, full).ok {
      M.Restart(op, s, m, faults, last, full);
    }
  }

  // ---- A MOVEM in the handler ----

  /** The MOVEM's part of the processor when the handler starts. */
  function AtHandler(s: M.State, t: Trip): M.State
    requires |s.r| == 16
  {
    var e := E.Entered(t.e, E.Access, t.words, t.handler).0;
    M.State(s.r[15 := e.a7], e.ea, e.movemRun, e.pc)
  }

  /** As it would start with movem_run clear. */
  function Cleared(s: M.State): M.State { s.(run := false) }

  /** A predecrement store without its base register in the list, or any other form. */
  predicate BaseUnlisted(op: M.Instr, s: M.State)
    requires M.Proper(op, s)
  {
    op.form == M.StoreDecr ==> !op.mask[15 - M.Base(op)]
  }

  /** A MOVEM with movem_run set starts where EA says, and so is right exactly when EA is its own
      address, and neither extension words nor the predecrement go missing. */
  predicate FlagHarmless(op: M.Instr, s: M.State, ok: bool)
    requires M.Proper(op, s)
  {
    && s.ea == M.Begin(op, Cleared(s)).ea
    && match op.form
       case StoreDecr => ok
       case LoadIncr => true
       case _ => !ok || op.ext == 0
  }

  lemma {:induction false} StoresListed(op: M.Instr, decr: bool, r: seq<bv32>, q: seq<bv32>, a: bv32, i: nat)
    requires |op.mask| == 16 && |r| == |q| == 16 && i <= 16
    requires forall k :: i <= k < 16 && op.mask[k] ==> r[M.Stored(decr, k)] == q[M.Stored(decr, k)]
    ensures M.StoreFrom(op.size, decr, op.mask, r, a, i) == M.StoreFrom(op.size, decr, op.mask, q, a, i)
    decreases 16 - i
  {
    hide M.Next;
    if i < 16 {
      StoresListed(op, decr, r, q, if op.mask[i] then M.Next(op.size, decr, a) else a, i + 1);
    }
  }

  lemma KeepsEa(op: M.Instr, t: M.State, m: Bytes, access: set<Loc>)
    requires M.Proper(op, t) && (!M.Storing(op) ==> access <= m.Keys)
    ensures M.Transfer(op, t, m, access).s.ea == t.ea
  {
    hide M.StoreFrom, M.LoadFrom;
  }

  lemma Moved(a: bv32, n: bv32)
    ensures n != 0 ==> Along(a, n) != a && Back(a, n) != a
  {}

  /** The two starts, from the same address: the predecrement is missed. */
  lemma SameDecr(op: M.Instr, s: M.State, m: Bytes, access: set<Loc>)
    requires M.Proper(op, s) && op.form == M.StoreDecr && s.run && BaseUnlisted(op, s)
    requires s.ea == M.Begin(op, Cleared(s)).ea
    ensures var o, f := M.Attempt(op, s, m, access), M.Attempt(op, Cleared(s), m, access); o == f <==> f.ok
  {
    hide M.StoreFrom, M.LoadFrom, Along, Back;
    var t, u := M.Begin(op, s), M.Begin(op, Cleared(s));
    StoresListed(op, true, t.r, u.r, s.ea, 0);
    Moved(s.r[M.Base(op)], Bytes32(op.size));
  }

  /** Or the extension words. */
  lemma SameBase(op: M.Instr, s: M.State, m: Bytes, access: set<Loc>)
    requires M.Proper(op, s) && (!M.Storing(op) ==> access <= m.Keys) && s.run
    requires op.form == M.StoreBase || op.form == M.LoadBase
    requires s.ea == M.Begin(op, Cleared(s)).ea
    ensures var o, f := M.Attempt(op, s, m, access), M.Attempt(op, Cleared(s), m, access);
            o == f <==> !f.ok || op.ext == 0
  {
    hide M.Transfer, Along, Back;
    var t, u := M.Begin(op, s), M.Begin(op, Cleared(s));
    M.PcMoves(t.pc, op.ext);
    assert t == u.(pc := t.pc);
    PcApart(op, u, t.pc, m, access);
  }

  /** The program counter takes no part in the transfers. */
  lemma PcApart(op: M.Instr, t: M.State, pc: bv32, m: Bytes, access: set<Loc>)
    requires M.Proper(op, t) && (!M.Storing(op) ==> access <= m.Keys)
    ensures var o, f := M.Transfer(op, t.(pc := pc), m, access), M.Transfer(op, t, m, access);
            o == f.(s := f.s.(pc := pc)) && f.s.pc == t.pc
  {
    hide M.StoreFrom, M.LoadFrom;
  }

  /** Or nothing. */
  lemma SameAddress(op: M.Instr, s: M.State, m: Bytes, access: set<Loc>)
    requires M.Proper(op, s) && (!M.Storing(op) ==> access <= m.Keys) && s.run && BaseUnlisted(op, s)
    requires s.ea == M.Begin(op, Cleared(s)).ea
    ensures var o, f := M.Attempt(op, s, m, access), M.Attempt(op, Cleared(s), m, access);
            o == f <==> FlagHarmless(op, s, f.ok)
  {
    hide M.Transfer, Along, Back;
    if op.form == M.StoreDecr {
      SameDecr(op, s, m, access);
    } else if op.form != M.LoadIncr {
      SameBase(op, s, m, access);
    }
  }

  /**
   Entry leaves movem_run set.  A MOVEM in the handler of a MOVEM's fault, before the flag is
   cleared, does what it would do with the flag clear if and only if EA happens to be its own
   address and nothing that Begin does besides is missed.
   */
  lemma InHandler(op: M.Instr, s: M.State, t: Trip, m: Bytes, access: set<Loc>)
    requires M.Proper(op, s) && (!M.Storing(op) ==> access <= m.Keys) && Caught(t, s) && s.run
    requires BaseUnlisted(op, s)
    ensures var h := AtHandler(s, t);
            var o, f := M.Attempt(op, h, m, access), M.Attempt(op, Cleared(h), m, access);
            h.run && (o == f <==> FlagHarmless(op, h, f.ok))
  {
    hide M.Transfer, Along, Back, Ssw, E.Pushed2;
    var h := AtHandler(s, t);
    assert h.run && M.Proper(op, h);
    if h.ea == M.Begin(op, Cleared(h)).ea {
      SameAddress(op, h, m, access);
    } else {
      KeepsEa(op, M.Begin(op, h), m, access);
      KeepsEa(op, M.Begin(op, Cleared(h)), m, access);
    }
  }
}
