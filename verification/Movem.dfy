/**
 MOVEM.  An attempt that faults leaves the effective address in EA and movem_run set; the
 next attempt starts over from EA.  Registers are numbered 0 to 15, D0 to A7; the register
 list is the extension word, bit 0 first.
 */
module Movem {
  import opened Addresses
  import opened ByteBus
  import opened ByteWrites

  // ---- Stores ----

  function Next(size: Size, decr: bool, a: bv32): bv32 {
    if decr then Back(a, Bytes32(size)) else Along(a, Bytes32(size))
  }

  /** The register iteration i stores. */
  function Stored(decr: bool, i: nat): nat
    requires i < 16
  {
    if decr then 15 - i else i
  }

  /** The writes of the iterations from i on, and the address after them. */
  function StoreFrom(size: Size, decr: bool, mask: seq<bool>, r: seq<bv32>, a: bv32, i: nat): (seq<Write>, bv32)
    requires |mask| == 16 && |r| >= 16 && i <= 16
    decreases 16 - i
  {
    if i == 16 then ([], a)
    else if mask[i] then
      var (rest, end) := StoreFrom(size, decr, mask, r, Next(size, decr, a), i + 1);
      (Writes(size, a, r[Stored(decr, i)]) + rest, end)
    else StoreFrom(size, decr, mask, r, a, i + 1)
  }

  // ---- Loads ----

  /** What loading v makes of register k: a word keeps the upper half of a data register. */
  function Loaded(size: Size, k: nat, old_: bv32, v: bv32): bv32 {
    if size == L then v
    else if k > 7 then Extended(v)
    else WithWord(old_, v)
  }

  function Extended(v: bv32): bv32 { (v & 0xFFFF) | (if v & 0x8000 != 0 then 0xFFFF_0000 else 0) }

  function WithWord(x: bv32, v: bv32): bv32 { (x & 0xFFFF_0000) | (v & 0xFFFF) }

  lemma LoadedTwice(size: Size, k: nat, x: bv32, u: bv32, v: bv32)
    ensures Loaded(size, k, Loaded(size, k, x, u), v) == Loaded(size, k, x, v)
  {
    WordTwice(x, u, v);
    hide Extended, WithWord;
  }

  lemma WordTwice(x: bv32, u: bv32, v: bv32)
    ensures WithWord(WithWord(x, u), v) == WithWord(x, v)
  {}

  /** The bytes at a, as ReadW and ReadL give them. */
  function Fetched(size: Size, a: bv32, m: Bytes): bv32
    requires Readable(size, a, m.Keys)
  {
    if size == W then Joined(0, 0, m[Spot(a, 0)], m[Spot(a, 1)])
    else Joined(m[Spot(a, 0)], m[Spot(a, 1)], m[Spot(a, 2)], m[Spot(a, 3)])
  }

  predicate Readable(size: Size, a: bv32, access: set<Loc>) {
    Spot(a, 0) in access && Spot(a, 1) in access && (size == L ==> Spot(a, 2) in access && Spot(a, 3) in access)
  }

  /**
   One transfer, from the address in register b: the register is loaded, then b moves on.
   In the forms that count a local variable, b is 16.
   */
  function LoadOne(size: Size, b: nat, k: nat, r: seq<bv32>, m: Bytes): (q: seq<bv32>)
    requires |r| == 17 && b <= 16 && k < 16 && Readable(size, r[b], m.Keys)
    ensures |q| == 17
  {
    var q := r[k := Loaded(size, k, r[k], Fetched(size, r[b], m))];
    q[b := Along(q[b], Bytes32(size))]
  }

  /** The iterations from i on: the registers at the end or at the first fault. */
  function LoadFrom(size: Size, b: nat, mask: seq<bool>, r: seq<bv32>, m: Bytes, access: set<Loc>, i: nat)
    : (q: (seq<bv32>, bool))
    requires |mask| == 16 && |r| == 17 && b <= 16 && i <= 16 && access <= m.Keys
    ensures |q.0| == 17
    decreases 16 - i
  {
    if i == 16 then (r, true)
    else if !mask[i] then LoadFrom(size, b, mask, r, m, access, i + 1)
    else if !Readable(size, r[b], access) then (r, false)
    else LoadFrom(size, b, mask, LoadOne(size, b, i, r, m), m, access, i + 1)
  }

  /** The same but for what the iterations from i on load. */
  ghost predicate Agree(size: Size, b: nat, mask: seq<bool>, r: seq<bv32>, q: seq<bv32>, i: nat) {
    && |mask| == 16 && |r| == |q| == 17 && b <= 16
    && r[b] == q[b]
    && forall k :: 0 <= k < 17 ==> AgreeAt(size, r[k], q[k], k, i <= k < 16 && mask[k])
  }

  ghost predicate AgreeAt(size: Size, x: bv32, y: bv32, k: nat, loaded: bool) {
    if loaded then forall v :: Loaded(size, k, x, v) == Loaded(size, k, y, v) else x == y
  }

  lemma {:induction false} LoadsAgree(size: Size, b: nat, mask: seq<bool>, r: seq<bv32>, q: seq<bv32>,
                                      m: Bytes, access: set<Loc>, i: nat)
    requires i <= 16 && access <= m.Keys && Agree(size, b, mask, r, q, i)
    ensures LoadFrom(size, b, mask, r, m, access, i).1 == LoadFrom(size, b, mask, q, m, access, i).1
    ensures LoadFrom(size, b, mask, r, m, access, i).1
            ==> LoadFrom(size, b, mask, r, m, access, i).0 == LoadFrom(size, b, mask, q, m, access, i).0
    decreases 16 - i
  {
    hide Loaded, Fetched, Along, Bytes32, Spot;
    if i == 16 {
      assert r == q;
    } else if !mask[i] {
      LoadsAgree(size, b, mask, r, q, m, access, i + 1);
    } else if Readable(size, r[b], access) {
      assert AgreeAt(size, r[i], q[i], i, true);
      LoadsAgree(size, b, mask, LoadOne(size, b, i, r, m), LoadOne(size, b, i, q, m), m, access, i + 1);
    }
  }

  /** However far the loads get, only what they load changes, and register b. */
  lemma {:induction false} LoadsChange(size: Size, b: nat, mask: seq<bool>, r: seq<bv32>, m: Bytes, access: set<Loc>,
                                       i: nat, a: bv32)
    requires |mask| == 16 && |r| == 17 && b <= 16 && i <= 16 && access <= m.Keys
    ensures var (q, _) := LoadFrom(size, b, mask, r, m, access, i);
            |q| == 17 && Agree(size, b, mask, q[b := a], r[b := a], i)
    decreases 16 - i
  {
    hide Loaded, Fetched, Along, Bytes32, Spot;
    if i < 16 {
      if !mask[i] {
        LoadsChange(size, b, mask, r, m, access, i + 1, a);
      } else if Readable(size, r[b], access) {
        var r' := LoadOne(size, b, i, r, m);
        var (q, _) := LoadFrom(size, b, mask, r', m, access, i + 1);
        LoadsChange(size, b, mask, r', m, access, i + 1, a);
        forall k | 0 <= k < 17 ensures AgreeAt(size, q[b := a][k], r[b := a][k], k, i <= k < 16 && mask[k]) {
          assert AgreeAt(size, q[b := a][k], r'[b := a][k], k, i + 1 <= k < 16 && mask[k]);
          if k == i && k != b {
            forall v ensures Loaded(size, k, q[k], v) == Loaded(size, k, r[k], v) {
              LoadedTwice(size, k, r[k], Fetched(size, r[b], m), v);
            }
          }
        }
      }
    }
  }

  /** Which places are accessible decides how far the loads get, not what they load. */
  lemma {:induction false} LoadsAccess(size: Size, b: nat, mask: seq<bool>, r: seq<bv32>, m: Bytes,
                                       one: set<Loc>, two: set<Loc>, i: nat)
    requires |mask| == 16 && |r| == 17 && b <= 16 && i <= 16 && one <= m.Keys && two <= m.Keys
    requires LoadFrom(size, b, mask, r, m, one, i).1 && LoadFrom(size, b, mask, r, m, two, i).1
    ensures LoadFrom(size, b, mask, r, m, one, i).0 == LoadFrom(size, b, mask, r, m, two, i).0
    decreases 16 - i
  {
    hide LoadOne;
    if i < 16 {
      if mask[i] {
        LoadsAccess(size, b, mask, LoadOne(size, b, i, r, m), m, one, two, i + 1);
      } else {
        LoadsAccess(size, b, mask, r, m, one, two, i + 1);
      }
    }
  }

  // ---- The instruction ----

  datatype Form = StoreDecr | StoreBase | LoadIncr | LoadBase

  /**
   For the base forms, `target` is the address ea_getaddr computes and `ext` the number of
   bytes of extension words it fetches.
   */
  datatype Instr = Instr(form: Form, size: Size, reg: nat, mask: seq<bool>, target: bv32, ext: bv32)

  datatype State = State(r: seq<bv32>, ea: bv32, run: bool, pc: bv32)

  datatype Outcome = Outcome(s: State, m: Bytes, ok: bool)

  predicate Proper(op: Instr, s: State) { op.reg < 8 && |op.mask| == 16 && |s.r| == 16 }

  function Base(op: Instr): nat { 8 + op.reg }

  /** The words fetched, and the address unless an attempt is under way. */
  function Begin(op: Instr, s: State): State
    requires Proper(op, s)
  {
    var t := s.(pc := Along(s.pc, 4));
    if s.run then t
    else match op.form
      case StoreDecr =>
        var a := Back(s.r[Base(op)], Bytes32(op.size));
        t.(r := s.r[Base(op) := a], ea := a, run := true)
      case LoadIncr => t.(ea := s.r[Base(op)], run := true)
      case _ => t.(ea := op.target, run := true, pc := Along(t.pc, op.ext))
  }

  predicate Storing(op: Instr) { op.form == StoreDecr || op.form == StoreBase }

  function AllWrites(op: Instr, t: State): (seq<Write>, bv32)
    requires Proper(op, t)
  {
    StoreFrom(op.size, op.form == StoreDecr, op.mask, t.r, t.ea, 0)
  }

  /** The register that counts the loads: the base, or a local variable as number 16. */
  function Counter(op: Instr): nat { if op.form == LoadIncr then Base(op) else 16 }

  function Slots(op: Instr, t: State): seq<bv32>
    requires Proper(op, t)
  {
    (t.r + [0])[Counter(op) := t.ea]
  }

  /** The transfers; the registers of t are those left by Begin. */
  function Transfer(op: Instr, t: State, m: Bytes, access: set<Loc>): Outcome
    requires Proper(op, t) && (!Storing(op) ==> access <= m.Keys)
  {
    if Storing(op) then
      var (w, end) := AllWrites(op, t);
      var n := Reached(w, access);
      var m' := Apply(w[..n], m);
      if n < |w| then Outcome(t, m', false)
      else
        var r := if op.form == StoreDecr then t.r[Base(op) := Along(end, Bytes32(op.size))] else t.r;
        Outcome(t.(r := r, run := false), m', true)
    else
      var (q, ok) := LoadFrom(op.size, Counter(op), op.mask, Slots(op, t), m, access, 0);
      Outcome(t.(r := q[..16], run := !ok), m, ok)
  }

  /** One attempt; a fault pushes the address of the instruction, to which RTE returns. */
  function Attempt(op: Instr, s: State, m: Bytes, access: set<Loc>): (o: Outcome)
    requires Proper(op, s) && (!Storing(op) ==> access <= m.Keys)
    ensures Proper(op, o.s)
  {
    var o := Transfer(op, Begin(op, s), m, access);
    if o.ok then o else o.(s := o.s.(pc := s.pc))
  }

  // ---- Restart ----

  /** t and n are what faults have made of the state s1 after Begin and of memory m. */
  ghost predicate Underway(op: Instr, s1: State, m: Bytes, t: State, n: Bytes) {
    && Proper(op, s1) && Proper(op, t)
    && t.run && t.ea == s1.ea
    && (Storing(op) ==> t.r == s1.r && Apply(AllWrites(op, s1).0, n) == Apply(AllWrites(op, s1).0, m))
    && (!Storing(op) ==> n == m && Agree(op.size, Counter(op), op.mask, Slots(op, t), Slots(op, s1), 0))
  }

  lemma AgreeSelf(size: Size, b: nat, mask: seq<bool>, r: seq<bv32>)
    requires |mask| == 16 && |r| == 17 && b <= 16
    ensures Agree(size, b, mask, r, r, 0)
  {}

  lemma AgreeTrans(size: Size, b: nat, mask: seq<bool>, p: seq<bv32>, q: seq<bv32>, r: seq<bv32>)
    requires Agree(size, b, mask, p, q, 0) && Agree(size, b, mask, q, r, 0)
    ensures Agree(size, b, mask, p, r, 0)
  {
    hide Loaded;
    forall k | 0 <= k < 17 ensures AgreeAt(size, p[k], r[k], k, 0 <= k < 16 && mask[k]) {
      assert AgreeAt(size, p[k], q[k], k, 0 <= k < 16 && mask[k]);
      assert AgreeAt(size, q[k], r[k], k, 0 <= k < 16 && mask[k]);
    }
  }

  lemma FaultKeepsLoads(op: Instr, s1: State, m: Bytes, t: State, access: set<Loc>)
    requires !Storing(op) && Underway(op, s1, m, t, m) && access <= m.Keys
    requires !Transfer(op, t, m, access).ok
    ensures Underway(op, s1, m, Transfer(op, t, m, access).s, m)
  {
    hide Agree, LoadFrom;
    var o := Transfer(op, t, m, access);
    var b := Counter(op);
    var (q, _) := LoadFrom(op.size, b, op.mask, Slots(op, t), m, access, 0);
    LoadsChange(op.size, b, op.mask, Slots(op, t), m, access, 0, t.ea);
    assert Slots(op, t)[b := t.ea] == Slots(op, t);
    LastSlot(op, t, q);
    AgreeTrans(op.size, b, op.mask, Slots(op, o.s), q[b := t.ea], Slots(op, t));
    AgreeTrans(op.size, b, op.mask, Slots(op, o.s), Slots(op, t), Slots(op, s1));
  }

  /** The registers a fault leaves, with the counter set again, are what the loads made of them. */
  lemma LastSlot(op: Instr, t: State, q: seq<bv32>)
    requires Proper(op, t) && |q| == 17
    requires Agree(op.size, Counter(op), op.mask, q[Counter(op) := t.ea], Slots(op, t), 0)
    ensures Agree(op.size, Counter(op), op.mask, Slots(op, t.(r := q[..16])), q[Counter(op) := t.ea], 0)
  {
    var x, y := Slots(op, t.(r := q[..16])), q[Counter(op) := t.ea];
    assert AgreeAt(op.size, y[16], Slots(op, t)[16], 16, false);
    assert x == y;
    AgreeSelf(op.size, Counter(op), op.mask, x);
  }

  lemma FaultKeepsStores(op: Instr, s1: State, m: Bytes, t: State, n: Bytes, access: set<Loc>)
    requires Storing(op) && Underway(op, s1, m, t, n)
    requires !Transfer(op, t, n, access).ok
    ensures Underway(op, s1, m, Transfer(op, t, n, access).s, Transfer(op, t, n, access).m)
  {
    hide Apply, Reached, StoreFrom;
    var w := AllWrites(op, t).0;
    ApplyAgain(w, Reached(w, access), n);
  }

  /** A fault leaves the instruction under way. */
  lemma FaultKeeps(op: Instr, s1: State, m: Bytes, t: State, n: Bytes, access: set<Loc>)
    requires Underway(op, s1, m, t, n) && (!Storing(op) ==> access <= m.Keys)
    requires !Transfer(op, t, n, access).ok
    ensures Underway(op, s1, m, Transfer(op, t, n, access).s, Transfer(op, t, n, access).m)
  {
    UnderwayLoads(op, s1, m, t, n);
    hide Transfer, Underway, Agree, AllWrites, Apply;
    if Storing(op) {
      FaultKeepsStores(op, s1, m, t, n, access);
    } else {
      FaultKeepsLoads(op, s1, m, t, access);
      TransferLoads(op, t, m, access);
    }
  }

  lemma UnderwayLoads(op: Instr, s1: State, m: Bytes, t: State, n: Bytes)
    requires Underway(op, s1, m, t, n)
    ensures Proper(op, t) && (!Storing(op) ==> n == m)
  {}

  lemma TransferLoads(op: Instr, t: State, m: Bytes, access: set<Loc>)
    requires Proper(op, t) && !Storing(op) && access <= m.Keys
    ensures Transfer(op, t, m, access).m == m
  {}

  /** An attempt that comes through, after faults, does what one without them does. */
  lemma Finishes(op: Instr, s1: State, m: Bytes, t: State, n: Bytes, last: set<Loc>, full: set<Loc>)
    requires Underway(op, s1, m, t, n) && (!Storing(op) ==> last <= m.Keys && full <= m.Keys)
    requires Transfer(op, t, n, last).ok && Transfer(op, s1, m, full).ok
    ensures var o, f := Transfer(op, t, n, last), Transfer(op, s1, m, full);
            o.m == f.m && o.s == f.s.(pc := t.pc)
  {
    hide Agree, LoadFrom, Apply, Reached, StoreFrom;
    if Storing(op) {
      var w := AllWrites(op, t).0;
      assert w[..|w|] == w;
    } else {
      var b := Counter(op);
      LoadsAgree(op.size, b, op.mask, Slots(op, t), Slots(op, s1), m, last, 0);
      LoadsAccess(op.size, b, op.mask, Slots(op, s1), m, last, full, 0);
    }
  }

  /** Attempts with the faults given by what was accessible, and then one more. */
  function Rerun(op: Instr, s: State, m: Bytes, faults: seq<set<Loc>>, last: set<Loc>): (o: Outcome)
    requires Proper(op, s) && (!Storing(op) ==> last <= m.Keys && forall f :: f in faults ==> f <= m.Keys)
    ensures Proper(op, o.s)
    decreases |faults|
  {
    if faults == [] then Attempt(op, s, m, last)
    else
      var o := Attempt(op, s, m, faults[0]);
      AttemptKeepsMemory(op, s, m, faults[0]);
      Rerun(op, o.s, o.m, faults[1..], last)
  }

  lemma AttemptKeepsMemory(op: Instr, s: State, m: Bytes, access: set<Loc>)
    requires Proper(op, s) && (!Storing(op) ==> access <= m.Keys)
    ensures !Storing(op) ==> Attempt(op, s, m, access).m == m
  {
    if !Storing(op) {
      TransferLoads(op, Begin(op, s), m, access);
    }
  }

  /** Every attempt but the last faults. */
  ghost predicate AllFault(op: Instr, s: State, m: Bytes, faults: seq<set<Loc>>)
    requires Proper(op, s) && (!Storing(op) ==> forall f :: f in faults ==> f <= m.Keys)
    decreases |faults|
  {
    faults != [] ==>
      var o := Attempt(op, s, m, faults[0]);
      AttemptKeepsMemory(op, s, m, faults[0]);
      !o.ok && AllFault(op, o.s, o.m, faults[1..])
  }

  lemma {:induction false} RerunFinishes(op: Instr, s1: State, m: Bytes, t: State, n: Bytes,
                                         faults: seq<set<Loc>>, last: set<Loc>, full: set<Loc>)
    requires Underway(op, s1, m, t, n)
    requires !Storing(op) ==> last <= m.Keys && full <= m.Keys && forall f :: f in faults ==> f <= m.Keys
    requires Proper(op, t) && (!Storing(op) ==> n == m)
    requires AllFault(op, t, n, faults) && Rerun(op, t, n, faults, last).ok && Transfer(op, s1, m, full).ok
    ensures var o, f := Rerun(op, t, n, faults, last), Transfer(op, s1, m, full);
            o.m == f.m && o.s == f.s.(pc := Along(t.pc, 4))
    decreases |faults|
  {
    var t' := Begin(op, t);
    assert Underway(op, s1, m, t', n);
    hide Transfer, Underway, AllWrites, Apply, Agree, Slots, Along;
    if faults == [] {
      Finishes(op, s1, m, t', n, last, full);
    } else {
      AttemptKeepsMemory(op, t, n, faults[0]);
      FaultKeeps(op, s1, m, t', n, faults[0]);
      var o := Attempt(op, t, n, faults[0]);
      UnderwayPc(op, s1, m, Transfer(op, t', n, faults[0]).s, o.m, t.pc);
      UnderwayLoads(op, s1, m, o.s, o.m);
      assert forall f :: f in faults[1..] ==> f in faults;
      RerunFinishes(op, s1, m, o.s, o.m, faults[1..], last, full);
      TransferPc(op, t', n, faults[0]);
    }
  }

  lemma UnderwayPc(op: Instr, s1: State, m: Bytes, t: State, n: Bytes, pc: bv32)
    requires Underway(op, s1, m, t, n)
    ensures Underway(op, s1, m, t.(pc := pc), n)
  {}

  lemma TransferPc(op: Instr, t: State, m: Bytes, access: set<Loc>)
    requires Proper(op, t) && (!Storing(op) ==> access <= m.Keys)
    ensures Transfer(op, t, m, access).s.pc == t.pc
  {}

  lemma RestartFaulted(op: Instr, s: State, m: Bytes, faults: seq<set<Loc>>, last: set<Loc>, full: set<Loc>)
    requires Proper(op, s) && faults != []
    requires !Storing(op) ==> last <= m.Keys && full <= m.Keys && forall f :: f in faults ==> f <= m.Keys
    requires AllFault(op, s, m, faults) && Rerun(op, s, m, faults, last).ok && Attempt(op, s, m, full).ok
    ensures var o, f := Rerun(op, s, m, faults, last), Attempt(op, s, m, full);
            o.m == f.m && o.s == f.s.(pc := Along(s.pc, 4))
  {
    var s1 := Begin(op, s);
    BeginUnderway(op, s, m);
    hide Transfer, Underway, AllWrites, Apply, Agree, Slots, Along, Back, Bytes32;
    AttemptKeepsMemory(op, s, m, faults[0]);
    FaultKeeps(op, s1, m, s1, m, faults[0]);
    var o := Attempt(op, s, m, faults[0]);
    UnderwayPc(op, s1, m, Transfer(op, s1, m, faults[0]).s, o.m, s.pc);
    UnderwayLoads(op, s1, m, o.s, o.m);
    assert forall f :: f in faults[1..] ==> f in faults;
    RerunFinishes(op, s1, m, o.s, o.m, faults[1..], last, full);
  }

  lemma BeginUnderway(op: Instr, s: State, m: Bytes)
    requires Proper(op, s)
    ensures Underway(op, Begin(op, s), m, Begin(op, s), m)
  {
    AgreeSelf(op.size, Counter(op), op.mask, Slots(op, Begin(op, s)));
    hide Agree;
  }

  /**
   Restart: whatever transfers fault, however often, and with whatever register list, the
   attempt that comes through leaves the registers, memory, EA and movem_run of a run without
   faults.  The program counter is that run's too if and only if no attempt faulted or the
   instruction has no extension words: a later attempt does not fetch them.
   */
  lemma Restart(op: Instr, s: State, m: Bytes, faults: seq<set<Loc>>, last: set<Loc>, full: set<Loc>)
    requires Proper(op, s) && !s.run
    requires !Storing(op) ==> last <= m.Keys && full <= m.Keys && forall f :: f in faults ==> f <= m.Keys
    requires AllFault(op, s, m, faults) && Rerun(op, s, m, faults, last).ok && Attempt(op, s, m, full).ok
    ensures var o, f := Rerun(op, s, m, faults, last), Attempt(op, s, m, full);
            && o.m == f.m && o.s == f.s.(pc := o.s.pc)
            && (o.s.pc == f.s.pc <==> faults == [] || op.form == StoreDecr || op.form == LoadIncr || op.ext == 0)
  {
    var s1 := Begin(op, s);
    BeginUnderway(op, s, m);
    TransferPc(op, s1, m, full);
    TransferPc(op, s1, m, last);
    PcMoves(Along(s.pc, 4), op.ext);
    hide Transfer, Underway, AllWrites, Along, Back, Bytes32;
    if faults == [] {
      Finishes(op, s1, m, s1, m, last, full);
    } else {
      hide Rerun, AllFault;
      RestartFaulted(op, s, m, faults, last, full);
    }
  }

  lemma PcMoves(pc: bv32, ext: bv32)
    ensures pc == Along(pc, ext) <==> ext == 0
  {}
}