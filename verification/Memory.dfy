/**
 The access functions of the emulator, on an MMU object: a PTestError that is caught,
 given SSW_MA and thrown again is a result with the code.
 */
module Memory {
  import opened Addresses
  import opened MmuTables
  import opened Atc
  import opened Mmu
  import opened BusAccess

  /** BusReadB, BusReadW and BusReadL, if the translation went through. */
  function BusRead(m: Memory, paddr: Checked, n: nat): Read {
    match paddr
    case Fail(e) => ReadError(e)
    case Phys(a) => if MappedRun(m, a, n) then Data(LoadRun(m, a, n, 0)) else ReadError(0)
  }

  method ReadBImpl(mmu: Mmu, sys: bool, addr: bv32, lock: bool) returns (x: Read)
    requires mmu.Valid()
    modifies mmu`mem, mmu.Banks()
    ensures (x, mmu.Contents()) == ReadB(mmu.regs, old(mmu.Contents()), sys, addr, lock)
  {
    hide PtestAndCheck;
    var paddr := mmu.PtestAndCheck(sys, addr, false, lock);
    x := BusRead(mmu.mem, paddr, 1);
  }

  method ReadWImpl(mmu: Mmu, sys: bool, addr: bv32, code: bool, lock: bool) returns (x: Read)
    requires mmu.Valid()
    modifies mmu`mem, mmu.Banks()
    ensures (x, mmu.Contents()) == ReadW(mmu.regs, old(mmu.Contents()), sys, addr, code, lock)
  {
    hide PtestAndCheck, ReadB, Combine, Succ, LoadRun, MappedRun, Misaligned;
    if !code && addr & 1 != 0 {
      var vx1 := ReadBImpl(mmu, sys, addr, lock);
      if vx1.ReadError? {
        return vx1;
      }
      var vx2 := ReadBImpl(mmu, sys, Succ(addr), lock);
      if vx2.ReadError? {
        return ReadError(Misaligned(vx2.ssw));
      }
      return Data(Combine(vx1.v, 8, vx2.v));
    }
    var paddr := mmu.PtestAndCheck(sys, addr, code, lock);
    x := BusRead(mmu.mem, paddr, 2);
  }

  method ReadLImpl(mmu: Mmu, sys: bool, addr: bv32, lock: bool) returns (x: Read)
    requires mmu.Valid()
    modifies mmu`mem, mmu.Banks()
    ensures (x, mmu.Contents()) == ReadL(mmu.regs, old(mmu.Contents()), sys, addr, lock)
  {
    hide PtestAndCheck, ReadW, Combine, LoadRun, MappedRun, Misaligned;
    if addr & 2 != 0 {
      var vx1 := ReadWImpl(mmu, sys, addr, false, lock);
      if vx1.ReadError? {
        return vx1;
      }
      var vx2 := ReadWImpl(mmu, sys, addr + 2, false, lock);
      if vx2.ReadError? {
        return ReadError(Misaligned(vx2.ssw));
      }
      return Data(Combine(vx1.v, 16, vx2.v));
    }
    var paddr := mmu.PtestAndCheck(sys, addr, false, lock);
    x := BusRead(mmu.mem, paddr, 4);
  }

  /** BusWriteB, BusWriteW and BusWriteL. */
  method BusWrite(mmu: Mmu, paddr: Checked, n: nat, v: bv32) returns (x: Write)
    modifies mmu`mem
    ensures x == match paddr
                 case Fail(e) => WriteError(e)
                 case Phys(a) => if MappedRun(old(mmu.mem), a, n) then Done else WriteError(0)
    ensures mmu.mem == if x.Done? then StoreRun(old(mmu.mem), paddr.a, n, v) else old(mmu.mem)
  {
    if paddr.Fail? {
      return WriteError(paddr.ssw);
    }
    if !MappedRun(mmu.mem, paddr.a, n) {
      return WriteError(0);
    }
    mmu.mem := StoreRun(mmu.mem, paddr.a, n, v);
    return Done;
  }

  method WriteBImpl(mmu: Mmu, sys: bool, addr: bv32, b: bv32) returns (x: Write)
    requires mmu.Valid()
    modifies mmu`mem, mmu.Banks()
    ensures (x, mmu.Contents()) == WriteB(mmu.regs, old(mmu.Contents()), sys, addr, b)
  {
    hide PtestAndCheck, StoreRun, MappedRun;
    var paddr := mmu.PtestAndCheck(sys, addr, false, true);
    x := BusWrite(mmu, paddr, 1, b);
  }

  method WriteWImpl(mmu: Mmu, sys: bool, addr: bv32, w: bv32) returns (x: Write)
    requires mmu.Valid()
    modifies mmu`mem, mmu.Banks()
    ensures (x, mmu.Contents()) == WriteW(mmu.regs, old(mmu.Contents()), sys, addr, w)
  {
    hide PtestAndCheck, WriteB, Succ, StoreRun, MappedRun, Misaligned, UpperByte;
    if addr & 1 != 0 {
      x := WriteBImpl(mmu, sys, addr, UpperByte(w));
      if x.WriteError? {
        return;
      }
      x := WriteBImpl(mmu, sys, Succ(addr), w);
      if x.WriteError? {
        x := WriteError(Misaligned(x.ssw));
      }
      return;
    }
    var paddr := mmu.PtestAndCheck(sys, addr, false, true);
    x := BusWrite(mmu, paddr, 2, w);
  }

  method WriteLImpl(mmu: Mmu, sys: bool, addr: bv32, l: bv32) returns (x: Write)
    requires mmu.Valid()
    modifies mmu`mem, mmu.Banks()
    ensures (x, mmu.Contents()) == WriteL(mmu.regs, old(mmu.Contents()), sys, addr, l)
  {
    hide PtestAndCheck, WriteW, StoreRun, MappedRun, Misaligned;
    if addr & 2 != 0 {
      x := WriteWImpl(mmu, sys, addr, l >> 16);
      if x.WriteError? {
        return;
      }
      x := WriteWImpl(mmu, sys, addr + 2, l);
      if x.WriteError? {
        x := WriteError(Misaligned(x.ssw));
      }
      return;
    }
    var paddr := mmu.PtestAndCheck(sys, addr, false, true);
    x := BusWrite(mmu, paddr, 4, l);
  }
}
