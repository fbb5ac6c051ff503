/** The condition codes of the processor and the TEST macros that set N and Z. */
module CpuFlags {

  predicate Negative(v: bv32) { v >= 0x8000_0000 }

  class Cpu {
    var X: bool
    var N: bool
    var Z: bool
    var V: bool
    var C: bool

    constructor ()
    {
      X, N, Z, V, C := false, false, false, false, false;
    }

    method TestL(v: bv32)
      modifies `N, `Z
      ensures N == Negative(v) && Z == (v == 0)
    {
      N := v >= 0x8000_0000;
      Z := v == 0;
    }
  }
}
