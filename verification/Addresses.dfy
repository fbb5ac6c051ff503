/** Addresses of 32 bits, which wrap round. */
module Addresses {

  /** An address; a datatype, so that it can key a map. */
  datatype Loc = At(bits: bv32)

  function Along(x: bv32, n: bv32): bv32 { x + n }

  function Back(x: bv32, n: bv32): bv32 { x - n }

  lemma AlongInline(x: bv32, n: bv32)
    ensures Along(x, n) == x + n
  {}
}
