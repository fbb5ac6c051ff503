/**
 Memory as an instruction sees it after translation: bytes at 32-bit addresses.  Translation
 and its faults are the subject of the modules Atc and BusAccess.
 */
module ByteBus {
  import opened Addresses

  type Bytes = map<Loc, bv8>

  /** The bus as an instruction sees it: mapped bytes can be read, some of them written. */
  class Bus {
    var bytes: Bytes
    const writable: set<Loc>

    constructor (bytes: Bytes, writable: set<Loc>)
      ensures this.bytes == bytes && this.writable == writable
    {
      this.bytes := bytes;
      this.writable := writable;
    }

    method ReadB(a: Loc) returns (ok: bool, b: bv8)
      ensures ok == (a in bytes)
      ensures ok ==> b == bytes[a]
    {
      ok, b := a in bytes, 0;
      if ok { b := bytes[a]; }
    }

    method WriteB(a: Loc, b: bv8) returns (ok: bool)
      modifies `bytes
      ensures ok == (a in old(bytes) && a in writable)
      ensures bytes == if ok then old(bytes)[a := b] else old(bytes)
    {
      ok := a in bytes && a in writable;
      if ok { bytes := bytes[a := b]; }
    }
  }
}
