/** The writers of the translator, byte by byte into a growing vector. */
module CallFrameOps {
  import opened CallFrame
  import opened CallFrameSections
  import opened Powers

  lemma SlebSteps(v: int)
    ensures v >= 0 ==> Sleb(v) == Uleb(v)
    ensures -128 < v < 0 ==> Sleb(v) == [v % 128 % 0x100]
    ensures v <= -128 ==> Sleb(v) == [v % 0x100 % 0x100] + Sleb(v / 128) && v < v / 128 < 0
  {}

  class Stream {
    var bytes: seq<nat>

    constructor ()
      ensures bytes == []
    {
      bytes := [];
    }

    method WriteUInt8(v: nat)
      modifies this
      ensures bytes == old(bytes) + [v % 0x100]
    {
      bytes := bytes + [v % 0x100];
    }

    /** WriteUInt16, WriteUInt32 and WriteUInt64: (v >> 8i) & 0xFF for each i. */
    method WriteUInt(n: nat, v: nat)
      modifies this
      ensures bytes == old(bytes) + Little(n, v)
    {
      ghost var start := bytes;
      var i, w := 0, v;
      assert start + Little(n, v) == bytes + Little(n, w);
      while i < n
        invariant 0 <= i <= n
        invariant start + Little(n, v) == bytes + Little(n - i, w)
      {
        ghost var before := bytes;
        WriteUInt8(w);
        assert before + Little(n - i, w) == bytes + Little(n - i - 1, w / 0x100);
        w := w / 0x100;
        i := i + 1;
      }
      assert bytes + Little(0, w) == bytes;
    }

    method WriteULEB128(value: nat)
      modifies this
      ensures bytes == old(bytes) + Uleb(value)
    {
      ghost var start := bytes;
      var v := value;
      while v >= 128
        invariant start + Uleb(value) == bytes + Uleb(v)
      {
        ghost var before := bytes;
        WriteUInt8(v % 128 + 128);
        assert before + Uleb(v) == bytes + Uleb(v / 128);
        v := v / 128;
      }
      WriteUInt8(v);
    }

    method WriteSLEB128(value: int)
      modifies this
      ensures bytes == old(bytes) + Sleb(value)
    {
      hide Sleb, Uleb;
      SlebSteps(value);
      if value >= 0 {
        WriteULEB128(value);
        return;
      }
      ghost var start := bytes;
      var v := value;
      while v <= -128
        invariant v < 0
        invariant start + Sleb(value) == bytes + Sleb(v)
        decreases -v
      {
        ghost var before := bytes;
        SlebSteps(v);
        WriteUInt8(v % 0x100);
        assert before + Sleb(v) == bytes + Sleb(v / 128);
        v := v / 128;
      }
      SlebSteps(v);
      WriteUInt8(v % 128);
    }

    method WritePadding()
      modifies this
      ensures bytes == old(bytes) + Zeros(Padding(|old(bytes)|)) && |bytes| % 8 == 0
    {
      ghost var start := bytes;
      var padding := |bytes| % 8;
      if padding != 0 {
        padding := 8 - padding;
        var i := 0;
        while i < padding
          invariant 0 <= i <= padding
          invariant bytes == start + Zeros(i)
        {
          WriteUInt8(0);
          assert Zeros(i) + [0] == Zeros(i + 1);
          i := i + 1;
        }
      }
    }

    /** WriteLength overwrites the four bytes left for it. */
    method WriteLength(pos: nat, v: nat)
      requires pos + 4 <= |bytes|
      modifies this
      ensures bytes == old(bytes)[..pos] + Little(4, v) + old(bytes)[pos + 4..]
    {
      bytes := bytes[..pos] + Little(4, v) + bytes[pos + 4..];
    }

    method Append(s: seq<nat>)
      modifies this
      ensures bytes == old(bytes) + s
    {
      bytes := bytes + s;
    }

    method WriteCIE(cieInstructions: seq<nat>, ra: nat)
      modifies this
      ensures bytes == old(bytes) + CieBytes(|old(bytes)|, cieInstructions, ra)
    {
      hide Little, Uleb, Sleb;
      ghost var start := bytes;
      var lengthPos := |bytes|;
      WriteUInt(4, 0);
      WriteUInt(4, 0);
      CieNumbers(ra);
      assert bytes == start + Little(4, 0) + Little(4, 0) + CieHead(ra);
      Append(cieInstructions);
      Finish(lengthPos, 0, CieHead(ra) + cieInstructions, start);
    }

    /** The version, the augmentation and the numbers. */
    method CieNumbers(ra: nat)
      modifies this
      ensures bytes == old(bytes) + CieHead(ra)
    {
      hide Little, Uleb, Sleb;
      WriteUInt8(1);
      WriteUInt8('z' as nat);
      WriteUInt8('R' as nat);
      WriteUInt8(0);
      WriteULEB128(1);
      WriteSLEB128(-1);
      WriteULEB128(ra);
      WriteULEB128(1);
      WriteUInt8(0);
    }

    /** Padding, and the length at last. */
    method Finish(lengthPos: nat, ghost id: nat, ghost body: seq<nat>, ghost start: seq<nat>)
      requires lengthPos == |start| && bytes == start + Little(4, 0) + Little(4, id) + body
      modifies this
      ensures bytes == start + EntryBytes(lengthPos, id, body)
    {
      hide Little;
      WritePadding();
      ghost var n := Padding(lengthPos + 8 + |body|);
      assert bytes == start + Little(4, 0) + (Little(4, id) + body + Zeros(n));
      WriteLength(lengthPos, |bytes| - lengthPos - 4);
    }

    method WriteFDE(fdeInstructions: seq<nat>, cieLocation: nat, begin: nat, size: nat)
      requires cieLocation <= |bytes|
      modifies this
      ensures bytes == old(bytes) + FdeBytes(|old(bytes)|, fdeInstructions, cieLocation, begin, size)
    {
      hide Little, Uleb;
      ghost var start := bytes;
      var lengthPos := |bytes|;
      WriteUInt(4, 0);
      var offsetToCIE := |bytes| - cieLocation;
      WriteUInt(4, offsetToCIE);
      WriteUInt(8, begin);
      WriteUInt(8, size);
      WriteULEB128(0);
      Append(fdeInstructions);
      assert bytes == start + Little(4, 0) + Little(4, offsetToCIE) + (FdeHead(begin, size) + fdeInstructions);
      Finish(lengthPos, offsetToCIE, FdeHead(begin, size) + fdeInstructions, start);
    }

    method WriteAdvanceLoc(offset: nat, lastOffset: nat) returns (last: nat)
      modifies this
      ensures bytes == old(bytes) + Encoded(Advance(Delta(offset, lastOffset))) && last == offset
    {
      hide Little;
      var delta := Delta(offset, lastOffset);
      if delta < 0x40 {
        WriteUInt8(0x40 + delta);
      } else if delta < 0x100 {
        WriteUInt8(2);
        WriteUInt(1, delta);
      } else if delta < 0x1_0000 {
        WriteUInt8(3);
        WriteUInt(2, delta);
      } else {
        WriteUInt8(4);
        WriteUInt(4, delta);
      }
      last := offset;
    }

    method WriteDefineCFA(reg: nat, off: nat)
      modifies this
      ensures bytes == old(bytes) + Encoded(DefCfa(reg, off))
    {
      hide Uleb;
      WriteUInt8(0x0C);
      WriteULEB128(reg);
      WriteULEB128(off);
    }

    method WriteDefineStackOffset(off: nat)
      modifies this
      ensures bytes == old(bytes) + Encoded(DefOffset(off))
    {
      hide Uleb;
      WriteUInt8(0x0E);
      WriteULEB128(off);
    }

    method WriteRegisterStackLocation(reg: nat, at: nat)
      modifies this
      ensures bytes == old(bytes) + Encoded(Saved(reg, at))
    {
      hide Uleb, Or;
      WriteUInt8(Or(2 * 0x40, reg));
      WriteULEB128(at);
    }
  }

  /** The end of CreateUnwindInfo: one CIE, one FDE and a zero word. */
  method CreateUnwindInfo(cies: seq<nat>, fdes: seq<nat>, ra: nat, begin: nat, size: nat) returns (s: Stream)
    ensures s.bytes == Section(cies, fdes, ra, begin, size)
  {
    hide CieBytes, FdeBytes, Little;
    s := new Stream();
    s.WriteCIE(cies, ra);
    s.WriteFDE(fdes, 0, begin, size);
    s.WriteUInt(4, 0);
  }
}
