/** The unwind section the translator writes: one CIE, one FDE and a terminator. */
module CallFrameSections {
  import opened CallFrame
  import opened Powers

  // ---- What is written ----

  /** Version 1, augmentation "zR", and the numbers up to the instructions. */
  function CieHead(ra: nat): seq<nat> {
    [1, 'z' as nat, 'R' as nat, 0] + Uleb(1) + Sleb(-1) + Uleb(ra) + Uleb(1) + [0]
  }

  function FdeHead(begin: nat, size: nat): seq<nat> { Little(8, begin) + Little(8, size) + Uleb(0) }

  /** WritePadding: up to the next multiple of eight. */
  function Padding(at: nat): nat { if at % 8 == 0 then 0 else 8 - at % 8 }

  /** An entry from position `at` on: its length, its identifier, its body and padding. */
  function EntryBytes(at: nat, id: nat, body: seq<nat>): seq<nat> {
    var n := Padding(at + 8 + |body|);
    Little(4, 4 + |body| + n) + Little(4, id) + body + Zeros(n)
  }

  function CieBytes(at: nat, cfi: seq<nat>, ra: nat): seq<nat> { EntryBytes(at, 0, CieHead(ra) + cfi) }

  /** The identifier of an FDE is its own distance from the CIE. */
  function FdeBytes(at: nat, cfi: seq<nat>, cie: nat, begin: nat, size: nat): seq<nat>
    requires cie <= at
  {
    EntryBytes(at, at + 4 - cie, FdeHead(begin, size) + cfi)
  }

  /** CreateUnwindInfo's stream. */
  function Section(cies: seq<nat>, fdes: seq<nat>, ra: nat, begin: nat, size: nat): seq<nat> {
    var c := CieBytes(0, cies, ra);
    c + FdeBytes(|c|, fdes, 0, begin, size) + Little(4, 0)
  }

  // ---- A reader ----

  datatype Entry = Cie(codeAlign: nat, dataAlign: int, ra: nat, cfi: seq<Cfi>)
                 | Fde(cie: nat, begin: nat, size: nat, cfi: seq<Cfi>)

  function ReadCie(s: seq<nat>): Option<Entry> {
    if |s| < 4 || s[..4] != [1, 'z' as nat, 'R' as nat, 0] then None
    else match ReadUleb(s[4..])
      case Bad => None
      case Done(code, t) =>
        match ReadSleb(t)
        case Bad => None
        case Done(data, u) =>
          if u == [] then None else
          match ReadUleb(u[1..])
          case Bad => None
          case Done(n, w) =>
            if n != 1 || w == [] || w[0] != 0 then None
            else match ReadAll(w[1..])
              case None => None
              case Some(cs) => Some(Cie(code, data, u[0], cs))
  }

  function ReadFde(cie: nat, s: seq<nat>): Option<Entry> {
    match ReadLittle(8, s)
    case Bad => None
    case Done(begin, t) =>
      match ReadLittle(8, t)
      case Bad => None
      case Done(size, u) =>
        match ReadUleb(u)
        case Bad => None
        case Done(n, w) =>
          if n != 0 then None
          else match ReadAll(w)
            case None => None
            case Some(cs) => Some(Fde(cie, begin, size, cs))
  }

  /** The entries from position `at` up to a length of zero. */
  function ReadSection(s: seq<nat>, at: nat): Option<seq<Entry>>
    requires at <= |s|
    decreases |s| - at
  {
    if |s| < at + 4 then None else
    var len := FromLittle(s[at..at + 4]);
    if len == 0 then Some([])
    else if len < 4 || |s| < at + 4 + len then None
    else
      var id := FromLittle(s[at + 4..at + 8]);
      var body := s[at + 8..at + 4 + len];
      var e := if id == 0 then ReadCie(body) else if at + 4 < id then None else ReadFde(at + 4 - id, body);
      match e
      case None => None
      case Some(entry) =>
        match ReadSection(s, at + 4 + len)
        case None => None
        case Some(es) => Some([entry] + es)
  }

  // ---- Reading what was written ----

  lemma HeadReads(ra: nat, rest: seq<nat>)
    requires ra < 0x100
    ensures CieHead(ra) + rest
            == [1, 'z' as nat, 'R' as nat, 0, 1, 127, ra] + (if ra < 128 then [1, 0] else [1, 1, 0]) + rest
  {
    if ra >= 128 {
      assert Uleb(ra) == [ra] + Uleb(1);
    }
  }

  /** Up to the return address register, which version 1 makes one byte. */
  lemma RegisterReads(ra: nat, more: seq<nat>)
    ensures ReadCie([1, 'z' as nat, 'R' as nat, 0, 1, 127, ra] + more)
            == match ReadUleb(more)
               case Bad => None
               case Done(n, w) =>
                 if n != 1 || w == [] || w[0] != 0 then None
                 else match ReadAll(w[1..])
                   case None => None
                   case Some(cs) => Some(Cie(1, -1, ra, cs))
  {
    hide ReadAll, ReadUleb;
    var s := [1, 'z' as nat, 'R' as nat, 0, 1, 127, ra] + more;
    var t := [127, ra] + more;
    var u := [ra] + more;
    assert s[..4] == [1, 'z' as nat, 'R' as nat, 0];
    assert s[4..] == [1] + t && t[1..] == u && u[1..] == more;
    UlebBack(1, t);
    assert Uleb(1) == [1];
  }

  /** The CIE reads back if and only if its instructions do and the return address register is below
      128: a larger one takes two bytes, and the second is read as the length of the augmentation. */
  lemma CieBack(cs: seq<Cfi>, ra: nat, n: nat)
    requires ra < 0x100
    ensures var r := ReadCie(CieHead(ra) + AllEncoded(cs) + Zeros(n));
            && (r == Some(Cie(1, -1, ra, cs)) <==> ra < 128 && AllEncodable(cs))
            && (ra >= 128 ==> r == None)
  {
    hide AllEncoded, ReadAll, CieHead, ReadCie;
    var rest := AllEncoded(cs) + Zeros(n);
    var s := CieHead(ra) + AllEncoded(cs) + Zeros(n);
    HeadReads(ra, rest);
    var more := (if ra < 128 then [0] else [1, 0]) + rest;
    assert s == CieHead(ra) + rest;
    assert s == [1, 'z' as nat, 'R' as nat, 0, 1, 127, ra] + ([1] + more);
    RegisterReads(ra, [1] + more);
    UlebBack(1, more);
    assert Uleb(1) == [1];
    assert ([0] + rest)[1..] == rest;
    AllBack(cs, n);
  }

  lemma FdeBack(cie: nat, begin: nat, size: nat, cs: seq<Cfi>, n: nat)
    requires begin < 0x1_0000_0000_0000_0000 && size < 0x1_0000_0000_0000_0000
    ensures ReadFde(cie, FdeHead(begin, size) + AllEncoded(cs) + Zeros(n)) == Some(Fde(cie, begin, size, cs))
            <==> AllEncodable(cs)
  {
    hide AllEncoded, ReadAll, Little, FromLittle, ReadLittle, Uleb, ReadUleb, Limit;
    var rest := AllEncoded(cs) + Zeros(n);
    Limits();
    assert FdeHead(begin, size) + AllEncoded(cs) + Zeros(n) == Little(8, begin) + (Little(8, size) + (Uleb(0) + rest));
    ReadLittleBack(8, begin, Little(8, size) + (Uleb(0) + rest));
    ReadLittleBack(8, size, Uleb(0) + rest);
    UlebBack(0, rest);
    AllBack(cs, n);
  }

  /** The parts of an entry in the section. */
  lemma EntryParts(front: seq<nat>, id: nat, body: seq<nat>, back: seq<nat>)
    requires |body| + 12 < 0x1_0000_0000 && id < 0x1_0000_0000
    ensures var at, n := |front|, Padding(|front| + 8 + |body|);
            var s, len := front + EntryBytes(at, id, body) + back, 4 + |body| + n;
            && |EntryBytes(at, id, body)| == 4 + len && 4 + at + len <= |s|
            && FromLittle(s[at..at + 4]) == len && FromLittle(s[at + 4..at + 8]) == id
            && s[at + 8..at + 4 + len] == body + Zeros(n)
            && (at + 4 + len) % 8 == 0
  {
    hide Little, FromLittle, Limit;
    var at, n := |front|, Padding(|front| + 8 + |body|);
    var len := 4 + |body| + n;
    var s := front + EntryBytes(at, id, body) + back;
    Limits();
    LittleBack(4, len);
    LittleBack(4, id);
    Divides(len, 0x1_0000_0000, 0, len);
    Divides(id, 0x1_0000_0000, 0, id);
    assert s[at..at + 4] == Little(4, len);
    assert s[at + 4..at + 8] == Little(4, id);
    assert s[at + 8..at + 4 + len] == body + Zeros(n);
  }

  lemma TerminatorReads(front: seq<nat>)
    ensures |front| <= |front + Little(4, 0)| && ReadSection(front + Little(4, 0), |front|) == Some([])
  {
    var s := front + Little(4, 0);
    assert s[|front|..|front| + 4] == Little(4, 0);
    LittleBack(4, 0);
  }

  function Behind(e: Option<Entry>, es: Option<seq<Entry>>): Option<seq<Entry>> {
    if e.Some? && es.Some? then Some([e.value] + es.value) else None
  }

  /** One entry, read or not, in front of what follows it. */
  lemma OneEntry(front: seq<nat>, id: nat, body: seq<nat>, back: seq<nat>, e: Option<Entry>, es: Option<seq<Entry>>)
    requires |body| + 12 < 0x1_0000_0000 && id < 0x1_0000_0000 && id <= |front| + 4
    requires var n := Padding(|front| + 8 + |body|);
             (if id == 0 then ReadCie(body + Zeros(n)) else ReadFde(|front| + 4 - id, body + Zeros(n))) == e
    requires ReadSection(front + EntryBytes(|front|, id, body) + back, |front + EntryBytes(|front|, id, body)|) == es
    ensures ReadSection(front + EntryBytes(|front|, id, body) + back, |front|) == Behind(e, es)
  {
    hide EntryBytes, ReadCie, ReadFde, FromLittle;
    EntryParts(front, id, body, back);
  }

  /**
   The section reads back as one CIE, one FDE that points to it, and a terminator, with the
   instructions of each, if and only if those read back and the return address register is
   below 128; with a larger one nothing is read.
   */
  lemma SectionBack(cies: seq<Cfi>, fdes: seq<Cfi>, ra: nat, begin: nat, size: nat)
    requires ra < 0x100 && begin < 0x1_0000_0000_0000_0000 && size < 0x1_0000_0000_0000_0000
    requires |AllEncoded(cies)| < 0xFFFF_FFD0 && |AllEncoded(fdes)| < 0xFFFF_FFD0
    ensures var r := ReadSection(Section(AllEncoded(cies), AllEncoded(fdes), ra, begin, size), 0);
            && (r == Some([Cie(1, -1, ra, cies), Fde(0, begin, size, fdes)])
                <==> ra < 128 && AllEncodable(cies) && AllEncodable(fdes))
            && (ra >= 128 ==> r == None)
  {
    hide AllEncoded, ReadCie, ReadFde, EntryBytes, CieHead, FdeHead, Little, FromLittle, ReadSection, AllEncodable;
    HeadSizes(ra, begin, size);
    var c := CieBytes(0, AllEncoded(cies), ra);
    var cie, fde := CieHead(ra) + AllEncoded(cies), FdeHead(begin, size) + AllEncoded(fdes);
    CieBack(cies, ra, Padding(8 + |cie|));
    FdeBack(0, begin, size, fdes, Padding(|c| + 8 + |fde|));
    TwoEntries(cies, fdes, ra, begin, size);
    TwoBehind(ReadCie(cie + Zeros(Padding(8 + |cie|))), ReadFde(0, fde + Zeros(Padding(|c| + 8 + |fde|))),
              Cie(1, -1, ra, cies), Fde(0, begin, size, fdes));
  }

  lemma TwoBehind(e: Option<Entry>, f: Option<Entry>, e': Entry, f': Entry)
    ensures Behind(e, Behind(f, Some([]))) == Some([e', f']) <==> e == Some(e') && f == Some(f')
    ensures e == None ==> Behind(e, Behind(f, Some([]))) == None
  {
    if e.Some? && f.Some? {
      assert [e.value] + ([f.value] + []) == [e.value, f.value];
      assert [e.value, f.value][0] == e.value && [e.value, f.value][1] == f.value;
      assert [e', f'][0] == e' && [e', f'][1] == f';
    }
  }

  /** The section is read as its two entries are. */
  lemma TwoEntries(cies: seq<Cfi>, fdes: seq<Cfi>, ra: nat, begin: nat, size: nat)
    requires ra < 0x100
    requires |AllEncoded(cies)| < 0xFFFF_FFD0 && |AllEncoded(fdes)| < 0xFFFF_FFD0
    ensures var c := CieBytes(0, AllEncoded(cies), ra);
            var cie, fde := CieHead(ra) + AllEncoded(cies), FdeHead(begin, size) + AllEncoded(fdes);
            ReadSection(Section(AllEncoded(cies), AllEncoded(fdes), ra, begin, size), 0)
            == Behind(ReadCie(cie + Zeros(Padding(8 + |cie|))),
                      Behind(ReadFde(0, fde + Zeros(Padding(|c| + 8 + |fde|))), Some([])))
  {
    hide AllEncoded, ReadCie, ReadFde, EntryBytes, CieHead, FdeHead, Little, FromLittle, ReadSection, Behind;
    var c := CieBytes(0, AllEncoded(cies), ra);
    var f := FdeBytes(|c|, AllEncoded(fdes), 0, begin, size);
    var s := Section(AllEncoded(cies), AllEncoded(fdes), ra, begin, size);
    HeadSizes(ra, begin, size);
    assert s == [] + c + (f + Little(4, 0)) == c + f + Little(4, 0) == (c + f) + Little(4, 0);
    var cie, fde := CieHead(ra) + AllEncoded(cies), FdeHead(begin, size) + AllEncoded(fdes);
    var r0, r1 := ReadCie(cie + Zeros(Padding(8 + |cie|))), ReadFde(0, fde + Zeros(Padding(|c| + 8 + |fde|)));
    TerminatorReads(c + f);
    EntryParts([], 0, cie, f + Little(4, 0));
    assert c + EntryBytes(|c|, |c| + 4, fde) + Little(4, 0) == s;
    OneEntry(c, |c| + 4, fde, Little(4, 0), r1, Some([]));
    var none: seq<nat> := [];
    assert none + c == c && none + c + (f + Little(4, 0)) == s;
    assert c == EntryBytes(|none|, 0, cie);
    OneEntry(none, 0, cie, f + Little(4, 0), r0, Behind(r1, Some([])));
  }

  lemma HeadSizes(ra: nat, begin: nat, size: nat)
    requires ra < 0x100
    ensures |CieHead(ra)| == (if ra < 128 then 9 else 10) && |FdeHead(begin, size)| == 17
  {
    HeadReads(ra, []);
    assert CieHead(ra) + [] == CieHead(ra);
  }
}
