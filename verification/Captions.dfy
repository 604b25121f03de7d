/** Caption distribution packets to ITU-T T.35 user data: `read_cdp` and `write_708_cc` of
    filters/video/cc.c. */
module Captions {
  import opened Bits
  import opened Sequences
  import opened BitWriting
  import opened BitReading
  import opened ByteWriting

  const CDP_IDENTIFIER := 0x9669
  const CDP_TC_SECTION_ID := 0x71
  const CDP_CC_DATA_SECTION_ID := 0x72
  const CDP_CC_SVC_INFO_SECTION_ID := 0x73
  const CDP_FOOTER_SECTION_ID := 0x74

  /** The sections of section 5 of SMPTE ST 334-2. `flags` are the high bits of a count byte. */
  datatype Section =
    | TimeCode(timecode: seq<Byte>)
    | CcData(flags: nat, triplets: seq<Byte>)
    | SvcInfo(flags: nat, services: seq<Byte>)
    | Future(id: Byte, body: seq<Byte>)
  {
    predicate WellFormed() {
      match this
      case TimeCode(t) => |t| == 4
      case CcData(f, t) => f < 8 && |t| % 3 == 0 && |t| / 3 < 32
      case SvcInfo(f, s) => f < 16 && |s| % 7 == 0 && |s| / 7 < 16
      case Future(id, b) => !(0x71 <= id <= 0x74) && |b| < 256
    }

    function Bytes(): (s: seq<Byte>)
      requires WellFormed()
      ensures s != []
    {
      match this
      case TimeCode(t) => [CDP_TC_SECTION_ID] + t
      case CcData(f, t) => [CDP_CC_DATA_SECTION_ID, 32 * f + |t| / 3] + t
      case SvcInfo(f, s) => [CDP_CC_SVC_INFO_SECTION_ID, 16 * f + |s| / 7] + s
      case Future(id, b) => [id, |b|] + b
    }
  }

  predicate AllWellFormed(ss: seq<Section>) {
    forall i :: 0 <= i < |ss| ==> ss[i].WellFormed()
  }

  function SectionBytes(ss: seq<Section>): seq<Byte>
    requires AllWellFormed(ss)
  {
    if ss == [] then [] else ss[0].Bytes() + SectionBytes(ss[1..])
  }

  /** A packet: identifier, the rest of the header, the sections, and the footer section. */
  datatype Packet =
    Packet(identifier: nat, header: seq<Byte>, sections: seq<Section>, counter: seq<Byte>, checksum: Byte) {
    predicate WellFormed() {
      identifier < 0x1_0000 && |header| == 5 && |counter| == 2 && AllWellFormed(sections)
    }

    function Footer(): seq<Byte> {
      [CDP_FOOTER_SECTION_ID] + counter + [checksum]
    }

    function Bytes(): seq<Byte>
      requires WellFormed()
    {
      [identifier / 0x100, identifier % 0x100] + header + (SectionBytes(sections) + Footer())
    }
  }

  predicate WholeTriplets(t: seq<Byte>) {
    |t| % 3 == 0 && |t| / 3 < 32
  }

  /** The triplets of the last caption section; a later section replaces an earlier one. */
  function Captions(ss: seq<Section>, found: seq<Byte>): (t: seq<Byte>)
    requires AllWellFormed(ss) && WholeTriplets(found)
    ensures WholeTriplets(t)
  {
    if ss == [] then found
    else
      assert ss[0].WellFormed();
      Captions(ss[1..], if ss[0].CcData? then ss[0].triplets else found)
  }

  function Sum(s: seq<Byte>): nat {
    if s == [] then 0 else Sum(s[..|s| - 1]) + s[|s| - 1]
  }

  predicate Accepted(pkt: Packet)
    requires pkt.WellFormed()
  {
    pkt.identifier == CDP_IDENTIFIER && Sum(pkt.Bytes()) % 256 == 0 && Captions(pkt.sections, []) != []
  }

  /** The user data of section 6.2.3 of ATSC A/53 Part 4 for a list of caption triplets. */
  function T35(triplets: seq<Byte>): seq<Byte>
    requires WholeTriplets(triplets)
  {
    T35Prefix(|triplets| / 3) + triplets + [0xff]
  }

  /** Country and provider code, "GA94" and the type code; then the flags with the count, and a reserved byte. */
  function T35Prefix(count: nat): seq<Byte>
    requires count < 32
  {
    Identity() + [0xc0 + count] + [0xff]
  }

  function Identity(): seq<Byte> {
    [0xb5, 0x00, 0x31, 0x47, 0x41, 0x39, 0x34, 0x03]
  }

  datatype UserDataType = CdpData | RegisteredItuT35

  class UserData {
    var data: seq<Byte>
    var kind: UserDataType

    constructor (data: seq<Byte>)
      ensures this.data == data && kind == CdpData
    {
      this.data := data;
      kind := CdpData;
    }
  }

  // ----- the format in bytes

  lemma {:induction false} SumJoins(a: seq<Byte>, b: seq<Byte>)
    ensures Sum(a + b) == Sum(a) + Sum(b)
  {
    if b == [] {
      assert a + b == a;
    } else {
      SumJoins(a, b[..|b| - 1]);
      assert (a + b)[..|a + b| - 1] == a + b[..|b| - 1];
    }
  }

  lemma SumOne(x: Byte)
    ensures Sum([x]) == x
  {
    assert [x][..0] == [];
  }

  /** A packet as receivers see most: header, time code, captions, service information and footer. */
  function Usual(header: seq<Byte>, timecode: seq<Byte>, flags: nat, triplets: seq<Byte>, more: nat,
                 services: seq<Byte>, counter: seq<Byte>, checksum: Byte): Packet {
    Packet(0x9669, header, [TimeCode(timecode), CcData(flags, triplets), SvcInfo(more, services)], counter, checksum)
  }

  /** Such a packet is, byte for byte: 96 69 and five more bytes; 71 and the time code; 72, the count and the
      triplets; 73, the count and seven bytes a service; 74, the counter and the byte that makes the sum of all
      a multiple of 256. Every list of triplets but the empty one is then accepted, and comes out as user data
      b5 00 31 "GA94" 03, c0 plus the count, ff, the triplets and ff. */
  lemma UsualPacket(header: seq<Byte>, timecode: seq<Byte>, flags: nat, triplets: seq<Byte>, more: nat,
                    services: seq<Byte>, counter: seq<Byte>, checksum: Byte)
    requires |header| == 5 && |timecode| == 4 && |counter| == 2
    requires flags < 8 && |triplets| % 3 == 0 && |triplets| < 96 && more < 16 && |services| % 7 == 0 && |services| < 112
    ensures var pkt := Usual(header, timecode, flags, triplets, more, services, counter, checksum);
            && pkt.WellFormed()
            && pkt.Bytes() == [0x96, 0x69] + header
                              + ([0x71] + timecode
                                 + ([0x72, 32 * flags + |triplets| / 3] + triplets
                                    + ([0x73, 16 * more + |services| / 7] + services
                                       + ([0x74] + counter + [checksum]))))
            && (Accepted(pkt) <==> triplets != [] && Sum(pkt.Bytes()) % 256 == 0)
            && Captions(pkt.sections, []) == triplets
            && T35(triplets) == [0xb5, 0x00, 0x31, 0x47, 0x41, 0x39, 0x34, 0x03, 0xc0 + |triplets| / 3, 0xff]
                                + triplets + [0xff]
  {
    var pkt := Usual(header, timecode, flags, triplets, more, services, counter, checksum);
    var a, b, c := pkt.sections[0], pkt.sections[1], pkt.sections[2];
    var footer := [0x74] + counter + [checksum];
    assert AllWellFormed(pkt.sections);
    ThreeSections(a, b, c, footer);
    assert pkt.Footer() == footer;
    ThreeCaptions(a, b, c);
  }

  lemma ThreeSections(a: Section, b: Section, c: Section, footer: seq<Byte>)
    requires a.WellFormed() && b.WellFormed() && c.WellFormed()
    ensures SectionBytes([a, b, c]) + footer == a.Bytes() + (b.Bytes() + (c.Bytes() + footer))
  {
    assert [a, b, c][1..] == [b, c] && [b, c][1..] == [c] && [c][1..] == [];
    assert AllWellFormed([b, c]) && AllWellFormed([c]);
    assert SectionBytes([c]) == c.Bytes() + SectionBytes([]) == c.Bytes();
    assert SectionBytes([b, c]) == b.Bytes() + c.Bytes();
    assert SectionBytes([a, b, c]) == a.Bytes() + (b.Bytes() + c.Bytes());
    AppendAssoc(a.Bytes(), b.Bytes() + c.Bytes(), footer);
    AppendAssoc(b.Bytes(), c.Bytes(), footer);
  }

  /** A caption section replaces what came before it, any other section leaves it. */
  lemma {:induction false} LaterCaptions(ss: seq<Section>, s: Section, found: seq<Byte>)
    requires AllWellFormed(ss) && s.WellFormed() && WholeTriplets(found)
    ensures AllWellFormed(ss + [s])
    ensures Captions(ss + [s], found) == if s.CcData? then s.triplets else Captions(ss, found)
  {
    if ss == [] {
      CaptionsStep([s], found);
      assert ss + [s] == [s] && [s][1..] == [];
    } else {
      var next := if ss[0].CcData? then ss[0].triplets else found;
      CaptionsStep(ss, found);
      CaptionsStep(ss + [s], found);
      assert (ss + [s])[1..] == ss[1..] + [s];
      LaterCaptions(ss[1..], s, next);
    }
  }

  lemma ThreeCaptions(a: Section, b: Section, c: Section)
    requires a.WellFormed() && b.WellFormed() && c.WellFormed() && a.TimeCode? && b.CcData? && c.SvcInfo?
    ensures Captions([a, b, c], []) == b.triplets
  {
    assert [a, b, c][1..] == [b, c] && [b, c][1..] == [c] && [c][1..] == [];
    CaptionsStep([a, b, c], []);
    CaptionsStep([b, c], []);
    CaptionsStep([c], b.triplets);
  }

  /** Exactly one last byte makes the sum of a packet a multiple of 256. */
  lemma ClosingByte(data: seq<Byte>, x: Byte)
    ensures Sum(data + [x]) % 256 == 0 <==> x == (256 - Sum(data) % 256) % 256
  {
    SumJoins(data, [x]);
    SumOne(x);
    ClosesTo(Sum(data), Sum(data) % 256, x);
  }

  // ----- writing

  /** A 16-bit field below 256 is two bytes. */
  method PutTwoBytes(s: BitWriter, v: Byte, ghost bytes: seq<Byte>) returns (ghost r: seq<Byte>)
    requires Holds(s, bytes) && |bytes| + 6 <= s.mem.Length
    modifies s, s.mem
    ensures r == bytes + [0, v] && Holds(s, r)
  {
    Pow2Values();
    r := bytes + [0, v];
    TwoBytes(v);
    BytesToBitsConcat(bytes, [0, v]);
    s.Write(16, v);
  }

  lemma TwoBytes(v: Byte)
    ensures BytesToBits([0, v]) == ToBits(v, 16)
  {
    Pow2Values();
    ToBitsExtend(v, 8, 8);
    ToBitsZero(8);
    assert [0, v][..1] == [0];
    BytesToBitsOne(0);
  }

  /** The flag bits 1, 1, 0 and a five-bit count make one byte. */
  method PutFlagsAndCount(s: BitWriter, count: nat, ghost bytes: seq<Byte>) returns (ghost r: seq<Byte>)
    requires Holds(s, bytes) && |bytes| + 5 <= s.mem.Length && count < 32
    modifies s, s.mem
    ensures r == bytes + [0xc0 + count] && Holds(s, r)
  {
    r := bytes + [0xc0 + count];
    BytesToBitsConcat(bytes, [0xc0 + count]);
    BytesToBitsOne(0xc0 + count);
    FlagsAndCount(count);
    PutFlags(s);
    AppendAssoc(BytesToBits(bytes), [true, true, false], ToBits(count, 5));
    s.Write(5, count);
  }

  method PutFlags(s: BitWriter)
    requires s.Valid() && s.Room(3)
    modifies s, s.mem
    ensures s.Valid() && s.pStart == old(s.pStart)
    ensures s.Written() == old(s.Written()) + [true, true, false]
  {
    ghost var b := s.Written();
    s.Write1(1);
    s.Write1(1);
    s.Write1(0);
    assert b + [true] + [true] + [false] == b + [true, true, false];
  }

  lemma FlagsAndCount(count: nat)
    requires count < 32
    ensures count < Pow2(5) && ToBits(0xc0 + count, 8) == [true, true, false] + ToBits(count, 5)
  {
    assert Pow2(5) == 32;
    ToBitsConcat(6, count, 3, 5);
    assert ToBits(6, 3) == [true, true, false];
  }

  /** `write_itu_t_codes`, the user identifier and the type code. */
  method PutIdentity(s: BitWriter) returns (ghost r: seq<Byte>)
    requires Holds(s, []) && 16 <= s.mem.Length
    modifies s, s.mem
    ensures r == Identity() && Holds(s, r)
  {
    r := PutByte(s, 0xb5, []);
    r := PutTwoBytes(s, 0x31, r);
    r := PutAll(s, TextBytes("GA94"), r);
    r := PutByte(s, 0x03, r);
    IdentityParts();
  }

  lemma IdentityParts()
    ensures [] + [0xb5] + [0, 0x31] + TextBytes("GA94") + [0x03] == Identity()
  {
    assert TextBytes("GA94") == [0x47, 0x41, 0x39, 0x34];
  }

  /** The characters of an identifier, as bytes. */
  function TextBytes(text: string): seq<Byte>
    requires forall i :: 0 <= i < |text| ==> text[i] as int < 256
  {
    seq(|text|, i requires 0 <= i < |text| => text[i] as int)
  }

  /** `write_708_cc`: the new user data replaces the packet it was made from. */
  method Write708(u: UserData, start: nat, count: nat)
    requires 0 < count < 32 && start + 3 * count <= |u.data|
    modifies u
    ensures u.kind == RegisteredItuT35
    ensures u.data == T35(old(u.data)[start..start + 3 * count])
  {
    var data := WriteT35(u.data[start..start + 3 * count], count);
    u.kind := RegisteredItuT35;
    u.data := data;
  }

  method WriteT35(triplets: seq<Byte>, count: nat) returns (data: seq<Byte>)
    requires 0 < count < 32 && |triplets| == 3 * count
    ensures data == T35(triplets)
  {
    var temp := new Byte[1000](_ => 0);
    var s := new BitWriter(temp, 0, 1000);
    assert s.Written() == [];
    ghost var r := PutIdentity(s);
    r := PutFlagsAndCount(s, count, r);
    r := PutByte(s, 0xff, r);
    r := PutBytes(s, triplets, r);
    r := PutByte(s, 0xff, r);
    var len := FlushBytes(s, r);
    data := temp[..len];
    T35Parts(triplets, count);
  }

  lemma T35Parts(triplets: seq<Byte>, count: nat)
    requires 0 < count < 32 && |triplets| == 3 * count
    ensures Identity() + [0xc0 + count] + [0xff] + triplets + [0xff] == T35(triplets)
  {
    assert |triplets| / 3 == count;
  }

  // ----- reading

  /** The sum of all bytes but the last, as the 8-bit counter holds it. */
  method CalcChecksum(data: seq<Byte>) returns (cs: Byte)
    requires data != []
    ensures cs == Sum(data[..|data| - 1]) % 256
  {
    cs := 0;
    for i := 0 to |data| - 1
      invariant cs == Sum(data[..i]) % 256
    {
      assert data[..i + 1][..i] == data[..i];
      cs := (cs + data[i]) % 256;
    }
  }

  /** `read_cdp` and its status. A rejected packet leaves the user data alone. */
  method ReadCdp(u: UserData, ghost pkt: Packet) returns (status: int)
    requires pkt.WellFormed() && u.data == pkt.Bytes()
    modifies u
    ensures status == if Accepted(pkt) then 0 else 1
    ensures Accepted(pkt) ==> u.kind == RegisteredItuT35 && u.data == T35(Captions(pkt.sections, []))
    ensures !Accepted(pkt) ==> u.kind == old(u.kind) && u.data == old(u.data)
  {
    var s := new BitReader(u.data);
    PacketParts(pkt);
    var ok := CheckPacket(s);
    if !ok {
      return 1;
    }
    SkipHeader(s);
    var start, count := ReadSections(s, pkt.sections, pkt.Footer());
    if count == 0 {
      return 1;
    }
    Write708(u, start, count);
    return 0;
  }

  /** The identifier and the checksum. */
  method CheckPacket(s: BitReader) returns (ok: bool)
    requires s.Valid() && s.Position() == 0 && |s.data| >= 2
    modifies s
    ensures s.Valid() && s.Position() == 16
    ensures ok <==> s.data[0] as int * 0x100 + s.data[1] == CDP_IDENTIFIER && Sum(s.data) % 256 == 0
  {
    TwoByteWindow(s.data);
    var identifier := s.Read(16);
    var cs := CalcChecksum(s.data);
    ClosesSum(s.data, cs);
    cs := if cs != 0 then 256 - cs else 0;
    ok := identifier == CDP_IDENTIFIER && cs == s.data[|s.data| - 1];
  }

  lemma ClosesSum(data: seq<Byte>, cs: Byte)
    requires data != [] && cs == Sum(data[..|data| - 1]) % 256
    ensures Sum(data) % 256 == 0 <==> (if cs != 0 then 256 - cs else 0) == data[|data| - 1]
  {
    ClosesTo(Sum(data[..|data| - 1]), cs, data[|data| - 1]);
  }

  lemma ClosesTo(total: nat, cs: nat, last: nat)
    requires cs == total % 256 && last < 256
    ensures (total + last) % 256 == 0 <==> (if cs != 0 then 256 - cs else 0) == last
  {
    var q := total / 256;
    assert total + last == 256 * q + (cs + last);
    assert (256 * q + (cs + last)) % 256 == (cs + last) % 256;
  }

  /** The header fields after the identifier. */
  method SkipHeader(s: BitReader)
    requires s.Valid()
    modifies s
    ensures s.Valid() && s.Position() == old(s.Position()) + 40
  {
    s.Skip(8);   // cdp_length
    s.Skip(4);   // cdp_frame_rate
    s.Skip(4);
    for i := 0 to 8  // time_code_present to reserved
      invariant s.Valid() && s.Position() == old(s.Position()) + 16 + i
    {
      s.Skip(1);
    }
    s.Skip(16);  // cdp_hdr_sequence_cntr
  }

  /** The fields of a time code section. */
  method SkipTimeCode(s: BitReader)
    requires s.Valid()
    modifies s
    ensures s.Valid() && s.Position() == old(s.Position()) + 32
  {
    s.Skip(2);
    s.Skip(2);
    s.Skip(4);
    s.Skip(1);
    s.Skip(3);
    s.Skip(4);
    s.Skip(1);
    s.Skip(3);
    s.Skip(4);
    s.Skip(1);
    s.Skip(1);
    s.Skip(2);
    s.Skip(4);
  }

  /** The section loop: finds the triplets of the last caption section. */
  method ReadSections(s: BitReader, ghost sections: seq<Section>, ghost footer: seq<Byte>)
    returns (start: nat, count: nat)
    requires AllWellFormed(sections) && |footer| == 4 && footer[0] == CDP_FOOTER_SECTION_ID
    requires s.Valid() && s.Position() == 56 && |s.data| >= 7
    requires s.data[7..] == SectionBytes(sections) + footer
    modifies s
    ensures start + 3 * count <= |s.data| && count < 32
    ensures s.data[start..start + 3 * count] == Captions(sections, [])
  {
    start, count := 0, 0;
    ghost var k, rest, found: seq<Byte> := 7, sections, [];
    var done := s.Eof();
    while !done
      invariant s.Valid() && (done || (s.Position() == 8 * k && k < |s.data| && AtSection(s.data, k, rest, footer)))
      invariant Holding(s.data, start, count, found) && AllWellFormed(rest)
      invariant Captions(rest, found) == Captions(sections, [])
      invariant done ==> rest == []
      decreases !done, |rest|
    {
      start, count, done, k, rest, found := NextSection(s, start, count, k, rest, found, footer);
      if !done {
        done := s.Eof();
      }
    }
  }

  /** The sections still to be read, and the footer, begin at byte k. */
  ghost predicate AtSection(data: seq<Byte>, k: nat, rest: seq<Section>, footer: seq<Byte>) {
    k <= |data| && AllWellFormed(rest) && data[k..] == SectionBytes(rest) + footer
  }

  /** The triplets found so far. */
  ghost predicate Holding(data: seq<Byte>, start: nat, count: nat, found: seq<Byte>) {
    count < 32 && start + 3 * count <= |data| && found == data[start..start + 3 * count] && WholeTriplets(found)
  }

  lemma CaptionsStep(rest: seq<Section>, found: seq<Byte>)
    requires AllWellFormed(rest) && rest != [] && WholeTriplets(found)
    ensures var next := if rest[0].CcData? then rest[0].triplets else found;
            WholeTriplets(next) && AllWellFormed(rest[1..]) && Captions(rest, found) == Captions(rest[1..], next)
  {
    assert rest[0].WellFormed();
  }

  /** One pass of the section loop; the footer ends it. */
  method NextSection(s: BitReader, start0: nat, count0: nat, ghost k: nat, ghost rest: seq<Section>,
                     ghost found: seq<Byte>, ghost footer: seq<Byte>)
    returns (start: nat, count: nat, done: bool, ghost k': nat, ghost rest': seq<Section>, ghost found': seq<Byte>)
    requires s.Valid() && s.Position() == 8 * k && k < |s.data| && AtSection(s.data, k, rest, footer)
    requires |footer| == 4 && footer[0] == CDP_FOOTER_SECTION_ID && Holding(s.data, start0, count0, found)
    modifies s
    ensures s.Valid() && (done ==> rest' == [])
    ensures !done ==> rest != [] && |rest'| < |rest| && s.Position() == 8 * k' && k' < |s.data|
    ensures done || AtSection(s.data, k', rest', footer)
    ensures Holding(s.data, start, count, found') && AllWellFormed(rest')
    ensures Captions(rest', found') == Captions(rest, found)
  {
    hide SectionBytes, Captions, BytesToBits;
    start, count, k', rest', found' := start0, count0, k, rest, found;
    var id := ReadByte(s, k);
    done := id == CDP_FOOTER_SECTION_ID;
    if done {
      NoFooterYet(s.data, k, rest, footer);
      s.Skip(16);  // cdp_ftr_sequence_cntr
      s.Skip(8);   // packet_checksum
    } else {
      TailOfSections(s.data, k, rest, footer);
      CaptionsStep(rest, found);
      ghost var sec := rest[0];
      k', rest' := k + |sec.Bytes()|, rest[1..];
      found' := if sec.CcData? then sec.triplets else found;
      start, count := ReadSection(s, id, start, count, k, sec);
    }
  }

  /** One section that is not the footer. */
  method ReadSection(s: BitReader, id: Byte, start0: nat, count0: nat, ghost k: nat, ghost sec: Section)
    returns (start: nat, count: nat)
    requires s.Valid() && s.Position() == 8 * (k + 1)
    requires sec.WellFormed() && k <= |s.data| && sec.Bytes() <= s.data[k..] && id == sec.Bytes()[0]
    requires count0 < 32 && start0 + 3 * count0 <= |s.data|
    modifies s
    ensures s.Valid() && s.Position() == 8 * (k + |sec.Bytes()|)
    ensures count < 32 && start + 3 * count <= |s.data|
    ensures s.data[start..start + 3 * count]
         == if sec.CcData? then sec.triplets else s.data[start0..start0 + 3 * count0]
  {
    start, count := start0, count0;
    if id == CDP_TC_SECTION_ID {
      SkipTimeCode(s);
    } else if id == CDP_CC_DATA_SECTION_ID {
      start, count := ReadCcData(s, k, sec);
    } else if id == CDP_CC_SVC_INFO_SECTION_ID {
      SkipSvcInfo(s, k, sec);
    } else {
      SkipFuture(s, k, sec);
    }
  }

  /** `cc_count` and the position of the triplets, then one skip per field of each. */
  method ReadCcData(s: BitReader, ghost k: nat, ghost sec: Section) returns (start: nat, count: nat)
    requires s.Valid() && s.Position() == 8 * (k + 1)
    requires sec.CcData? && sec.WellFormed() && k <= |s.data| && sec.Bytes() <= s.data[k..]
    modifies s
    ensures s.Valid() && s.Position() == 8 * (k + |sec.Bytes()|)
    ensures count < 32 && start + 3 * count <= |s.data| && s.data[start..start + 3 * count] == sec.triplets
  {
    hide BytesToBits, SectionBytes, Captions;
    CountAndBody(s.data, k, sec.Bytes());
    var header := ReadByte(s, k + 1);
    count := header % 32;
    assert 3 * count == |sec.triplets|;
    var pos := s.Pos();
    start := pos / 8;
    for i := 0 to count
      invariant s.Valid() && s.Position() == 8 * (k + 2) + 24 * i
    {
      s.Skip(5);
      s.Skip(1);
      s.Skip(2);
      s.Skip(8);
      s.Skip(8);
    }
  }

  /** Service information, seven bytes per service. */
  method SkipSvcInfo(s: BitReader, ghost k: nat, ghost sec: Section)
    requires s.Valid() && s.Position() == 8 * (k + 1)
    requires sec.SvcInfo? && sec.WellFormed() && k <= |s.data| && sec.Bytes() <= s.data[k..]
    modifies s
    ensures s.Valid() && s.Position() == 8 * (k + |sec.Bytes()|)
  {
    CountAndBody(s.data, k, sec.Bytes());
    LowNibble(s.data, k + 1);
    Remainder16(sec.flags, |sec.services| / 7);
    s.Skip(1);
    s.Skip(1);
    s.Skip(1);
    s.Skip(1);
    var svcCount := s.Read(4);
    assert 7 * svcCount == |sec.services|;
    for i := 0 to svcCount
      invariant s.Valid() && s.Position() == 8 * (k + 2) + 56 * i
    {
      s.Skip(1);
      s.Skip(1);
      s.Skip(6);
      for j := 0 to 6
        invariant s.Valid() && s.Position() == 8 * (k + 2) + 56 * i + 8 + 8 * j
      {
        s.Skip(8);
      }
    }
  }

  /** A section of any other kind carries its own length. */
  method SkipFuture(s: BitReader, ghost k: nat, ghost sec: Section)
    requires s.Valid() && s.Position() == 8 * (k + 1)
    requires sec.Future? && sec.WellFormed() && k <= |s.data| && sec.Bytes() <= s.data[k..]
    modifies s
    ensures s.Valid() && s.Position() == 8 * (k + |sec.Bytes()|)
  {
    CountAndBody(s.data, k, sec.Bytes());
    var len := ReadByte(s, k + 1);
    for i := 0 to len
      invariant s.Valid() && s.Position() == 8 * (k + 2) + 8 * i
    {
      s.Skip(8);
    }
  }

  // ----- where the parts of a packet lie

  lemma CountAndBody(data: seq<Byte>, k: nat, b: seq<Byte>)
    requires k <= |data| && b <= data[k..] && |b| >= 2
    ensures k + |b| <= |data| && data[k + 1] == b[1]
    ensures data[k + 2..k + |b|] == b[2..]
  {
    assert data[k..][..|b|] == b;
    forall i | 0 <= i < |b|
      ensures data[k + i] == b[i]
    {
      assert data[k..][i] == b[i];
    }
  }

  lemma TailOfSections(data: seq<Byte>, k: nat, rest: seq<Section>, footer: seq<Byte>)
    requires k < |data| && AtSection(data, k, rest, footer) && data[k] != CDP_FOOTER_SECTION_ID
    requires footer != [] && footer[0] == CDP_FOOTER_SECTION_ID
    ensures rest != [] && rest[0].WellFormed() && data[k] == rest[0].Bytes()[0]
    ensures k + |rest[0].Bytes()| < |data| && rest[0].Bytes() <= data[k..]
    ensures AtSection(data, k + |rest[0].Bytes()|, rest[1..], footer)
  {
    assert data[k] == data[k..][0];
    if rest != [] {
      assert rest[0].WellFormed();
      AppendAssoc(rest[0].Bytes(), SectionBytes(rest[1..]), footer);
      DropFront(data, k, rest[0].Bytes(), SectionBytes(rest[1..]) + footer);
    }
  }

  lemma DropFront(data: seq<Byte>, k: nat, b: seq<Byte>, tail: seq<Byte>)
    requires k <= |data| && data[k..] == b + tail
    ensures k + |b| + |tail| == |data| && b <= data[k..] && data[k + |b|..] == tail
  {
    assert data[k + |b|..] == data[k..][|b|..];
  }

  /** No section before the footer carries the footer's identifier. */
  lemma NoFooterYet(data: seq<Byte>, k: nat, rest: seq<Section>, footer: seq<Byte>)
    requires k < |data| && AtSection(data, k, rest, footer)
    ensures rest != [] ==> data[k] != CDP_FOOTER_SECTION_ID
  {
    if rest != [] {
      assert rest[0].WellFormed();
      assert data[k] == data[k..][0] == rest[0].Bytes()[0];
    }
  }

  lemma PacketParts(pkt: Packet)
    requires pkt.WellFormed()
    ensures var data := pkt.Bytes();
            |data| >= 7 + 4 && data[0] as int * 0x100 + data[1] == pkt.identifier
            && data[7..] == SectionBytes(pkt.sections) + pkt.Footer()
  {
  }

  lemma {:induction false} TwoByteWindow(data: seq<Byte>)
    requires |data| >= 2
    ensures FromBits(Window(BytesToBits(data), 0, 16)) == data[0] as int * 0x100 + data[1]
  {
    WindowSplit(BytesToBits(data), 0, 8, 8);
    ByteWindow(data, 0);
    ByteWindow(data, 1);
    TwoByteValue(data[0], data[1]);
  }

  lemma TwoByteValue(high: Byte, low: Byte)
    ensures FromBits(ToBits(high, 8) + ToBits(low, 8)) == high as int * 0x100 + low
  {
    Pow2Values();
    var v: nat := high as int * 0x100 + low;
    assert v == high * Pow2(8) + low;
    ToBitsConcat(high, low, 8, 8);
    FromToBits(v, 16);
  }

  lemma LowNibble(data: seq<Byte>, k: nat)
    requires k < |data|
    ensures FromBits(Window(BytesToBits(data), 8 * k + 4, 4)) == data[k] % 16
  {
    var v: nat := data[k];
    WindowSplit(BytesToBits(data), 8 * k, 4, 4);
    ByteWindow(data, k);
    SplitByte(v, Window(BytesToBits(data), 8 * k, 4), Window(BytesToBits(data), 8 * k + 4, 4));
    assert Pow2(4) == 16;
    FromToBits(v % 16, 4);
  }

  lemma SplitByte(v: nat, a: seq<bool>, b: seq<bool>)
    requires |a| == |b| == 4 && a + b == ToBits(v, 8)
    ensures b == ToBits(v % 16, 4)
  {
    ByteNibbles(v);
    assert (a + b)[4..] == b;
  }

  lemma Remainder16(q: nat, r: nat)
    requires r < 16
    ensures (q * 16 + r) % 16 == r
  {
  }
}
