/** The DVB teletext PES payload: `encapsulate_dvb_ttx` and its helpers in input/sdi/vbi.c, with
    `obe_convert_smpte_to_analogue` of input/sdi/sdi.c. */
module Teletext {
  import opened Bits
  import opened Sequences
  import opened BitWriting
  import opened ByteWriting
  import opened Queues

  const DVB_VBI_MAXIMUM_SIZE := 65536
  const DVB_VBI_UNIT_SIZE := 44
  const DVB_VBI_PES_HEADER_SIZE := 45
  const DVB_VBI_DATA_IDENTIFIER := 0x10
  const TTX_BLOCK_LEN := 42
  const NABTS_BLOCK_LEN := 33
  const TTX_FRAMING_CODE := 0xe4
  const TTX_INVERTED_FRAMING_CODE := 0x1b
  const NABTS_FRAMING_CODE := 0xe7
  const DATA_UNIT_ID_EBU_TTX_NON_SUB := 0x02
  const MAX_SLICES := 100

  /** A decoded VBI line; `teletextB` is the `VBI_SLICED_TELETEXT_B` bit of its id. */
  datatype Slice = Slice(teletextB: bool, line: int, data: seq<Byte>)

  /** What a line carries: the types `write_ttx_field` tells apart. */
  datatype FieldType = Teletext | TeletextInverted | Nabts

  // ----- line numbers and bit order

  /** First line and first line of the second field, from `field_start_lines`. */
  function FirstLine(ntsc: bool): int { if ntsc then 4 else 1 }
  function FieldTwo(ntsc: bool): int { if ntsc then 267 else 314 }

  /** `obe_convert_smpte_to_analogue` for the two standard-definition formats. */
  function Analogue(ntsc: bool, line: int): (int, int) {
    if FirstLine(ntsc) <= line < FieldTwo(ntsc) then (line, 1)
    else (line - FieldTwo(ntsc) + FirstLine(ntsc), 2)
  }

  const NIBBLES: seq<Byte> := [0, 8, 4, 12, 2, 10, 6, 14, 1, 9, 5, 13, 3, 11, 7, 15]

  /** `reverse_tab[x]`: the table's row is x / 16 and its column x % 16. */
  function Reverse(x: Byte): Byte {
    16 * NIBBLES[x % 16] + NIBBLES[x / 16]
  }

  function ReverseAll(s: seq<Byte>): (r: seq<Byte>)
    ensures |r| == |s|
  {
    seq(|s|, i requires 0 <= i < |s| => Reverse(s[i]))
  }

  lemma NibbleTable(n: nat)
    requires n < 16
    ensures NIBBLES[n] == 8 * (n % 2) + 4 * (n / 2 % 2) + 2 * (n / 4 % 2) + n / 8
    ensures NIBBLES[n] < 16 && NIBBLES[NIBBLES[n]] == n
  {
  }

  lemma ReverseNibbles(x: Byte)
    ensures Reverse(x) / 16 == NIBBLES[x % 16] && Reverse(x) % 16 == NIBBLES[x / 16]
  {
    NibbleTable(x / 16);
    NibbleTable(x % 16);
  }

  lemma ReverseOnce(x: Byte)
    ensures Reverse(Reverse(x)) == x
  {
    ReverseNibbles(x);
    NibbleTable(x / 16);
    NibbleTable(x % 16);
  }

  /** Reversing bytes is its own inverse. */
  lemma ReverseTwice(s: seq<Byte>)
    ensures ReverseAll(ReverseAll(s)) == s
  {
    forall i | 0 <= i < |s|
      ensures ReverseAll(ReverseAll(s))[i] == s[i]
    {
      ReverseOnce(s[i]);
    }
  }

  /** The table turns a byte's bits round. */
  lemma ReverseBits(x: Byte, i: nat)
    requires i < 8
    ensures ToBits(Reverse(x), 8)[i] == ToBits(x, 8)[7 - i]
  {
    ReverseNibbles(x);
    ByteNibbles(x);
    ByteNibbles(Reverse(x));
    NibbleReversed(x / 16);
    NibbleReversed(x % 16);
    Halves(ToBits(x / 16, 4), ToBits(x % 16, 4), ToBits(NIBBLES[x % 16], 4), ToBits(NIBBLES[x / 16], 4), i);
  }

  lemma Halves(a: seq<bool>, b: seq<bool>, c: seq<bool>, d: seq<bool>, i: nat)
    requires |a| == |b| == |c| == |d| == 4 && i < 8
    requires forall j :: 0 <= j < 4 ==> c[j] == b[3 - j] && d[j] == a[3 - j]
    ensures (c + d)[i] == (a + b)[7 - i]
  {
  }

  lemma NibbleReversed(n: nat)
    requires n < 16
    ensures NIBBLES[n] < 16
    ensures forall i :: 0 <= i < 4 ==> ToBits(NIBBLES[n], 4)[i] == ToBits(n, 4)[3 - i]
  {
    NibbleTable(n);
    FourBits(n);
    FourBits(NIBBLES[n]);
    NibbleDigits(n, NIBBLES[n]);
  }

  lemma NibbleDigits(n: nat, m: nat)
    requires n < 16 && m == 8 * (n % 2) + 4 * (n / 2 % 2) + 2 * (n / 4 % 2) + n / 8
    ensures m / 8 == n % 2 && m / 4 % 2 == n / 2 % 2 && m / 2 % 2 == n / 4 % 2 && m % 2 == n / 8
  {
    Digits(n % 2, n / 2 % 2, n / 4 % 2, n / 8);
  }

  lemma Digits(a: nat, b: nat, c: nat, d: nat)
    requires a < 2 && b < 2 && c < 2 && d < 2
    ensures var m := 8 * a + 4 * b + 2 * c + d; m / 8 == a && m / 4 % 2 == b && m / 2 % 2 == c && m % 2 == d
  {
  }

  // ----- the format

  /** A data unit: its identifier and its body, preceded by the body's length. */
  datatype Unit = Unit(id: Byte, body: seq<Byte>)

  /** The walk of a receiver over the units: it succeeds only if it lands exactly on the end. */
  datatype Walk = Units(units: seq<Unit>) | Malformed

  function WalkUnits(b: seq<Byte>): Walk {
    if b == [] then Units([])
    else if |b| < 2 || |b| < 2 + b[1] as int then Malformed
    else
      match WalkUnits(b[2 + b[1]..])
      case Units(us) => Units([Unit(b[0], b[2..2 + b[1]])] + us)
      case Malformed => Malformed
  }

  function UnitBytes(u: Unit): seq<Byte>
    requires |u.body| < 256
  {
    [u.id] + [|u.body|] + u.body
  }

  /** The unit of one teletext line: parity and line offset, framing code, the reversed line. */
  function LineUnit(ntsc: bool, s: Slice): Unit
    requires Legal(ntsc, s)
  {
    Unit(DATA_UNIT_ID_EBU_TTX_NON_SUB, [HeaderByte(ntsc, s.line)] + ([TTX_FRAMING_CODE] + ReverseAll(s.data)))
  }

  function HeaderByte(ntsc: bool, line: int): Byte
    requires 0 <= Analogue(ntsc, line).0 < 32
  {
    0xc0 + (if Analogue(ntsc, line).1 == 1 then 0x20 else 0) + Analogue(ntsc, line).0
  }

  predicate Legal(ntsc: bool, s: Slice) {
    |s.data| == TTX_BLOCK_LEN && 0 <= Analogue(ntsc, s.line).0 < 32
  }

  predicate AllLegal(ntsc: bool, slices: seq<Slice>) {
    forall i :: 0 <= i < |slices| && slices[i].teletextB ==> Legal(ntsc, slices[i])
  }

  /** The units of the teletext lines among the slices, in order. */
  function LineUnits(ntsc: bool, slices: seq<Slice>): (us: seq<Unit>)
    requires AllLegal(ntsc, slices)
    ensures |us| <= |slices|
    ensures forall i :: 0 <= i < |us| ==> |us[i].body| == DVB_VBI_UNIT_SIZE
  {
    if slices == [] then []
    else
      var last := slices[|slices| - 1];
      LineUnits(ntsc, slices[..|slices| - 1]) + if last.teletextB then [LineUnit(ntsc, last)] else []
  }

  function AllUnitBytes(us: seq<Unit>): seq<Byte>
    requires forall i :: 0 <= i < |us| ==> |us[i].body| < 256
  {
    if us == [] then [] else AllUnitBytes(us[..|us| - 1]) + UnitBytes(us[|us| - 1])
  }

  /** The payload before any stuffing. */
  function LineBytes(ntsc: bool, slices: seq<Slice>): seq<Byte>
    requires AllLegal(ntsc, slices)
  {
    [DVB_VBI_DATA_IDENTIFIER] + AllUnitBytes(LineUnits(ntsc, slices))
  }

  /** The stuffing unit that completes n bytes and the PES header to whole packets, if one is needed. */
  function Stuffing(n: nat): (us: seq<Unit>)
    ensures |us| <= 1 && forall i :: 0 <= i < |us| ==> us[i].id == 0xff && |us[i].body| < 184
  {
    if (n + DVB_VBI_PES_HEADER_SIZE) % 184 == 0 then []
    else [StuffingUnit(StuffingCount(n))]
  }

  /** What is missing after the unit's identifier and length. */
  function StuffingCount(n: nat): (c: nat)
    ensures c < 184 && (n + 2 + c + DVB_VBI_PES_HEADER_SIZE) % 184 == 0
  {
    var over := (n + 2 + DVB_VBI_PES_HEADER_SIZE) % 184;
    if over == 0 then 0 else 184 - over
  }

  function StuffingUnit(c: nat): (u: Unit)
    requires c < 184
    ensures |u.body| == c
  {
    Unit(0xff, seq(c, _ => 0xff))
  }

  // ----- the writers

  /** `write_header_byte`: two reserved bits, the parity, five bits of line offset. */
  method WriteHeaderByte(s: BitWriter, ntsc: bool, line: int, ghost bytes: seq<Byte>) returns (ghost r: seq<Byte>)
    requires Holds(s, bytes) && |bytes| + 5 <= s.mem.Length && 0 <= Analogue(ntsc, line).0 < 32
    modifies s, s.mem
    ensures r == bytes + [HeaderByte(ntsc, line)] && Holds(s, r)
  {
    var (analogueLine, field) := Analogue(ntsc, line);
    r := bytes + [HeaderByte(ntsc, line)];
    var parity := if field == 1 then 1 else 0;
    HeaderBits(bytes, parity, analogueLine);
    s.Write(2, 3);
    s.Write(1, parity);
    s.Write(5, analogueLine);
  }

  lemma HeaderBits(bytes: seq<Byte>, parity: nat, line: nat)
    requires parity < 2 && line < 32
    ensures Pow2(1) == 2 && Pow2(2) == 4 && Pow2(5) == 32
    ensures BytesToBits(bytes + [0xc0 + 0x20 * parity + line])
         == BytesToBits(bytes) + ToBits(3, 2) + ToBits(parity, 1) + ToBits(line, 5)
  {
    hide ToBits, BytesToBits;
    HeaderByteBits(parity, line);
    BytesToBitsConcat(bytes, [0xc0 + 0x20 * parity + line]);
    BytesToBitsOne(0xc0 + 0x20 * parity + line);
    JoinThree(BytesToBits(bytes), ToBits(3, 2), ToBits(parity, 1), ToBits(line, 5));
  }

  lemma HeaderByteBits(parity: nat, line: nat)
    requires parity < 2 && line < 32
    ensures Pow2(1) == 2 && Pow2(2) == 4 && Pow2(5) == 32
    ensures ToBits(0xc0 + 0x20 * parity + line, 8) == ToBits(3, 2) + ToBits(parity, 1) + ToBits(line, 5)
  {
    assert Pow2(1) == 2 && Pow2(2) == 4 && Pow2(5) == 32;
    ToBitsConcat(6 + parity, line, 3, 5);
    ToBitsConcat(3, parity, 2, 1);
  }

  lemma JoinThree<T>(b: seq<T>, x: seq<T>, y: seq<T>, z: seq<T>)
    ensures b + x + y + z == b + (x + y + z)
  {
  }

  function FramingCode(t: FieldType): Byte {
    match t
    case Teletext => TTX_FRAMING_CODE
    case TeletextInverted => TTX_INVERTED_FRAMING_CODE
    case Nabts => NABTS_FRAMING_CODE
  }

  function BlockLen(t: FieldType): nat {
    if t.Nabts? then NABTS_BLOCK_LEN else TTX_BLOCK_LEN
  }

  /** `write_ttx_field`. */
  method WriteTtxField(s: BitWriter, data: seq<Byte>, t: FieldType, ghost bytes: seq<Byte>)
    returns (ghost r: seq<Byte>)
    requires Holds(s, bytes) && |bytes| + 47 <= s.mem.Length && BlockLen(t) <= |data|
    modifies s, s.mem
    ensures r == bytes + ([FramingCode(t)] + ReverseAll(data[..BlockLen(t)])) && Holds(s, r)
    ensures FramingCode(t) == match t case Teletext => 0xe4 case TeletextInverted => 0x1b case Nabts => 0xe7
    ensures BlockLen(t) == match t case Teletext => 42 case TeletextInverted => 42 case Nabts => 33
  {
    var block := ReverseAll(data[..BlockLen(t)]);
    AppendAssoc(bytes, [FramingCode(t)], block);
    r := PutByte(s, FramingCode(t), bytes);
    r := PutAll(s, block, r);
  }

  /** The unit of one line. */
  method WriteLine(s: BitWriter, ntsc: bool, slice: Slice, ghost bytes: seq<Byte>) returns (ghost r: seq<Byte>)
    requires Holds(s, bytes) && |bytes| + 50 <= s.mem.Length && Legal(ntsc, slice)
    modifies s, s.mem
    ensures r == bytes + UnitBytes(LineUnit(ntsc, slice)) && Holds(s, r)
  {
    r := PutByte(s, DATA_UNIT_ID_EBU_TTX_NON_SUB, bytes);
    r := PutByte(s, DVB_VBI_UNIT_SIZE, r);
    r := WriteHeaderByte(s, ntsc, slice.line, r);
    assert slice.data[..TTX_BLOCK_LEN] == slice.data;
    r := WriteTtxField(s, slice.data, Teletext, r);
    LinePartsJoin(bytes, ntsc, slice);
  }

  lemma LinePartsJoin(bytes: seq<Byte>, ntsc: bool, s: Slice)
    requires Legal(ntsc, s)
    ensures bytes + [DATA_UNIT_ID_EBU_TTX_NON_SUB] + [DVB_VBI_UNIT_SIZE] + [HeaderByte(ntsc, s.line)]
              + ([TTX_FRAMING_CODE] + ReverseAll(s.data))
         == bytes + UnitBytes(LineUnit(ntsc, s))
  {
    var f := [TTX_FRAMING_CODE] + ReverseAll(s.data);
    AppendAssoc(bytes + [DATA_UNIT_ID_EBU_TTX_NON_SUB] + [DVB_VBI_UNIT_SIZE], [HeaderByte(ntsc, s.line)], f);
    AppendAssoc(bytes + [DATA_UNIT_ID_EBU_TTX_NON_SUB], [DVB_VBI_UNIT_SIZE], [HeaderByte(ntsc, s.line)] + f);
    AppendAssoc(bytes, [DATA_UNIT_ID_EBU_TTX_NON_SUB], [DVB_VBI_UNIT_SIZE] + ([HeaderByte(ntsc, s.line)] + f));
    assert |LineUnit(ntsc, s).body| == DVB_VBI_UNIT_SIZE;
    AppendAssoc([DATA_UNIT_ID_EBU_TTX_NON_SUB], [DVB_VBI_UNIT_SIZE], [HeaderByte(ntsc, s.line)] + f);
  }

  /** `write_stuffing`. */
  method WriteStuffing(s: BitWriter, ghost bytes: seq<Byte>) returns (ghost r: seq<Byte>)
    requires Holds(s, bytes) && |bytes| + 190 <= s.mem.Length
    modifies s, s.mem
    ensures r == bytes + AllUnitBytes(Stuffing(|bytes|)) && Holds(s, r)
  {
    var pos := s.Pos();
    if (pos / 8 + DVB_VBI_PES_HEADER_SIZE) % 184 == 0 {
      r := bytes;
      assert bytes == bytes + AllUnitBytes([]);
    } else {
      r := PutByte(s, 0xff, bytes);
      pos := s.Pos();
      var count := (pos / 8 + DVB_VBI_PES_HEADER_SIZE + 1) % 184;
      if count != 0 {
        count := 184 - count;
      }
      assert count == StuffingCount(|bytes|);
      r := PutByte(s, count, r);
      r := PutAll(s, StuffingUnit(count).body, r);
      StuffingJoins(bytes, count);
    }
  }

  lemma StuffingJoins(bytes: seq<Byte>, c: nat)
    requires c < 184
    ensures bytes + [0xff] + [c] + StuffingUnit(c).body == bytes + AllUnitBytes([StuffingUnit(c)])
  {
    var u := StuffingUnit(c);
    OneUnit(u);
    AppendAssoc(bytes + [0xff], [c], u.body);
    AppendAssoc(bytes, [0xff], [c] + u.body);
    AppendAssoc([0xff as Byte], [c as Byte], u.body);
  }

  lemma OneUnit(u: Unit)
    requires |u.body| < 256
    ensures AllUnitBytes([u]) == UnitBytes(u)
  {
    assert [u][..0] == [];
    assert [] + UnitBytes(u) == UnitBytes(u);
  }

  /** `encapsulate_dvb_ttx`: the payload of one frame's teletext. */
  method Encapsulate(ntsc: bool, slices: seq<Slice>) returns (payload: seq<Byte>)
    requires AllLegal(ntsc, slices) && |slices| <= MAX_SLICES
    ensures payload == LineBytes(ntsc, slices) + AllUnitBytes(Stuffing(|LineBytes(ntsc, slices)|))
  {
    var frame := new Byte[DVB_VBI_MAXIMUM_SIZE](_ => 0);
    var s := new BitWriter(frame, 0, DVB_VBI_MAXIMUM_SIZE);
    assert s.Written() == [];
    ghost var r := PutByte(s, DVB_VBI_DATA_IDENTIFIER, []);
    r := WriteLines(s, ntsc, slices, r);
    r := WriteStuffing(s, r);
    var len := FlushBytes(s, r);
    payload := frame[..len];
  }

  method WriteLines(s: BitWriter, ntsc: bool, slices: seq<Slice>, ghost bytes: seq<Byte>) returns (ghost r: seq<Byte>)
    requires AllLegal(ntsc, slices) && |slices| <= MAX_SLICES
    requires bytes == [DVB_VBI_DATA_IDENTIFIER] && Holds(s, bytes) && s.mem.Length == DVB_VBI_MAXIMUM_SIZE
    modifies s, s.mem
    ensures r == LineBytes(ntsc, slices) && |r| <= 1 + 46 * MAX_SLICES && Holds(s, r)
  {
    hide UnitBytes, LineUnit, LineUnits, AllUnitBytes;
    r := bytes;
    NoLines(ntsc, slices);
    for i := 0 to |slices|
      invariant Holds(s, r) && |r| <= 1 + 46 * i
      invariant AllLegal(ntsc, slices[..i]) && r == LineBytes(ntsc, slices[..i])
    {
      LineUnitsStep(ntsc, slices, i);
      if slices[i].teletextB {
        r := WriteLine(s, ntsc, slices[i], r);
      }
    }
    assert slices[..|slices|] == slices;
  }

  lemma NoLines(ntsc: bool, slices: seq<Slice>)
    ensures LineBytes(ntsc, slices[..0]) == [DVB_VBI_DATA_IDENTIFIER]
  {
  }

  lemma LineUnitsStep(ntsc: bool, slices: seq<Slice>, i: nat)
    requires AllLegal(ntsc, slices) && i < |slices|
    ensures AllLegal(ntsc, slices[..i]) && AllLegal(ntsc, slices[..i + 1])
    ensures slices[i].teletextB ==> |UnitBytes(LineUnit(ntsc, slices[i]))| == 46
    ensures LineBytes(ntsc, slices[..i + 1])
         == LineBytes(ntsc, slices[..i])
            + if slices[i].teletextB then UnitBytes(LineUnit(ntsc, slices[i])) else []
  {
    assert slices[..i + 1][..i] == slices[..i];
    var before := LineUnits(ntsc, slices[..i]);
    if slices[i].teletextB {
      AllUnitBytesSnoc(before, LineUnit(ntsc, slices[i]));
    } else {
      assert LineUnits(ntsc, slices[..i + 1]) == before + [] == before;
    }
  }

  lemma AllUnitBytesSnoc(us: seq<Unit>, u: Unit)
    requires forall i :: 0 <= i < |us| ==> |us[i].body| < 256
    requires |u.body| < 256
    ensures [DVB_VBI_DATA_IDENTIFIER] + AllUnitBytes(us + [u])
         == [DVB_VBI_DATA_IDENTIFIER] + AllUnitBytes(us) + UnitBytes(u)
  {
    assert (us + [u])[..|us|] == us;
    AppendAssoc([DVB_VBI_DATA_IDENTIFIER], AllUnitBytes(us), UnitBytes(u));
  }

  // ----- what a receiver finds

  lemma WalkOne(u: Unit, b: seq<Byte>)
    requires |u.body| < 256
    ensures WalkUnits(UnitBytes(u) + b)
         == match WalkUnits(b) case Units(vs) => Units([u] + vs) case Malformed => Malformed
  {
    var c := UnitBytes(u) + b;
    assert c[0] == u.id && c[1] == |u.body|;
    assert c[2..2 + |u.body|] == u.body && c[2 + |u.body|..] == b;
  }

  lemma NothingToWalk()
    ensures WalkUnits([]) == Units([])
  {
  }

  /** Walking the length fields finds exactly the units that were written. */
  lemma {:induction false} WalkFindsUnits(us: seq<Unit>, b: seq<Byte>, vs: seq<Unit>)
    requires forall i :: 0 <= i < |us| ==> |us[i].body| < 256
    requires WalkUnits(b) == Units(vs)
    ensures WalkUnits(AllUnitBytes(us) + b) == Units(us + vs)
  {
    hide WalkUnits, UnitBytes;
    if us == [] {
      assert [] + b == b && us + vs == vs;
    } else {
      var init, u := us[..|us| - 1], us[|us| - 1];
      WalkOne(u, b);
      WalkFindsUnits(init, UnitBytes(u) + b, [u] + vs);
      AppendAssoc(AllUnitBytes(init), UnitBytes(u), b);
      assert init + ([u] + vs) == us + vs;
    }
  }

  /** A payload as `Encapsulate` returns it: the receiver's walk lands exactly on its end, on the
      units of the lines and the stuffing, and with the PES header it fills whole packets. */
  lemma PayloadWellFormed(ntsc: bool, slices: seq<Slice>, payload: seq<Byte>)
    requires AllLegal(ntsc, slices)
    requires payload == LineBytes(ntsc, slices) + AllUnitBytes(Stuffing(|LineBytes(ntsc, slices)|))
    ensures payload != [] && payload[0] == 0x10 && (|payload| + 45) % 184 == 0
    ensures WalkUnits(payload[1..]) == Units(LineUnits(ntsc, slices) + Stuffing(|LineBytes(ntsc, slices)|))
    ensures forall u :: u in Stuffing(|LineBytes(ntsc, slices)|) ==>
              u.id == 0xff && forall x :: x in u.body ==> x == 0xff
    ensures (|LineBytes(ntsc, slices)| + 45) % 184 == 0 ==> payload == LineBytes(ntsc, slices)
    ensures |payload| < |LineBytes(ntsc, slices)| + 2 + 184
  {
    hide WalkUnits, UnitBytes, LineUnits, AllUnitBytes, Stuffing;
    var us, n := LineUnits(ntsc, slices), |LineBytes(ntsc, slices)|;
    var stuffing := Stuffing(n);
    StuffingFits(n);
    NothingToWalk();
    WalkFindsUnits(stuffing, [], []);
    assert AllUnitBytes(stuffing) + [] == AllUnitBytes(stuffing) && stuffing + [] == stuffing;
    WalkFindsUnits(us, AllUnitBytes(stuffing), stuffing);
    AppendAssoc([DVB_VBI_DATA_IDENTIFIER], AllUnitBytes(us), AllUnitBytes(stuffing));
    assert payload[1..] == AllUnitBytes(us) + AllUnitBytes(stuffing);
  }

  /** The stuffing completes the last packet, with less than one packet of its own and its two bytes; a complete
      payload gets none. */
  lemma StuffingFits(n: nat)
    ensures var more := |AllUnitBytes(Stuffing(n))|;
            (n + more + 45) % 184 == 0 && more < 2 + 184 && ((n + 45) % 184 == 0 ==> more == 0)
    ensures forall u :: u in Stuffing(n) ==> u.id == 0xff && forall x :: x in u.body ==> x == 0xff
  {
    if (n + DVB_VBI_PES_HEADER_SIZE) % 184 != 0 {
      OneUnit(StuffingUnit(StuffingCount(n)));
    }
  }

  /** Lines 1 to 31 of each field, from 1 and 314 on with 625 lines, and from 4 and 267 on, as their lines 4
      to 31, with 525. */
  lemma LegalLines(ntsc: bool, s: Slice)
    ensures Legal(ntsc, s) <==>
              |s.data| == 42 && if ntsc then 4 <= s.line <= 31 || 267 <= s.line <= 294
                                else 1 <= s.line <= 31 || 314 <= s.line <= 344
  {
  }

  predicate IsTeletext(s: Slice) {
    s.teletextB
  }

  /** There is one unit for each teletext line, in order, and none for other lines. */
  lemma {:induction false} UnitsOfLines(ntsc: bool, slices: seq<Slice>)
    requires AllLegal(ntsc, slices)
    ensures var lines := Filter(slices, IsTeletext);
            && |LineUnits(ntsc, slices)| == |lines|
            && forall i :: 0 <= i < |lines| ==>
                 Legal(ntsc, lines[i]) && LineUnits(ntsc, slices)[i] == LineUnit(ntsc, lines[i])
  {
    if slices != [] {
      UnitsOfLines(ntsc, slices[..|slices| - 1]);
    }
  }

  /** Each line's unit takes 46 bytes and gives back the line: identifier and length, two reserved bits, the
      field and the line in the field, the framing code, and the data with its bits turned round. */
  lemma LineRecovered(ntsc: bool, s: Slice)
    requires Legal(ntsc, s)
    ensures var b := UnitBytes(LineUnit(ntsc, s));
            && |b| == 46 && b[0] == 2 && b[1] == 44 && b[2] / 64 == 3 && b[3] == 0xe4
            && ReverseAll(b[4..]) == s.data
            && (b[2] / 32 % 2 == 1 <==> s.line < if ntsc then 267 else 314)
            && b[2] % 32 == s.line - if b[2] / 32 % 2 == 1 then 0 else if ntsc then 263 else 313
  {
    LegalLines(ntsc, s);
    assert UnitBytes(LineUnit(ntsc, s))[4..] == ReverseAll(s.data);
    ReverseTwice(s.data);
  }
}
