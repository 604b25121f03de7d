/** The scan of one line of vertical ancillary data (`input/sdi/ancillary.c`). */
module Vanc {
  import opened Sequences

  datatype DataType =
    | MiscAfd | MiscPanScan | Scte104 | DvbScteVbi | Op47Sdp | Op47MultiPacket | Atc
    | CaptionsCea708 | CaptionsCea608 | DtvProgramDescription | DtvDataBroadcast | SmpteVbi
    | Unknown

  datatype Identifier = Identifier(did: nat, sdid: nat, dataType: DataType)

  // `vanc_identifiers`, ended by a zero.
  const IDENTIFIERS := [
    Identifier(0x41, 0x05, MiscAfd),
    Identifier(0x41, 0x06, MiscPanScan),
    Identifier(0x41, 0x07, Scte104),
    Identifier(0x41, 0x08, DvbScteVbi),
    Identifier(0x43, 0x01, Op47Sdp),
    Identifier(0x43, 0x02, Op47MultiPacket),
    Identifier(0x60, 0x60, Atc),
    Identifier(0x61, 0x01, CaptionsCea708),
    Identifier(0x61, 0x02, CaptionsCea608),
    Identifier(0x62, 0x01, DtvProgramDescription),
    Identifier(0x62, 0x02, DtvDataBroadcast),
    Identifier(0x62, 0x03, SmpteVbi),
    Identifier(0, 0, Unknown)]

  // What a line leads to: a call of a parser with the data count and the user data, or a logged error.
  datatype Event =
    | Afd(data: seq<nat>)
    | Vbi(data: seq<nat>)
    | Cdp(data: seq<nat>)
    | ChecksumError
    | LengthError

  // The first entry for an identifier, up to the terminating zero.
  function Lookup(table: seq<Identifier>, did: nat, sdid: nat): DataType {
    if table == [] || table[0].did == 0 then Unknown
    else if table[0].did == did && table[0].sdid == sdid then table[0].dataType
    else Lookup(table[1..], did, sdid)
  }

  /** `get_vanc_type`. */
  method GetVancType(did: nat, sdid: nat) returns (t: DataType)
    ensures t == Lookup(IDENTIFIERS, did, sdid)
  {
    var i := 0;
    while IDENTIFIERS[i].did != 0
      invariant i < |IDENTIFIERS|
      invariant Lookup(IDENTIFIERS, did, sdid) == Lookup(IDENTIFIERS[i..], did, sdid)
      decreases |IDENTIFIERS| - i
    {
      if did == IDENTIFIERS[i].did && sdid == IDENTIFIERS[i].sdid {
        return IDENTIFIERS[i].dataType;
      }
      assert IDENTIFIERS[i..][1..] == IDENTIFIERS[i + 1..];
      i := i + 1;
    }
    t := Unknown;
  }

  lemma {:induction false} LookupHit(table: seq<Identifier>, did: nat, sdid: nat) returns (k: nat)
    ensures Lookup(table, did, sdid) != Unknown ==>
      k < |table| && table[k].did == did && table[k].sdid == sdid && table[k].dataType == Lookup(table, did, sdid)
  {
    k := 0;
    if table != [] && table[0].did != 0 && !(table[0].did == did && table[0].sdid == sdid) {
      k := LookupHit(table[1..], did, sdid);
      k := k + 1;
    }
  }

  lemma {:induction false} LookupAt(table: seq<Identifier>, did: nat, sdid: nat, k: nat)
    requires k < |table| && table[k].did == did && table[k].sdid == sdid
    requires forall j :: 0 <= j <= k ==> table[j].did != 0
    requires forall j :: 0 <= j < k ==> !(table[j].did == did && table[j].sdid == sdid)
    ensures Lookup(table, did, sdid) == table[k].dataType
  {
    if k > 0 {
      forall j | 0 <= j < k ensures table[1..][j] == table[j + 1] {}
      LookupAt(table[1..], did, sdid, k - 1);
    }
  }

  // Where the table holds the three types that lead to a parser.
  lemma PlaceOfType(k: nat)
    requires k < |IDENTIFIERS|
    ensures IDENTIFIERS[k].dataType == MiscAfd ==> k == 0
    ensures IDENTIFIERS[k].dataType == DvbScteVbi ==> k == 3
    ensures IDENTIFIERS[k].dataType == CaptionsCea708 ==> k == 7
  {
  }

  /** The three identifiers whose packets are parsed. */
  lemma ParsedTypes(did: nat, sdid: nat)
    ensures Lookup(IDENTIFIERS, did, sdid) == MiscAfd <==> did == 0x41 && sdid == 0x05
    ensures Lookup(IDENTIFIERS, did, sdid) == DvbScteVbi <==> did == 0x41 && sdid == 0x08
    ensures Lookup(IDENTIFIERS, did, sdid) == CaptionsCea708 <==> did == 0x61 && sdid == 0x01
  {
    ParserEntries();
    var k := LookupHit(IDENTIFIERS, did, sdid);
    if Lookup(IDENTIFIERS, did, sdid) != Unknown { PlaceOfType(k); }
  }

  lemma ParserEntries()
    ensures Lookup(IDENTIFIERS, 0x41, 0x05) == MiscAfd
    ensures Lookup(IDENTIFIERS, 0x41, 0x08) == DvbScteVbi
    ensures Lookup(IDENTIFIERS, 0x61, 0x01) == CaptionsCea708
  {
    LookupAt(IDENTIFIERS, 0x41, 0x05, 0);
    LookupAt(IDENTIFIERS, 0x41, 0x08, 3);
    LookupAt(IDENTIFIERS, 0x61, 0x01, 7);
  }

  // ----- Words of a packet

  function Sum9(words: seq<nat>): (s: nat)
    ensures s < 512
  {
    if words == [] then 0 else (Sum9(words[..|words| - 1]) + words[|words| - 1] % 512) % 512
  }

  // `vanc_checksum |= (~vanc_checksum & 0x100) << 1`
  function Checksum(words: seq<nat>): nat {
    var s := Sum9(words);
    if s < 256 then s + 512 else s
  }

  // `(w & 0x3fc) == 0x3fc`
  predicate Masked(w: nat) {
    w % 0x400 >= 0x3fc
  }

  // The parser that is called for the words of a packet with a good checksum.
  function Dispatch(words: seq<nat>, captionsDisabled: bool): seq<Event>
    requires |words| >= 3
  {
    var did, sdid := words[0] % 256, words[1] % 256;
    if did == 0x41 && sdid == 0x05 then [Afd(words[2..])]
    else if did == 0x41 && sdid == 0x08 && !captionsDisabled then [Vbi(words[2..])]
    else if did == 0x61 && sdid == 0x01 && !captionsDisabled then [Cdp(words[2..])]
    else []
  }

  // What a packet of the words from DID to the last user data word gives when `checksum` follows.
  function Outcome(words: seq<nat>, checksum: nat, captionsDisabled: bool): seq<Event>
    requires |words| >= 3
  {
    if checksum == Checksum(words) then Dispatch(words, captionsDisabled) else [ChecksumError]
  }

  // ----- The scan

  // What stands at place `i` of a line of `width` words.
  datatype Found = Nothing | TooLong | Whole(words: seq<nat>, checksum: nat)

  function Look(line: seq<nat>, i: nat, width: nat): (f: Found)
    requires i + 7 < width < |line|
    ensures f.Whole? ==> 3 <= |f.words| && i + |f.words| + 3 <= width
  {
    if !(line[i] <= 3 && Masked(line[i + 1]) && Masked(line[i + 2])) then Nothing
    else
      var len := line[i + 5] % 256;
      if i + len + 6 > width then TooLong else Whole(line[i + 3..i + len + 6], line[i + len + 6])
  }

  // The events of a line from place `i` on; the scan continues at the checksum of a packet.
  function Scan(line: seq<nat>, i: nat, width: nat, off: bool): seq<Event>
    requires width < |line|
    decreases width - i
  {
    if i + 7 >= width then []
    else
      match Look(line, i, width)
      case Nothing => Scan(line, i + 1, width, off)
      case TooLong => [LengthError]
      case Whole(words, checksum) =>
        Outcome(words, checksum, off) + Scan(line, i + |words| + 3, width, off)
  }

  /** The checksum loop of `parse_vanc_line`. */
  method SumWords(words: seq<nat>) returns (sum: nat)
    ensures sum == Sum9(words)
  {
    sum := 0;
    var j := 0;
    while j < |words|
      invariant j <= |words| && sum == Sum9(words[..j])
    {
      assert words[..j + 1][..j] == words[..j];
      sum := (sum + words[j] % 512) % 512;
      j := j + 1;
    }
    assert words[..j] == words;
  }

  /** The dispatch of `parse_vanc_line`. */
  method CallParser(words: seq<nat>, off: bool) returns (events: seq<Event>)
    requires |words| >= 3
    ensures events == Dispatch(words, off)
  {
    var t := GetVancType(words[0] % 256, words[1] % 256);
    ParsedTypes(words[0] % 256, words[1] % 256);
    events := [];
    match t
    case MiscAfd => events := [Afd(words[2..])];
    case DvbScteVbi => if !off { events := [Vbi(words[2..])]; }
    case CaptionsCea708 => if !off { events := [Cdp(words[2..])]; }
    case _ =>
  }

  /** One packet of `parse_vanc_line`. */
  method CheckPacket(words: seq<nat>, checksum: nat, off: bool) returns (events: seq<Event>)
    requires |words| >= 3
    ensures events == Outcome(words, checksum, off)
  {
    var sum := SumWords(words);
    if sum < 256 { sum := sum + 512; }
    if checksum == sum {
      events := CallParser(words, off);
    } else {
      events := [ChecksumError];
    }
  }

  /** The flag and length tests of `parse_vanc_line`. */
  method FindPacket(line: seq<nat>, at: nat, width: nat) returns (f: Found)
    requires at + 7 < width < |line|
    ensures f == Look(line, at, width)
  {
    var i := at;
    if line[i] <= 0x03 && Masked(line[i + 1]) && Masked(line[i + 2]) {
      i := i + 3;
      var len := line[i + 2] % 256;
      f := if len + 2 > width - i - 1 then TooLong else Whole(line[i..i + len + 3], line[i + len + 3]);
    } else {
      f := Nothing;
    }
  }

  lemma ScanNothing(line: seq<nat>, i: nat, width: nat, off: bool)
    requires i + 7 < width < |line| && Look(line, i, width) == Nothing
    ensures Scan(line, i, width, off) == [] + Scan(line, i + 1, width, off)
  {
  }

  lemma ScanWhole(line: seq<nat>, i: nat, width: nat, off: bool)
    requires i + 7 < width < |line| && Look(line, i, width).Whole?
    ensures var f := Look(line, i, width);
            Scan(line, i, width, off) == Outcome(f.words, f.checksum, off) + Scan(line, i + |f.words| + 3, width, off)
  {
  }

  /** One pass of the loop of `parse_vanc_line`; `done` says that it breaks off. */
  method ScanStep(line: seq<nat>, at: nat, width: nat, off: bool) returns (found: seq<Event>, i: nat, done: bool)
    requires at + 7 < width < |line|
    ensures at < i <= width
    ensures done ==> Scan(line, at, width, off) == found
    ensures !done ==> Scan(line, at, width, off) == found + Scan(line, i, width, off)
  {
    i, found, done := at + 1, [], false;
    var f := FindPacket(line, at, width);
    match f
    case Nothing => ScanNothing(line, at, width, off);
    case TooLong => found, done := [LengthError], true;
    case Whole(words, checksum) =>
      ScanWhole(line, at, width, off);
      found := CheckPacket(words, checksum, off);
      i := at + |words| + 3;
  }

  /** `parse_vanc_line`; `off` is `g_ancillary_disable_captions`, and `after` the word that follows the line
      in memory, which the scan may take for a checksum. */
  method ParseVancLine(words: seq<nat>, after: nat, lineWidth: nat, off: bool) returns (events: seq<Event>)
    requires |words| == 2 * lineWidth
    ensures events == Scan(words + [after], 0, |words|, off)
  {
    var line, width := words + [after], 2 * lineWidth;
    var i := 0;
    ghost var all := Scan(line, 0, width, off);
    events := [];
    while i < width - 7
      invariant i <= width && all == events + Scan(line, i, width, off)
    {
      var found, next, done := ScanStep(line, i, width, off);
      if done { return events + found; }
      AppendAssoc(events, found, Scan(line, next, width, off));
      events := events + found;
      i := next;
    }
  }

  // ----- Lines laid out as packets

  // The words from DID to the last user data word, the flag before them and the checksum after.
  datatype Packet = Packet(flag: seq<nat>, words: seq<nat>, checksum: nat)
  {
    predicate Framed() {
      && |flag| == 3 && flag[0] <= 3 && Masked(flag[1]) && Masked(flag[2])
      && |words| >= 3 && words[2] % 256 == |words| - 3
    }

    function All(): seq<nat> {
      flag + words + [checksum]
    }

    function Events(off: bool): seq<Event>
      requires |words| >= 3
    {
      Outcome(words, checksum, off)
    }

    // With one word changed.
    function Corrupted(j: nat, x: nat): Packet {
      if j < |words| then this.(words := words[j := x]) else this
    }
  }

  // Packets with other words before, between and after them.
  datatype Line = End(tail: seq<nat>) | Run(gap: seq<nat>, packet: Packet, rest: Line)
  {
    function All(): seq<nat> {
      match this
      case End(t) => t
      case Run(g, p, rest) => g + p.All() + rest.All()
    }

    // No word outside the packets can start a flag, and neither can a checksum.
    predicate Clean() {
      match this
      case End(t) => NoFlag(t)
      case Run(g, p, rest) => NoFlag(g) && p.Framed() && p.checksum > 3 && rest.Clean()
    }

    function Events(off: bool): seq<Event>
      requires Clean()
    {
      match this
      case End(_) => []
      case Run(_, p, rest) => p.Events(off) + rest.Events(off)
    }

    function Packets(): (ps: seq<Packet>) {
      match this
      case End(_) => []
      case Run(_, p, rest) => [p] + rest.Packets()
    }

    // What each packet leads to.
    function Verdicts(off: bool): (vs: seq<seq<Event>>)
      requires Clean()
      ensures |vs| == |Packets()|
    {
      match this
      case End(_) => []
      case Run(_, p, rest) => [p.Events(off)] + rest.Verdicts(off)
    }

    // The line ends with a packet that carries nothing.
    predicate EndsBare() {
      match this
      case End(_) => false
      case Run(_, p, rest) => if rest == End([]) then |p.words| == 3 else rest.EndsBare()
    }

    // What the last packet leads to when it carries nothing and ends the line.
    function Missed(off: bool): seq<Event>
      requires Clean()
    {
      if EndsBare() then LastEvents(off) else []
    }

    function LastEvents(off: bool): seq<Event>
      requires Clean() && Run?
    {
      if rest.End? then packet.Events(off) else rest.LastEvents(off)
    }
  }

  predicate NoFlag(words: seq<nat>) {
    forall i :: 0 <= i < |words| ==> words[i] > 3
  }

  function Prepend(w: nat, l: Line): Line {
    match l
    case End(t) => End([w] + t)
    case Run(g, p, rest) => Run([w] + g, p, rest)
  }

  lemma PrependAll(w: nat, l: Line)
    ensures Prepend(w, l).All() == [w] + l.All()
  {
    match l
    case End(t) =>
    case Run(g, p, rest) => assert [w] + g + p.All() + rest.All() == [w] + (g + p.All() + rest.All());
  }

  lemma PrependSame(w: nat, l: Line, off: bool)
    requires l.Clean() && w > 3
    ensures Prepend(w, l).Clean() && Prepend(w, l).Events(off) == l.Events(off)
    ensures Prepend(w, l).Missed(off) == l.Missed(off)
  {
  }

  lemma PacketFound(pre: seq<nat>, p: Packet, after: seq<nat>, width: nat)
    requires p.Framed() && |pre| + |p.words| + 4 <= width < |pre| + |p.words| + 4 + |after| && |pre| + 7 < width
    ensures Look(pre + p.All() + after, |pre|, width) == Whole(p.words, p.checksum)
  {
    var line, i, len := pre + p.All() + after, |pre|, |p.words| - 3;
    assert forall k :: 0 <= k < len + 7 ==> line[i + k] == p.All()[k];
    assert line[i + 5] == p.words[2] && line[i + len + 6] == p.checksum;
    assert line[i + 3..i + len + 6] == p.words;
  }

  lemma {:induction false} TailScan(pre: seq<nat>, t: seq<nat>, extra: seq<nat>, off: bool)
    requires NoFlag(t) && extra != []
    ensures Scan(pre + t + extra, |pre|, |pre + t|, off) == []
    decreases |t|
  {
    if t != [] {
      assert pre + [t[0]] + t[1..] == pre + t;
      TailScan(pre + [t[0]], t[1..], extra, off);
    }
  }

  lemma EmptyLine(l: Line)
    requires l.Clean()
    ensures l.All() == [] <==> l == End([])
  {
  }

  // The scan of `l` when `pre` stands before it.
  function ScanAfter(pre: seq<nat>, l: Line, extra: seq<nat>, off: bool): seq<Event>
    requires extra != []
  {
    Scan(pre + l.All() + extra, |pre|, |pre + l.All()|, off)
  }

  lemma GapFirst(pre: seq<nat>, l: Line, extra: seq<nat>, off: bool)
    requires l.Clean() && l.Run? && l.gap != [] && extra != []
    ensures var m := Run(l.gap[1..], l.packet, l.rest);
            && m.Clean() && |m.All()| == |l.All()| - 1
            && m.Events(off) == l.Events(off) && m.Missed(off) == l.Missed(off)
            && ScanAfter(pre, l, extra, off) == ScanAfter(pre + [l.gap[0]], m, extra, off)
  {
    var m := Run(l.gap[1..], l.packet, l.rest);
    assert l.All() == [l.gap[0]] + m.All();
    assert pre + [l.gap[0]] + m.All() == pre + l.All();
    assert (pre + l.All() + extra)[|pre|] == l.gap[0];
  }

  lemma PacketFirst(pre: seq<nat>, l: Line, extra: seq<nat>, off: bool)
    requires l.Clean() && l.Run? && l.gap == [] && extra != []
    requires !(|l.packet.words| == 3 && l.rest == End([]))
    ensures var p := l.packet;
            var next := Prepend(p.checksum, l.rest);
            && |next.All()| < |l.All()|
            && ScanAfter(pre, l, extra, off) == p.Events(off) + ScanAfter(pre + p.flag + p.words, next, extra, off)
  {
    var p := l.packet;
    var next := Prepend(p.checksum, l.rest);
    EmptyLine(l.rest);
    PrependAll(p.checksum, l.rest);
    PacketFound(pre, p, l.rest.All() + extra, |pre + l.All()|);
    assert pre + p.All() + (l.rest.All() + extra) == pre + l.All() + extra;
    assert pre + p.flag + p.words + next.All() == pre + l.All();
  }

  /** On a line of packets, good or bad, the scan judges every packet once, in order, although it goes
      on from the checksum; only an empty last packet that ends the line is not reached. */
  lemma {:induction false} ScanExact(pre: seq<nat>, l: Line, extra: seq<nat>, off: bool)
    requires l.Clean() && extra != []
    ensures ScanAfter(pre, l, extra, off) + l.Missed(off) == l.Events(off)
    decreases |l.All()|
  {
    match l
    case End(t) => TailScan(pre, t, extra, off);
    case Run(g, p, rest) =>
      if g != [] {
        GapFirst(pre, l, extra, off);
        ScanExact(pre + [g[0]], Run(g[1..], p, rest), extra, off);
      } else if !(|p.words| == 3 && rest == End([])) {
        var next := Prepend(p.checksum, rest);
        PacketFirst(pre, l, extra, off);
        PrependSame(p.checksum, rest, off);
        ScanExact(pre + p.flag + p.words, next, extra, off);
        MissedRest(l, off);
        AppendAssoc(p.Events(off), ScanAfter(pre + p.flag + p.words, next, extra, off), l.Missed(off));
      }
  }

  lemma MissedRest(l: Line, off: bool)
    requires l.Clean() && l.Run? && !(|l.packet.words| == 3 && l.rest == End([]))
    ensures l.Missed(off) == l.rest.Missed(off)
  {
  }

  // ----- What the checksum catches

  /** A good packet. */
  predicate Good(p: Packet) {
    p.Framed() && p.checksum == Checksum(p.words)
  }

  predicate GoodLine(l: Line) {
    match l
    case End(t) => NoFlag(t)
    case Run(g, p, rest) => NoFlag(g) && Good(p) && GoodLine(rest)
  }

  // The parser calls for the packets of a line.
  function Dispatches(l: Line, off: bool): seq<Event>
    requires GoodLine(l)
  {
    match l
    case End(_) => []
    case Run(_, p, rest) => Dispatch(p.words, off) + Dispatches(rest, off)
  }

  lemma {:induction false} GoodEvents(l: Line, off: bool)
    requires GoodLine(l)
    ensures l.Clean() && l.Events(off) == Dispatches(l, off)
    decreases l
  {
    if l.Run? { GoodEvents(l.rest, off); }
  }

  /** A good checksum is never mistaken for the start of a flag, so on a line of good packets each is
      dispatched once, in order. */
  lemma GoodLineDispatched(l: Line, extra: seq<nat>, off: bool)
    requires GoodLine(l) && extra != [] && !l.EndsBare()
    ensures ScanAfter([], l, extra, off) == Dispatches(l, off)
  {
    GoodEvents(l, off);
    ScanExact([], l, extra, off);
  }

  // The sum without the mask.
  function Total(words: seq<nat>): nat {
    if words == [] then 0 else Total(words[..|words| - 1]) + words[|words| - 1]
  }

  lemma {:induction false} MaskedTotal(words: seq<nat>)
    ensures Sum9(words) == Total(words) % 512
  {
    if words != [] {
      var n := |words| - 1;
      MaskedTotal(words[..n]);
      AddMasked(Total(words[..n]), words[n]);
    }
  }

  lemma AddMasked(a: nat, b: nat)
    ensures (a % 512 + b % 512) % 512 == (a + b) % 512
  {
    SameRemainder(a % 512 + b % 512, a + b, 512 * (a / 512 + b / 512), 0);
  }

  lemma {:induction false} TotalChanges(words: seq<nat>, j: nat, x: nat)
    requires j < |words|
    ensures Total(words[j := x]) + words[j] == Total(words) + x
    decreases |words|
  {
    var n := |words| - 1;
    var changed := words[j := x];
    if j == n {
      assert changed[..n] == words[..n];
    } else {
      TotalChanges(words[..n], j, x);
      assert changed[..n] == words[..n][j := x];
    }
  }

  lemma SameRemainder(a: nat, b: nat, c: nat, d: nat)
    requires a + c == b + d
    ensures a % 512 == b % 512 <==> d % 512 == c % 512
  {
  }

  /** A change to the nine summed bits of any one word is caught; a change above them is not. */
  lemma ChangeCaughtIff(words: seq<nat>, j: nat, x: nat)
    requires j < |words|
    ensures Checksum(words[j := x]) == Checksum(words) <==> x % 512 == words[j] % 512
  {
    var changed := words[j := x];
    TotalChanges(words, j, x);
    MaskedTotal(words);
    MaskedTotal(changed);
    SameRemainder(Total(changed), Total(words), words[j], x);
  }

  /** A good packet with one word other than DC changed is refused. */
  lemma CorruptedPacketRefused(p: Packet, j: nat, x: nat, off: bool)
    requires Good(p) && j < |p.words| && j != 2 && x % 512 != p.words[j] % 512
    ensures p.Corrupted(j, x).Framed() && p.Corrupted(j, x).checksum > 3
    ensures p.Corrupted(j, x).Events(off) == [ChecksumError]
  {
    ChangeCaughtIff(p.words, j, x);
  }

  // A line with one word of its i-th packet changed.
  function Corrupt(l: Line, i: nat, j: nat, x: nat): Line {
    match l
    case End(_) => l
    case Run(g, p, rest) => if i == 0 then Run(g, p.Corrupted(j, x), rest) else Run(g, p, Corrupt(rest, i - 1, j, x))
  }

  function Flatten(parts: seq<seq<Event>>): seq<Event> {
    if parts == [] then [] else parts[0] + Flatten(parts[1..])
  }

  lemma {:induction false} EventsAreVerdicts(l: Line, off: bool)
    requires l.Clean()
    ensures l.Events(off) == Flatten(l.Verdicts(off))
    decreases l
  {
    if l.Run? {
      EventsAreVerdicts(l.rest, off);
      assert l.Verdicts(off)[1..] == l.rest.Verdicts(off);
    }
  }

  lemma {:induction false} CorruptClean(l: Line, i: nat, j: nat, x: nat, off: bool)
    requires GoodLine(l) && i < |l.Packets()| && j < |l.Packets()[i].words| && j != 2
    requires x % 512 != l.Packets()[i].words[j] % 512
    ensures Corrupt(l, i, j, x).Clean() && Corrupt(l, i, j, x).EndsBare() == l.EndsBare()
    decreases l
  {
    GoodEvents(l, off);
    if i == 0 {
      CorruptedPacketRefused(l.packet, j, x, off);
    } else {
      assert l.rest.Packets()[i - 1] == l.Packets()[i];
      CorruptClean(l.rest, i - 1, j, x, off);
    }
  }

  lemma {:induction false} CorruptVerdicts(l: Line, i: nat, j: nat, x: nat, off: bool)
    requires l.Clean() && Corrupt(l, i, j, x).Clean() && i < |l.Packets()| && j < |l.Packets()[i].words| && j != 2
    requires Good(l.Packets()[i]) && x % 512 != l.Packets()[i].words[j] % 512
    ensures Corrupt(l, i, j, x).Verdicts(off) == l.Verdicts(off)[i := [ChecksumError]]
    decreases l
  {
    hide Outcome;
    if i == 0 {
      CorruptedPacketRefused(l.packet, j, x, off);
    } else {
      assert l.rest.Packets()[i - 1] == l.Packets()[i];
      CorruptVerdicts(l.rest, i - 1, j, x, off);
    }
  }

  lemma {:induction false} AllGood(l: Line, i: nat)
    requires GoodLine(l) && i < |l.Packets()|
    ensures Good(l.Packets()[i])
    decreases l
  {
    if i > 0 {
      assert l.rest.Packets()[i - 1] == l.Packets()[i];
      AllGood(l.rest, i - 1);
    }
  }

  /** On a line of good packets one such change turns the verdict on that packet into an error and leaves all
      others as they were: the packets after it are found in their places. */
  lemma CorruptedLine(l: Line, i: nat, j: nat, x: nat, extra: seq<nat>, off: bool)
    requires GoodLine(l) && !l.EndsBare() && extra != []
    requires i < |l.Packets()| && j < |l.Packets()[i].words| && j != 2
    requires x % 512 != l.Packets()[i].words[j] % 512
    ensures l.Clean() && ScanAfter([], l, extra, off) == Flatten(l.Verdicts(off))
    ensures ScanAfter([], Corrupt(l, i, j, x), extra, off) == Flatten(l.Verdicts(off)[i := [ChecksumError]])
  {
    GoodEvents(l, off);
    AllGood(l, i);
    CorruptClean(l, i, j, x, off);
    CorruptVerdicts(l, i, j, x, off);
    ScanExact([], l, extra, off);
    EventsAreVerdicts(l, off);
    ScanExact([], Corrupt(l, i, j, x), extra, off);
    EventsAreVerdicts(Corrupt(l, i, j, x), off);
  }
}
