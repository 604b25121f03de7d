/** The words of ancillary data packets, as section 6 of SMPTE ST 291-1 lays them out, against what the scan of
    Vanc takes them for: checksum, flag, the data a parser gets, and a packet that does not fit its line. */
module VancFormat {
  import opened Sequences
  import opened Vanc

  // ----- the checksum word

  /** Bits 0 to 8 are the sum of the words' low nine bits, bit 9 is the inverse of bit 8. */
  lemma {:induction false} ChecksumWord(words: seq<nat>)
    ensures Checksum(words) < 1024
    ensures Checksum(words) % 512 == Total(words) % 512
    ensures Checksum(words) / 512 == 1 - Checksum(words) / 256 % 2
  {
    MaskedTotal(words);
    var s := Sum9(words);
    assert s < 512;
    if s < 256 {
      assert Checksum(words) / 256 == 2;
    } else {
      assert Checksum(words) / 256 == 1;
    }
  }

  /** A word of the flag has bits 2 to 9 set, whatever lies above and below them. */
  lemma FlagWord(w: nat)
    ensures Masked(w) <==> w / 4 % 256 == 255
  {
  }

  // ----- what a parser gets

  function Data(e: Event): seq<nat>
    requires e.Afd? || e.Vbi? || e.Cdp?
  {
    match e
    case Afd(d) => d
    case Vbi(d) => d
    case Cdp(d) => d
  }

  /** The packets with three identifiers go to a parser, two of them only while captions are not disabled. */
  predicate Parsed(words: seq<nat>, off: bool)
    requires |words| >= 3
  {
    var did, sdid := words[0] % 256, words[1] % 256;
    (did == 0x41 && sdid == 0x05) || (!off && ((did == 0x41 && sdid == 0x08) || (did == 0x61 && sdid == 0x01)))
  }

  /** A good packet with such an identifier leads to one call, of the parser for it, with the data count and as
      many user data words as it says; any other good packet leads to nothing. */
  lemma ParserGets(p: Packet, off: bool)
    requires Good(p)
    ensures |p.Events(off)| == if Parsed(p.words, off) then 1 else 0
    ensures Parsed(p.words, off) ==>
              var e := p.Events(off)[0];
              && (e.Afd? <==> p.words[0] % 256 == 0x41 && p.words[1] % 256 == 0x05)
              && (e.Cdp? <==> p.words[0] % 256 == 0x61)
              && (e.Vbi? <==> p.words[0] % 256 == 0x41 && p.words[1] % 256 == 0x08)
              && |Data(e)| == |p.words| - 2 && Data(e)[0] == p.words[2] && Data(e)[0] % 256 == |Data(e)| - 1
              && forall i :: 0 <= i < |Data(e)| ==> Data(e)[i] == p.words[i + 2]
  {
  }

  // ----- a packet whose checksum does not fit

  /** A flag, and then a packet of at least seven words whose checksum would lie beyond the end of the line. */
  predicate CutShort(words: seq<nat>) {
    && |words| > 7 && words[0] <= 3 && Masked(words[1]) && Masked(words[2])
    && words[5] % 256 + 6 >= |words|
  }

  /** If only the checksum is missing, the word after the line is taken for it; otherwise it is an error. */
  function CutVerdict(cut: seq<nat>, after: nat, off: bool): seq<Event>
    requires CutShort(cut)
  {
    if cut[5] % 256 + 6 == |cut| then Outcome(cut[3..], after, off) else [LengthError]
  }

  /** The scan of `l` between `pre` and the words `cut` that end the line. */
  function ScanBefore(pre: seq<nat>, l: Line, cut: seq<nat>, extra: seq<nat>, off: bool): seq<Event>
    requires extra != []
  {
    Scan(pre + l.All() + cut + extra, |pre|, |pre + l.All() + cut|, off)
  }

  lemma {:induction false} TailThenCut(pre: seq<nat>, t: seq<nat>, cut: seq<nat>, extra: seq<nat>, off: bool)
    requires NoFlag(t) && extra != [] && CutShort(cut)
    ensures Scan(pre + t + cut + extra, |pre|, |pre + t + cut|, off) == CutVerdict(cut, extra[0], off)
    decreases |t|
  {
    var line, i := pre + t + cut + extra, |pre|;
    if t == [] {
      assert forall k :: 0 <= k < |cut| ==> line[i + k] == cut[k];
      assert line[i + 5] == cut[5] && line[i + |cut|] == extra[0];
      assert line[i + 3..i + |cut|] == cut[3..];
    } else {
      assert pre + [t[0]] + t[1..] == pre + t;
      assert line[i] == t[0];
      TailThenCut(pre + [t[0]], t[1..], cut, extra, off);
    }
  }

  lemma GapBefore(pre: seq<nat>, l: Line, cut: seq<nat>, extra: seq<nat>, off: bool)
    requires l.Clean() && l.Run? && l.gap != [] && extra != [] && |cut| > 7
    ensures var m := Run(l.gap[1..], l.packet, l.rest);
            && m.Clean() && |m.All()| == |l.All()| - 1 && m.Events(off) == l.Events(off)
            && ScanBefore(pre, l, cut, extra, off) == ScanBefore(pre + [l.gap[0]], m, cut, extra, off)
  {
    var m := Run(l.gap[1..], l.packet, l.rest);
    assert l.All() == [l.gap[0]] + m.All();
    assert pre + [l.gap[0]] + m.All() == pre + l.All();
    assert (pre + l.All() + cut + extra)[|pre|] == l.gap[0];
  }

  lemma PacketBefore(pre: seq<nat>, l: Line, cut: seq<nat>, extra: seq<nat>, off: bool)
    requires l.Clean() && l.Run? && l.gap == [] && extra != [] && |cut| > 7
    ensures var p := l.packet;
            var next := Prepend(p.checksum, l.rest);
            && |next.All()| < |l.All()|
            && ScanBefore(pre, l, cut, extra, off)
               == p.Events(off) + ScanBefore(pre + p.flag + p.words, next, cut, extra, off)
  {
    hide Scan, Look;
    var p := l.packet;
    var next := Prepend(p.checksum, l.rest);
    PrependAll(p.checksum, l.rest);
    FoundBefore(pre, l, cut, extra);
    ScanWhole(pre + l.All() + cut + extra, |pre|, |pre + l.All() + cut|, off);
    assert pre + p.flag + p.words + next.All() == pre + l.All();
  }

  lemma FoundBefore(pre: seq<nat>, l: Line, cut: seq<nat>, extra: seq<nat>)
    requires l.Clean() && l.Run? && l.gap == [] && extra != [] && |cut| > 7
    ensures Look(pre + l.All() + cut + extra, |pre|, |pre + l.All() + cut|) == Whole(l.packet.words, l.packet.checksum)
  {
    hide Look;
    var p := l.packet;
    PacketFound(pre, p, l.rest.All() + cut + extra, |pre + l.All() + cut|);
    assert pre + p.All() + (l.rest.All() + cut + extra) == pre + l.All() + cut + extra;
  }

  /** The packets before have been judged; the one that is cut off gives its verdict, and ends the scan. */
  lemma {:induction false} CutShortStops(pre: seq<nat>, l: Line, cut: seq<nat>, extra: seq<nat>, off: bool)
    requires l.Clean() && extra != [] && CutShort(cut)
    ensures ScanBefore(pre, l, cut, extra, off) == l.Events(off) + CutVerdict(cut, extra[0], off)
    decreases |l.All()|
  {
    match l
    case End(t) => TailThenCut(pre, t, cut, extra, off);
    case Run(g, p, rest) =>
      if g != [] {
        GapBefore(pre, l, cut, extra, off);
        CutShortStops(pre + [g[0]], Run(g[1..], p, rest), cut, extra, off);
      } else {
        var next := Prepend(p.checksum, rest);
        PacketBefore(pre, l, cut, extra, off);
        PrependSame(p.checksum, rest, off);
        CutShortStops(pre + p.flag + p.words, next, cut, extra, off);
        AppendAssoc(p.Events(off), next.Events(off), CutVerdict(cut, extra[0], off));
      }
  }

  // ----- a line

  /** A caption packet of three words, between the flag and its checksum, on a line of twelve words. */
  lemma CaptionLine(after: nat)
    ensures Scan([0x000, 0x3ff, 0x3ff, 0x161, 0x101, 0x203, 0x200, 0x200, 0x200, 0x265, 0x040, 0x040] + [after], 0, 12,
                 false)
         == [Cdp([0x203, 0x200, 0x200, 0x200])]
  {
    hide Scan, Look, Checksum, Good;
    var p := Captions();
    var l := Run([], p, End([0x040, 0x040]));
    CaptionsGood();
    GoodLineDispatched(l, [after], false);
    assert p.words[2..] == [0x203, 0x200, 0x200, 0x200];
    assert [] + l.All() == l.All()
        == [0x000, 0x3ff, 0x3ff, 0x161, 0x101, 0x203, 0x200, 0x200, 0x200, 0x265, 0x040, 0x040];
    assert Dispatches(l.rest, false) == [];
  }

  function Captions(): Packet {
    Packet([0x000, 0x3ff, 0x3ff], [0x161, 0x101, 0x203, 0x200, 0x200, 0x200], 0x265)
  }

  lemma CaptionsGood()
    ensures Good(Captions())
  {
    SixWords(Captions().words);
  }

  lemma SixWords(words: seq<nat>)
    requires |words| == 6
    ensures Total(words) == words[0] + words[1] + words[2] + words[3] + words[4] + words[5]
    ensures Sum9(words) == Total(words) % 512
  {
    MaskedTotal(words);
    assert words[..5][..4] == words[..4] && words[..4][..3] == words[..3];
    assert words[..3][..2] == words[..2] && words[..2][..1] == words[..1] && words[..1][..0] == [];
    assert Total(words[..1]) == words[0];
    assert Total(words[..2]) == Total(words[..1]) + words[1];
    assert Total(words[..3]) == Total(words[..2]) + words[2];
    assert Total(words[..4]) == Total(words[..3]) + words[3];
    assert Total(words[..5]) == Total(words[..4]) + words[4];
  }
}
