/** The burst times of input/sdi/smpte337_detector2.c against the times of the audio frames in which the
    bursts start, for any list of calls of its write function. */
module Smpte337Frames {
  import opened Bits
  import opened Raster
  import opened Smpte337
  import opened Smpte337Runs
  import opened Smpte337Times

  // ----- the time of an audio frame

  /** Bytes that all have one time. */
  function Stamp(b: seq<Byte>, t: int): (c: seq<Cell>)
    ensures Bytes(c) == b
  {
    seq(|b|, i requires 0 <= i < |b| => Cell(b[i], t))
  }

  /** The packed bytes of a write's frames from the n-th one on, each with the time of its frame. */
  function FrameCells(buf: seq<Byte>, base: nat, frames: nat, span: nat, stride: nat, n: nat, pts: int): seq<Cell>
    requires Covers(|buf|, 4 * base, frames, 4 * span, 4 * stride)
    decreases frames
  {
    if frames == 0 then []
    else
      Stamp(Frame32(buf, base, span), pts + FrameOffset(n))
      + FrameCells(buf, base + stride, frames - 1, span, stride, n + 1, pts)
  }

  /** The frame a packed byte belongs to: each frame gives two bytes for every channel of the span. */
  function FrameNumber(r: nat, span: nat): nat
    requires span > 0
  {
    var size := 2 * span;
    NoRow(r, size);
    r / size
  }

  /** Byte r of the packed bytes has the time of its frame. */
  lemma {:induction false} FrameCellsAre(buf: seq<Byte>, base: nat, frames: nat, span: nat, stride: nat, n: nat,
                                         pts: int)
    requires span > 0 && Covers(|buf|, 4 * base, frames, 4 * span, 4 * stride)
    ensures var p := Packed32(buf, base, frames, span, stride);
            var c := FrameCells(buf, base, frames, span, stride, n, pts);
            |c| == |p| && forall r :: 0 <= r < |p| ==> c[r] == Cell(p[r], pts + FrameOffset(n + FrameNumber(r, span)))
    decreases frames
  {
    hide FrameNumber, FrameOffset;
    if frames > 0 {
      FrameCellsAre(buf, base + stride, frames - 1, span, stride, n + 1, pts);
      var p := Packed32(buf, base, frames, span, stride);
      var c := FrameCells(buf, base, frames, span, stride, n, pts);
      forall r | 0 <= r < |p|
        ensures c[r] == Cell(p[r], pts + FrameOffset(n + FrameNumber(r, span)))
      {
        NextNumber(r, span);
      }
    }
  }

  /** Byte k of frame q is the fourth or the third byte of sample k / 2 of that frame's 32-bit samples, which
      are little-endian: the 16 high bits, high byte first. */
  lemma PackedByte(buf: seq<Byte>, base: nat, frames: nat, span: nat, stride: nat, q: nat, k: nat)
    requires Covers(|buf|, 4 * base, frames, 4 * span, 4 * stride) && q < frames && k < 2 * span
    ensures q * (2 * span) + k < |Packed32(buf, base, frames, span, stride)|
    ensures 4 * (base + q * stride + k / 2) + 3 < |buf|
    ensures Packed32(buf, base, frames, span, stride)[q * (2 * span) + k]
         == buf[4 * (base + q * stride + k / 2) + 3 - k % 2]
  {
    hide Packed32, Frame32, Covers, Place;
    PackedJoin(buf, base, q, frames - q, span, stride);
    PackedLength(buf, base, q, span, stride);
    PlaceIs(base, q, stride);
    var at := Place(base, q, stride);
    FirstByte(buf, at, frames - q, span, stride, k);
    FrameByte(buf, at, span, k);
  }

  lemma FirstByte(buf: seq<Byte>, base: nat, frames: nat, span: nat, stride: nat, k: nat)
    requires frames > 0 && Covers(|buf|, 4 * base, frames, 4 * span, 4 * stride) && k < 2 * span
    ensures k < |Packed32(buf, base, frames, span, stride)| && 4 * (base + span) <= |buf|
    ensures Packed32(buf, base, frames, span, stride)[k] == Frame32(buf, base, span)[k]
  {
  }

  lemma {:induction false} PackedLength(buf: seq<Byte>, base: nat, frames: nat, span: nat, stride: nat)
    requires Covers(|buf|, 4 * base, frames, 4 * span, 4 * stride)
    ensures |Packed32(buf, base, frames, span, stride)| == frames * (2 * span)
    decreases frames
  {
    hide Frame32;
    if frames > 0 {
      PackedLength(buf, base + stride, frames - 1, span, stride);
      OneMore(frames, 2 * span);
    }
  }

  lemma OneMore(q: nat, size: nat)
    requires q > 0
    ensures q * size == size + (q - 1) * size
  {
  }

  lemma {:induction false} FrameByte(buf: seq<Byte>, base: nat, span: nat, k: nat)
    requires 4 * (base + span) <= |buf| && k < 2 * span
    ensures Frame32(buf, base, span)[k] == buf[4 * (base + k / 2) + 3 - k % 2]
  {
    if k < 2 * (span - 1) {
      FrameByte(buf, base, span - 1, k);
    }
  }

  lemma NextNumber(r: nat, span: nat)
    requires span > 0
    ensures FrameNumber(r, span) == if r < 2 * span then 0 else 1 + FrameNumber(r - 2 * span, span)
  {
    if r < 2 * span {
      InLine(2 * span, 0, r);
    } else {
      var rest := r - 2 * span;
      var q := FrameNumber(rest, span);
      InLine(2 * span, q + 1, rest % (2 * span));
      assert rest == q * (2 * span) + rest % (2 * span);
    }
  }

  /** The detector's offsets are those of the frames exactly if a frame has two samples. */
  lemma OffsetsRightIff(span: nat)
    requires span > 0
    ensures (forall r: nat :: SampleOffset(r) == FrameOffset(FrameNumber(r, span))) <==> span == 2
  {
    hide FrameNumber;
    if span == 2 {
      forall r: nat
        ensures SampleOffset(r) == FrameOffset(FrameNumber(r, span))
      {
        NumberOfTwo(r);
      }
    } else {
      var r := if span == 1 then 2 else 4;
      NextNumber(r, span);
      NextNumber(r - r / 2, span);
      NextNumber(0, span);
      assert SampleOffset(r) != FrameOffset(FrameNumber(r, span));
    }
  }

  lemma NumberOfTwo(r: nat)
    ensures FrameNumber(r, 2) == r / 4
  {
  }

  // ----- what a list of calls should give

  /** The bytes of one write; 16-bit samples bring none. */
  function Source(c: Call): (s: seq<Cell>)
    requires c.Taken() && c.Fits()
  {
    if c.depth == 32 then FrameCells(c.buf.bytes, 0, c.frames, c.span, c.stride / 4, 0, c.pts) else []
  }

  /** The stream of all writes. */
  function Sources(calls: seq<Call>): seq<Cell>
    requires AllFit(calls)
  {
    if calls == [] then []
    else
      var c := calls[|calls| - 1];
      Sources(calls[..|calls| - 1]) + if c.Taken() then Source(c) else []
  }

  /** Every burst is reported with the time of the audio frame it starts in. */
  ghost predicate Right(calls: seq<Call>)
    requires AllFit(calls)
  {
    Run(Chunks(calls)).callbacks == ScanCells(Sources(calls)).callbacks
  }

  /** The format and the time of a write, without its contents. */
  datatype Format = Format(depth: nat, span: nat, pts: int)

  /** The formats of the calls that are not rejected. */
  function Formats(calls: seq<Call>): seq<Format> {
    if calls == [] then []
    else
      var c := calls[|calls| - 1];
      Formats(calls[..|calls| - 1]) + if c.Taken() then [Format(c.depth, c.span, c.pts)] else []
  }

  predicate SpansTwo(fs: seq<Format>) {
    forall i :: 0 <= i < |fs| && fs[i].depth == 32 ==> fs[i].span == 2
  }

  /** Writes i to j - 1 are a whole block of 16-bit writes, and write j after them has 32 bits. */
  predicate Block(fs: seq<Format>, i: nat, j: nat)
    requires i < j < |fs|
  {
    && fs[j].depth == 32 && (forall k :: i <= k < j ==> fs[k].depth != 32)
    && (i > 0 ==> fs[i - 1].depth == 32)
  }

  /** Every block of 16-bit writes begins with the time of the 32-bit write after it. */
  predicate BlocksTimed(fs: seq<Format>) {
    forall i, j :: 0 <= i < j < |fs| && Block(fs, i, j) ==> fs[i].pts == fs[j].pts
  }

  // ----- when the formats are good

  ghost predicate Follows(ws: seq<Item>, fs: seq<Format>) {
    |ws| == |fs| && forall i :: 0 <= i < |ws| ==> Follow(ws[i], fs[i])
  }

  predicate Follow(w: Item, f: Format) {
    w.readpos == 0 && w.pts == f.pts && (Left(w) > 0 <==> f.depth == 32)
  }

  lemma {:induction false} ChunksFollow(calls: seq<Call>)
    requires AllFit(calls)
    ensures Follows(Chunks(calls), Formats(calls))
  {
    if calls != [] {
      var c := calls[|calls| - 1];
      ChunksFollow(calls[..|calls| - 1]);
      if c.Taken() { ChunkFollows(c); }
    }
  }

  lemma ChunkFollows(c: Call)
    requires c.Taken() && c.Fits()
    ensures Follow(c.Appended(), Format(c.depth, c.span, c.pts))
  {
  }

  lemma FollowsTimed(ws: seq<Item>, fs: seq<Format>)
    requires Follows(ws, fs) && BlocksTimed(fs)
    ensures GapsTimed(ws)
  {
    forall i, j | 0 <= i < j < |ws| && Gap(ws, i, j)
      ensures StartTime(ws[i]) == StartTime(ws[j])
    {
      assert Block(fs, i, j);
    }
  }

  lemma SourceIsCells(c: Call)
    requires c.Taken() && c.Fits() && (c.depth == 32 ==> c.span == 2)
    ensures Source(c) == Cells(c.Appended())
  {
    if c.depth == 32 {
      FrameCellsAre(c.buf.bytes, 0, c.frames, c.span, c.stride / 4, 0, c.pts);
      forall r | 0 <= r < |Source(c)|
        ensures Source(c)[r] == Cells(c.Appended())[r]
      {
        NumberOfTwo(r);
        assert Cells(c.Appended())[r] == Cell(c.Appended().bytes[r], c.pts + SampleOffset(r));
      }
    }
  }

  lemma SourceBytes(c: Call)
    requires c.Taken() && c.Fits()
    ensures Bytes(Source(c)) == c.Appended().bytes == Bytes(Cells(c.Appended()))
  {
    if c.depth == 32 {
      FrameCellsAre(c.buf.bytes, 0, c.frames, c.span, c.stride / 4, 0, c.pts);
    }
  }

  lemma {:induction false} SourcesAreFlat(calls: seq<Call>)
    requires AllFit(calls) && SpansTwo(Formats(calls))
    ensures Sources(calls) == Flat(Chunks(calls))
  {
    if calls != [] {
      var init, c := calls[..|calls| - 1], calls[|calls| - 1];
      if c.Taken() {
        SpansPrefix(Formats(init), Format(c.depth, c.span, c.pts));
        SourceIsCells(c);
        SourcesAreFlat(init);
        FlatSnoc(Chunks(init), c.Appended());
      } else {
        assert Formats(calls) == Formats(init) && Chunks(calls) == Chunks(init);
        SourcesAreFlat(init);
        assert Sources(calls) == Sources(init);
      }
    }
  }

  lemma SpansPrefix(fs: seq<Format>, f: Format)
    requires SpansTwo(fs + [f])
    ensures SpansTwo(fs) && (f.depth == 32 ==> f.span == 2)
  {
    assert (fs + [f])[|fs|] == f;
    assert forall i :: 0 <= i < |fs| ==> (fs + [f])[i] == fs[i];
  }

  /** Over two channels, and with blocks of 16-bit writes timed like the writes after them, every burst of
      every run carries the time of the audio frame it starts in. */
  lemma TimesAreExact(calls: seq<Call>)
    requires AllFit(calls) && SpansTwo(Formats(calls)) && BlocksTimed(Formats(calls))
    ensures Right(calls)
  {
    ChunksFollow(calls);
    FollowsTimed(Chunks(calls), Formats(calls));
    TimedRun(Chunks(calls));
    RunTimesIff(Chunks(calls));
    SourcesAreFlat(calls);
  }

  // ----- and only then: calls of any formats that go wrong unless the formats are good

  predicate Fillable(fs: seq<Format>) {
    forall i :: 0 <= i < |fs| ==> CanFill(fs[i])
  }

  predicate CanFill(f: Format) {
    (f.depth == 16 || f.depth == 32) && 0 < f.span && (f.depth == 32 ==> AssertionHolds(2 * f.span))
  }

  /** Enough frames for 32 bytes, and no more for two channels. */
  function FillFrames(span: nat): nat {
    if span == 2 then 8 else if span < 16 then 16 else 1
  }

  /** Two bursts of 16 bytes, then zeros. */
  function Filler(n: nat): (b: seq<Byte>)
    requires n >= 32
    ensures |b| == n
  {
    ExampleBurst() + ExampleBurst() + seq(n - 32, i => 0)
  }

  function FillLength(span: nat): (n: nat)
    requires 0 < span && AssertionHolds(2 * span)
    ensures n >= 32 && AssertionHolds(n) && (span == 2 ==> n == 32)
  {
    2 * if span == 2 then 16 else if span < 16 then 16 * span else span
  }

  lemma FillPlace(span: nat)
    requires 0 < span && AssertionHolds(2 * span)
    ensures FillLength(span) == 2 * Place(0, FillFrames(span), span)
  {
    PlaceIs(0, FillFrames(span), span);
  }

  lemma {:induction false} PlaceIs(base: nat, m: nat, span: nat)
    ensures Place(base, m, span) == base + m * span
    decreases m
  {
    if m > 0 {
      PlaceIs(base + span, m - 1, span);
      assert m * span == span + (m - 1) * span;
    }
  }

  /** Samples that pack into the bytes. */
  function Unpacked(b: seq<Byte>): (r: seq<Byte>)
    ensures |r| == 2 * |b|
  {
    seq(2 * |b|, k requires 0 <= k < 2 * |b| =>
      if k % 4 == 3 then b[k / 4 * 2] else if k % 4 == 2 && k / 4 * 2 + 1 < |b| then b[k / 4 * 2 + 1] else 0)
  }

  lemma {:induction false} UnpackedFrame(b: seq<Byte>, base: nat, span: nat)
    requires 2 * (base + span) <= |b|
    ensures Frame32(Unpacked(b), base, span) == b[2 * base..2 * (base + span)]
  {
    if span > 0 {
      UnpackedFrame(b, base, span - 1);
      var k := base + span - 1;
      assert (4 * k + 3) % 4 == 3 && (4 * k + 3) / 4 == k && (4 * k + 2) % 4 == 2 && (4 * k + 2) / 4 == k;
      assert b[2 * base..2 * (base + span)] == b[2 * base..2 * k] + [b[2 * k], b[2 * k + 1]];
    }
  }

  lemma CutBytes(b: seq<Byte>, i: nat, j: nat)
    requires i <= j <= |b|
    ensures b[i..] == b[i..j] + b[j..]
  {
  }

  lemma {:induction false} UnpackedFrames(b: seq<Byte>, base: nat, frames: nat, span: nat)
    requires |b| == 2 * Place(base, frames, span)
    ensures 2 * base <= |b| && Covers(2 * |b|, 4 * base, frames, 4 * span, 4 * span)
    ensures Packed32(Unpacked(b), base, frames, span, span) == b[2 * base..]
    decreases frames
  {
    if frames > 0 {
      UnpackedFrames(b, base + span, frames - 1, span);
      UnpackedFrame(b, base, span);
      CutBytes(b, 2 * base, 2 * (base + span));
    }
  }

  function FillCall(f: Format): Call
    requires CanFill(f)
  {
    if f.depth == 16 then Call(Buffer([]), 1, 16, f.span, 4, f.span, f.pts)
    else Call(Buffer(Unpacked(Filler(FillLength(f.span)))), FillFrames(f.span), 32, f.span, 4 * f.span, f.span, f.pts)
  }

  function FillChunk(f: Format): Item
    requires CanFill(f)
  {
    Chunk(f.pts, if f.depth == 32 then Filler(FillLength(f.span)) else [], 0)
  }

  lemma FillCallFits(f: Format)
    requires CanFill(f)
    ensures var c := FillCall(f);
            c.Taken() && c.Fits() && c.Appended() == FillChunk(f) && Format(c.depth, c.span, c.pts) == f
  {
    if f.depth == 32 {
      FillPlace(f.span);
      UnpackedFrames(Filler(FillLength(f.span)), 0, FillFrames(f.span), f.span);
      assert 4 * f.span / 4 == f.span;
    }
  }

  function Fill(fs: seq<Format>): (calls: seq<Call>)
    requires Fillable(fs)
    ensures |calls| == |fs|
  {
    seq(|fs|, i requires 0 <= i < |fs| => FillCall(fs[i]))
  }

  lemma FillSnoc(fs: seq<Format>, f: Format)
    requires Fillable(fs + [f])
    ensures Fillable(fs) && CanFill(f) && Fill(fs + [f]) == Fill(fs) + [FillCall(f)]
  {
    assert (fs + [f])[|fs|] == f;
    assert forall i :: 0 <= i < |fs| ==> (fs + [f])[i] == fs[i];
  }

  lemma {:induction false} FillFormats(fs: seq<Format>)
    requires Fillable(fs)
    ensures AllFit(Fill(fs)) && Formats(Fill(fs)) == fs
  {
    if fs != [] {
      var init, f := fs[..|fs| - 1], fs[|fs| - 1];
      assert init + [f] == fs;
      FillSnoc(init, f);
      FillFormats(init);
      FillCallFits(f);
      assert Fill(fs)[..|init|] == Fill(init);
    }
  }

  // ----- one more call

  lemma CallSnoc(calls: seq<Call>, c: Call)
    requires AllFit(calls) && c.Taken() && c.Fits()
    ensures AllFit(calls + [c]) && Chunks(calls + [c]) == Chunks(calls) + [c.Appended()]
    ensures Sources(calls + [c]) == Sources(calls) + Source(c)
  {
    assert (calls + [c])[..|calls|] == calls;
  }

  lemma {:induction false} SourcesBytes(calls: seq<Call>)
    requires AllFit(calls)
    ensures Bytes(Sources(calls)) == Bytes(Flat(Chunks(calls)))
  {
    if calls != [] {
      var init, c := calls[..|calls| - 1], calls[|calls| - 1];
      SourcesBytes(init);
      if c.Taken() {
        SourceBytes(c);
        BytesSnoc(Chunks(init), c.Appended());
        BytesConcat(Sources(init), Source(c));
      } else {
        assert Sources(calls) == Sources(init) && Chunks(calls) == Chunks(init);
      }
    }
  }

  lemma {:induction false} SameFound(calls: seq<Call>)
    requires AllFit(calls)
    ensures |Run(Chunks(calls)).callbacks| == |ScanCells(Sources(calls)).callbacks|
    ensures Bytes(ScanCells(Sources(calls)).rest) == Bytes(Flat(Run(Chunks(calls)).items))
  {
    SourcesBytes(calls);
    RunIsOnePass(Chunks(calls));
    TimesDoNotMatter(Sources(calls));
    assert |Bursts(Run(Chunks(calls)).callbacks)| == |Bursts(ScanCells(Sources(calls)).callbacks)|;
  }

  /** If all times are right after one more call, they were before it, and the last scan's are. */
  lemma {:induction false} RightSnoc(calls: seq<Call>, c: Call)
    requires AllFit(calls) && c.Taken() && c.Fits() && AllFit(calls + [c]) && Right(calls + [c])
    ensures Right(calls)
    ensures ScanList(Run(Chunks(calls)).items + [c.Appended()]).callbacks
         == ScanCells(ScanCells(Sources(calls)).rest + Source(c)).callbacks
  {
    CallSnoc(calls, c);
    SameFound(calls);
    RunSnoc(Chunks(calls), c.Appended());
    ScanResumes(Sources(calls), Source(c));
    SameParts(Run(Chunks(calls)).callbacks, ScanList(Run(Chunks(calls)).items + [c.Appended()]).callbacks,
              ScanCells(Sources(calls)).callbacks, ScanCells(ScanCells(Sources(calls)).rest + Source(c)).callbacks);
  }

  // ----- the scan of a filled write

  /** A burst of 16 bytes at the head of the stream. */
  lemma BurstFirst(b: seq<Byte>)
    requires ExampleBurst() <= b
    ensures |b| >= PEEK_LEN && StartsBurst(b) && BurstLength(b) == 16
  {
    SameStart(ExampleBurst(), b);
  }

  lemma FillerBursts(n: nat)
    requires n >= 32
    ensures ExampleBurst() <= Filler(n) && ExampleBurst() <= Filler(n)[16..]
  {
    assert Filler(n) == ExampleBurst() + (ExampleBurst() + seq(n - 32, i => 0));
    assert Filler(n)[16..] == ExampleBurst() + seq(n - 32, i => 0);
  }

  /** The times of the two bursts in the stream of frames. */
  lemma SourceTimes(s: seq<Cell>)
    requires |s| >= 32 && Bytes(s) == Filler(|s|)
    ensures |ScanCells(s).callbacks| >= 2
    ensures ScanCells(s).callbacks[0].pts == s[0].pts && ScanCells(s).callbacks[1].pts == s[16].pts
  {
    FillerBursts(|s|);
    BurstFirst(Bytes(s));
    BytesDrop(s, 16);
    BurstFirst(Bytes(s[16..]));
  }

  lemma {:induction false} PastEmpty(items: seq<Item>, c: Item, n: nat)
    requires TotalLeft(items) == 0 && n > 0
    ensures Consumed(items + [c], n) == Consumed([c], n)
  {
    if items == [] {
      assert items + [c] == [c];
    } else {
      assert (items + [c])[1..] == items[1..] + [c];
      PastEmpty(items[1..], c, n);
    }
  }

  lemma CutChunk(c: Item)
    requires c.readpos == 0 && |c.bytes| >= 16
    ensures Consumed([c], 16) == if |c.bytes| == 16 then [] else [c.(readpos := 16)]
  {
  }

  lemma OneChunk(c: Item)
    ensures Flat([c]) == Cells(c)
  {
    assert [c][1..] == [] && Cells(c) + [] == Cells(c);
  }

  /** The times the detector gives the two bursts, when all chunks before them are empty. */
  lemma FillerTimes(items: seq<Item>, c: Item)
    requires TotalLeft(items) == 0 && c.readpos == 0 && |c.bytes| >= 32 && c.bytes == Filler(|c.bytes|)
    ensures var s := ScanList(items + [c]);
            && |s.callbacks| >= 2 && s.callbacks[0].pts == HeadTime(items + [c])
            && s.callbacks[1].pts == c.pts + SampleOffset(16)
            && (|c.bytes| == 32 ==> s.items == [])
  {
    hide StartsBurst, BurstLength, ScanList, Filler, Consumed;
    FillerBursts(|c.bytes|);
    FlatOfOne(items, c);
    BurstFirst(c.bytes);
    ScanTakes(items + [c]);
    PastEmpty(items, c, 16);
    CutChunk(c);
    SecondBurst(c);
  }

  lemma FlatOfOne(items: seq<Item>, c: Item)
    requires TotalLeft(items) == 0 && c.readpos == 0
    ensures Bytes(Flat(items + [c])) == c.bytes
  {
    FlatLength(items);
    FlatSnoc(items, c);
    assert Flat(items) == [] && Flat(items + [c]) == Cells(c);
    WholeChunk(c);
  }

  lemma SecondBurst(c: Item)
    requires c.readpos == 0 && |c.bytes| >= 32 && c.bytes == Filler(|c.bytes|)
    ensures var s := ScanList([c.(readpos := 16)]);
            && s.callbacks != [] && s.callbacks[0].pts == c.pts + SampleOffset(16)
            && (|c.bytes| == 32 ==> s.items == [])
  {
    var d: Item := c.(readpos := 16);
    FillerBursts(|c.bytes|);
    OneChunk(d);
    assert Bytes(Cells(d)) == c.bytes[16..];
    BurstFirst(c.bytes[16..]);
    ScanTakes([d]);
    if |c.bytes| == 32 {
      assert Consumed([d], 16) == [];
      assert Flat([]) == [];
    }
  }

  // ----- the formats that can go wrong do

  /** Whether a filled run is right says whether its formats are good. */
  lemma {:induction false} FillForces(fs: seq<Format>)
    requires Fillable(fs) && AllFit(Fill(fs)) && Right(Fill(fs))
    ensures SpansTwo(fs) && BlocksTimed(fs) && TotalLeft(Run(Chunks(Fill(fs))).items) == 0
  {
    if fs != [] {
      var init, f := fs[..|fs| - 1], fs[|fs| - 1];
      assert init + [f] == fs;
      FillFormats(init);
      FillSnoc(init, f);
      FillCallFits(f);
      RightSnoc(Fill(init), FillCall(f));
      FillForces(init);
      CallForces(Fill(init), init, f);
    }
  }

  lemma {:induction false} CallForces(calls: seq<Call>, fs: seq<Format>, f: Format)
    requires AllFit(calls) && Formats(calls) == fs && SpansTwo(fs) && BlocksTimed(fs) && CanFill(f)
    requires TotalLeft(Run(Chunks(calls)).items) == 0 && FillCall(f).Taken() && FillCall(f).Fits()
    requires FillCall(f).Appended() == FillChunk(f) && FillCall(f).span == f.span
    requires ScanList(Run(Chunks(calls)).items + [FillChunk(f)]).callbacks
          == ScanCells(ScanCells(Sources(calls)).rest + Source(FillCall(f))).callbacks
    ensures SpansTwo(fs + [f]) && BlocksTimed(fs + [f])
    ensures AllFit(calls + [FillCall(f)]) && TotalLeft(Run(Chunks(calls + [FillCall(f)])).items) == 0
  {
    hide Run, ScanList, ScanCells, BlocksTimed, SpansTwo, TailOf, Follows, Chunks, Sources, Source, Filler, Formats;
    var ws, c, s := Chunks(calls), FillChunk(f), Source(FillCall(f));
    var items, rest := Run(ws).items, ScanCells(Sources(calls)).rest;
    CallSnoc(calls, FillCall(f));
    RunSnoc(ws, c);
    SameFound(calls);
    FlatLength(items);
    assert |Bytes(rest)| == 0 && rest + s == s;
    ChunksFollow(calls);
    var k := RunTail(ws);
    if f.depth == 16 {
      EmptyForces(fs, f);
      EmptyScan(items, c);
    } else {
      FillSize(f);
      FillSource(FillCall(f));
      FillerTimes(items, c);
      SourceTimes(s);
      ForcedSpan(f.span, f.pts);
      SpansSnoc(fs, f);
      HeadForces(fs, f, ws, items, k);
    }
  }

  lemma EmptyScan(items: seq<Item>, c: Item)
    requires TotalLeft(items) == 0 && Left(c) == 0
    ensures TotalLeft(ScanList(items + [c]).items) == 0
  {
    FlatSnoc(items, c);
    FlatLength(items + [c]);
    ScanStops(items + [c]);
  }

  lemma EmptyForces(fs: seq<Format>, f: Format)
    requires SpansTwo(fs) && BlocksTimed(fs) && f.depth == 16
    ensures SpansTwo(fs + [f]) && BlocksTimed(fs + [f])
  {
    assert forall l :: 0 <= l < |fs| ==> (fs + [f])[l] == fs[l];
    forall i, j | 0 <= i < j < |fs + [f]| && Block(fs + [f], i, j)
      ensures (fs + [f])[i].pts == (fs + [f])[j].pts
    {
      assert Block(fs, i, j);
    }
  }

  lemma SpansSnoc(fs: seq<Format>, f: Format)
    requires SpansTwo(fs) && f.span == 2
    ensures SpansTwo(fs + [f])
  {
  }

  lemma FillSize(f: Format)
    requires CanFill(f) && f.depth == 32
    ensures var c := FillChunk(f);
            |c.bytes| >= 32 && c.bytes == Filler(|c.bytes|) && c.pts == f.pts && (f.span == 2 ==> |c.bytes| == 32)
  {
  }

  lemma FillSource(c: Call)
    requires c.Taken() && c.Fits() && c.depth == 32
    requires var b := c.Appended().bytes; |b| >= 32 && b == Filler(|b|)
    ensures var s := Source(c);
            && |s| >= 32 && Bytes(s) == Filler(|s|) && s[0].pts == c.pts
            && s[16].pts == c.pts + FrameOffset(FrameNumber(16, c.span))
  {
    hide FrameCells, Packed32, Covers, Filler, FrameNumber;
    SourceBytes(c);
    FrameCellsAre(c.buf.bytes, 0, c.frames, c.span, c.stride / 4, 0, c.pts);
    NextNumber(0, c.span);
  }

  /** The second burst's time is right only for two channels. */
  lemma ForcedSpan(span: nat, pts: int)
    requires span > 0 && pts + SampleOffset(16) == pts + FrameOffset(FrameNumber(16, span))
    ensures span == 2
  {
    hide FrameNumber;
    var q := FrameNumber(16, span);
    assert q == 4;
    NumberFour(span);
  }

  lemma NumberFour(span: nat)
    requires span > 0 && FrameNumber(16, span) == 4
    ensures span == 2
  {
    hide FrameNumber;
    NextNumber(16, span);
    NextNumber(if span < 8 then 16 - 2 * span else 0, span);
    NextNumber(if span < 4 then 16 - 4 * span else 0, span);
    NextNumber(if span < 3 then 16 - 6 * span else 0, span);
    NextNumber(if span < 3 then 16 - 8 * span else 0, span);
    NextNumber(if span < 2 then 16 - 10 * span else 0, span);
  }

  /** The first burst's time is right only if the block of empty chunks before it begins with it. */
  lemma HeadForces(fs: seq<Format>, f: Format, ws: seq<Item>, items: seq<Item>, k: nat)
    requires Follows(ws, fs) && TailOf(items, ws, k) && TotalLeft(items) == 0
    requires BlocksTimed(fs) && CanFill(f) && HeadTime(items + [FillChunk(f)]) == f.pts
    ensures BlocksTimed(fs + [f])
  {
    var gs := fs + [f];
    assert forall l :: 0 <= l < |fs| ==> gs[l] == fs[l];
    AllEmpty(items);
    forall i, j | 0 <= i < j < |gs| && Block(gs, i, j)
      ensures gs[i].pts == gs[j].pts
    {
      if j < |fs| {
        assert Block(fs, i, j);
      } else {
        LastBlock(fs, f, ws, items, k, i);
      }
    }
  }

  lemma {:induction false} AllEmpty(items: seq<Item>)
    requires TotalLeft(items) == 0
    ensures forall i :: 0 <= i < |items| ==> Left(items[i]) == 0
  {
    if items != [] {
      AllEmpty(items[1..]);
      assert forall i :: 0 < i < |items| ==> items[i] == items[1..][i - 1];
    }
  }

  lemma LastBlock(fs: seq<Format>, f: Format, ws: seq<Item>, items: seq<Item>, k: nat, i: nat)
    requires Follows(ws, fs) && TailOf(items, ws, k) && i < |fs| && Block(fs + [f], i, |fs|)
    requires forall l :: 0 <= l < |items| ==> Left(items[l]) == 0
    ensures i == k && items != [] && items[0].pts == fs[i].pts && items[0].readpos == 0
  {
    assert forall l :: 0 <= l < |fs| ==> (fs + [f])[l] == fs[l];
    TailFormats(fs, ws, items, k);
    assert Follow(ws[i], fs[i]);
  }

  /** The empty chunks that are left are those of the last 16-bit writes. */
  lemma TailFormats(fs: seq<Format>, ws: seq<Item>, items: seq<Item>, k: nat)
    requires Follows(ws, fs) && TailOf(items, ws, k)
    requires forall l :: 0 <= l < |items| ==> Left(items[l]) == 0
    ensures (forall l :: k <= l < |fs| ==> fs[l].depth != 32) && (k > 0 ==> fs[k - 1].depth == 32)
  {
    forall l | k <= l < |fs|
      ensures fs[l].depth != 32
    {
      assert Follow(ws[l], fs[l]) && ws[l] == items[l - k];
    }
    assert k > 0 ==> Follow(ws[k - 1], fs[k - 1]);
  }

  lemma {:induction false} FormatsFillable(calls: seq<Call>)
    requires AllFit(calls)
    ensures Fillable(Formats(calls))
  {
    if calls != [] {
      var c := calls[|calls| - 1];
      FormatsFillable(calls[..|calls| - 1]);
      if c.Taken() && c.depth == 32 { OneFrameFits(c); }
    }
  }

  /** A call that passes the assertion has at least one frame. */
  lemma OneFrameFits(c: Call)
    requires c.Taken() && c.Fits() && c.depth == 32
    ensures AssertionHolds(2 * c.span)
  {
    assert |Packed32(c.buf.bytes, 0, c.frames, c.span, c.stride / 4)| >= |Frame32(c.buf.bytes, 0, c.span)|;
  }

  /** All runs of calls with the same formats and times are right, whatever their samples. */
  ghost predicate AlwaysRight(calls: seq<Call>) {
    forall others :: AllFit(others) && Formats(others) == Formats(calls) ==> Right(others)
  }

  /** Every burst of every run carries the time of the audio frame it starts in if and only if every 32-bit
      write has two channels and every block of 16-bit writes begins with the time of the 32-bit write after
      it: a test on the formats and times of the writes alone. */
  lemma {:induction false} TimesRightIff(calls: seq<Call>)
    requires AllFit(calls)
    ensures AlwaysRight(calls) <==> SpansTwo(Formats(calls)) && BlocksTimed(Formats(calls))
  {
    var fs := Formats(calls);
    if SpansTwo(fs) && BlocksTimed(fs) {
      forall others | AllFit(others) && Formats(others) == fs
        ensures Right(others)
      {
        TimesAreExact(others);
      }
    }
    if AlwaysRight(calls) {
      FormatsFillable(calls);
      FillFormats(fs);
      FillForces(fs);
    }
  }
}
