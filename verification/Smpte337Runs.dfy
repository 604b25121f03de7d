/** Whole runs of the SMPTE 337 detectors: any sequence of writes against one pass over all the bytes. */
module Smpte337Runs {
  import opened Bits
  import opened Sequences
  import opened Smpte337

  // ----- runs: the stream arrives in pieces

  function Concat<T>(parts: seq<seq<T>>): seq<T> {
    if parts == [] then [] else Concat(parts[..|parts| - 1]) + parts[|parts| - 1]
  }

  /** The state of the chunk-list detector after writing each chunk in turn. */
  function Run(ws: seq<Item>): ListScan {
    if ws == [] then ListScan([], [])
    else
      var s := Run(ws[..|ws| - 1]);
      var t := ScanList(s.items + [ws[|ws| - 1]]);
      ListScan(s.callbacks + t.callbacks, t.items)
  }

  /** The state of the flat detector after appending each piece in turn. */
  function FlatRun(parts: seq<seq<Byte>>): Scan {
    if parts == [] then Scan([], [])
    else
      var s := FlatRun(parts[..|parts| - 1]);
      var t := ScanBytes(s.rest + parts[|parts| - 1]);
      Scan(s.bursts + t.bursts, t.rest)
  }

  /** Any sequence of appends finds what one pass over the whole stream finds. */
  lemma {:induction false} FlatRunIsOnePass(parts: seq<seq<Byte>>)
    ensures FlatRun(parts) == ScanBytes(Concat(parts))
  {
    if parts != [] {
      FlatRunIsOnePass(parts[..|parts| - 1]);
      ScanBytesResumes(Concat(parts[..|parts| - 1]), parts[|parts| - 1]);
    }
  }

  /** So does any sequence of chunk writes, down to the bytes kept for the next one. */
  lemma {:induction false} RunIsOnePass(ws: seq<Item>)
    ensures Bursts(Run(ws).callbacks) == ScanBytes(Bytes(Flat(ws))).bursts
    ensures Bytes(Flat(Run(ws).items)) == ScanBytes(Bytes(Flat(ws))).rest
  {
    hide *;
    if ws == [] {
      NothingRun();
    } else {
      var init, c := ws[..|ws| - 1], ws[|ws| - 1];
      RunIsOnePass(init);
      OnePassStep(init, c);
      assert init + [c] == ws;
    }
  }

  lemma NothingRun()
    ensures Run([]) == ListScan([], []) && Flat([]) == [] && ScanBytes(Bytes([])) == Scan([], Bytes([]))
    ensures Bursts([]) == []
  {
  }

  lemma OnePassStep(ws: seq<Item>, c: Item)
    requires Bursts(Run(ws).callbacks) == ScanBytes(Bytes(Flat(ws))).bursts
    requires Bytes(Flat(Run(ws).items)) == ScanBytes(Bytes(Flat(ws))).rest
    ensures Bursts(Run(ws + [c]).callbacks) == ScanBytes(Bytes(Flat(ws + [c]))).bursts
    ensures Bytes(Flat(Run(ws + [c]).items)) == ScanBytes(Bytes(Flat(ws + [c]))).rest
  {
    hide *;
    RunSnoc(ws, c);
    BytesSnoc(ws, c);
    ScanBytesResumes(Bytes(Flat(ws)), Bytes(Cells(c)));
    RunStep(Run(ws), c);
  }

  lemma RunStep(s: ListScan, c: Item)
    ensures var t := ScanList(s.items + [c]);
            var u := ScanBytes(Bytes(Flat(s.items)) + Bytes(Cells(c)));
            Bursts(s.callbacks + t.callbacks) == Bursts(s.callbacks) + u.bursts && Bytes(Flat(t.items)) == u.rest
  {
    ListScanIsFlatScan(s.items + [c]);
    BytesSnoc(s.items, c);
    BurstsConcat(s.callbacks, ScanList(s.items + [c]).callbacks);
  }

  lemma BytesSnoc(items: seq<Item>, c: Item)
    ensures Bytes(Flat(items + [c])) == Bytes(Flat(items)) + Bytes(Cells(c))
  {
    FlatSnoc(items, c);
    BytesConcat(Flat(items), Cells(c));
  }

  lemma BytesConcat(a: seq<Cell>, b: seq<Cell>)
    ensures Bytes(a + b) == Bytes(a) + Bytes(b)
  {
  }

  /** Detection does not depend on how the stream is cut into writes, and the two detectors agree. */
  lemma {:induction false} ChunkingIndependent(ws: seq<Item>, vs: seq<Item>, parts: seq<seq<Byte>>)
    requires Bytes(Flat(ws)) == Bytes(Flat(vs)) == Concat(parts)
    ensures Bursts(Run(ws).callbacks) == Bursts(Run(vs).callbacks) == FlatRun(parts).bursts
    ensures Bytes(Flat(Run(ws).items)) == Bytes(Flat(Run(vs).items)) == FlatRun(parts).rest
  {
    RunIsOnePass(ws);
    RunIsOnePass(vs);
    FlatRunIsOnePass(parts);
  }

  // ----- runs of the detector itself

  /** The arguments of one write. */
  datatype Call = Call(buf: Buffer, frames: nat, depth: nat, channels: nat, stride: nat, span: nat, pts: int)
  {
    predicate Taken() {
      Accepts(buf, frames, depth, channels, stride, span)
    }

    /** The samples lie in the buffer and pass the program's assertion. */
    predicate Fits() {
      Taken() && depth == 32 ==>
        Covers(|buf.bytes|, 0, frames, 4 * span, 4 * (stride / 4))
        && AssertionHolds(|Packed32(buf.bytes, 0, frames, span, stride / 4)|)
    }

    function Appended(): Item
      requires Taken() && Fits()
    {
      Chunk(pts, if depth == 32 then Packed32(buf.bytes, 0, frames, span, stride / 4) else [], 0)
    }
  }

  predicate AllFit(calls: seq<Call>) {
    forall i :: 0 <= i < |calls| ==> calls[i].Fits()
  }

  /** The chunks that a list of writes appends. */
  function Chunks(calls: seq<Call>): seq<Item>
    requires AllFit(calls)
  {
    if calls == [] then []
    else
      var c := calls[|calls| - 1];
      Chunks(calls[..|calls| - 1]) + if c.Taken() then [c.Appended()] else []
  }

  lemma ChunksStep(calls: seq<Call>, i: nat)
    requires AllFit(calls) && i < |calls|
    ensures AllFit(calls[..i]) && AllFit(calls[..i + 1]) && calls[i].Fits()
    ensures Chunks(calls[..i + 1]) == Chunks(calls[..i]) + if calls[i].Taken() then [calls[i].Appended()] else []
  {
    assert calls[..i + 1][..i] == calls[..i];
  }

  lemma RunSnoc(ws: seq<Item>, c: Item)
    ensures var t := ScanList(Run(ws).items + [c]);
            Run(ws + [c]) == ListScan(Run(ws).callbacks + t.callbacks, t.items)
  {
    assert (ws + [c])[..|ws|] == ws;
  }

  /** A new detector that is given any list of writes goes through the run of their chunks. */
  method WriteAll(calls: seq<Call>) returns (d: Detector)
    requires AllFit(calls)
    ensures fresh(d) && d.Valid() && d.items == Run(Chunks(calls)).items && d.callbacks == Run(Chunks(calls)).callbacks
  {
    d := new Detector();
    for i := 0 to |calls|
      invariant fresh(d) && d.Valid() && AllFit(calls[..i])
      invariant d.items == Run(Chunks(calls[..i])).items && d.callbacks == Run(Chunks(calls[..i])).callbacks
    {
      ChunksStep(calls, i);
      WriteOne(d, calls[i], Chunks(calls[..i]));
    }
    assert calls[..|calls|] == calls;
  }

  method WriteOne(d: Detector, c: Call, ghost ws: seq<Item>)
    requires d.Valid() && c.Fits() && d.items == Run(ws).items && d.callbacks == Run(ws).callbacks
    modifies d
    ensures var after := Run(ws + if c.Taken() then [c.Appended()] else []);
            d.Valid() && d.items == after.items && d.callbacks == after.callbacks
  {
    if c.Taken() { RunSnoc(ws, c.Appended()); } else { assert ws + [] == ws; }
    var _ := d.Write(c.buf, c.frames, c.depth, c.channels, c.stride, c.span, c.pts);
  }

  /** Where frame m lies, in words. */
  function Place(base: nat, m: nat, stride: nat): nat
    decreases m
  {
    if m == 0 then base else Place(base + stride, m - 1, stride)
  }

  /** Packing m + n frames is packing m frames and then the n frames after them. */
  lemma {:induction false} PackedJoin(buf: seq<Byte>, base: nat, m: nat, n: nat, span: nat, stride: nat)
    requires Covers(|buf|, 4 * base, m + n, 4 * span, 4 * stride)
    ensures Covers(|buf|, 4 * base, m, 4 * span, 4 * stride)
    ensures Covers(|buf|, 4 * Place(base, m, stride), n, 4 * span, 4 * stride)
    ensures Packed32(buf, base, m + n, span, stride)
         == Packed32(buf, base, m, span, stride) + Packed32(buf, Place(base, m, stride), n, span, stride)
    decreases m
  {
    if m > 0 {
      assert 4 * (base + stride) == 4 * base + 4 * stride;
      PackedJoin(buf, base + stride, m - 1, n, span, stride);
      AppendAssoc(Frame32(buf, base, span), Packed32(buf, base + stride, m - 1, span, stride),
                  Packed32(buf, Place(base, m, stride), n, span, stride));
    }
  }

  /** So one write of 32-bit samples may be cut in two at any frame, anywhere in a run: the same bursts are
      found and the same bytes kept. */
  lemma {:induction false} WriteCutInTwo(ws: seq<Item>, buf: seq<Byte>, m: nat, n: nat, span: nat, stride: nat, t: int,
                                         u: int, v: int)
    requires Covers(|buf|, 0, m + n, 4 * span, 4 * stride)
    ensures Covers(|buf|, 0, m, 4 * span, 4 * stride) && Covers(|buf|, 4 * Place(0, m, stride), n, 4 * span, 4 * stride)
    ensures var whole: Item := Chunk(t, Packed32(buf, 0, m + n, span, stride), 0);
            var first: Item := Chunk(u, Packed32(buf, 0, m, span, stride), 0);
            var second: Item := Chunk(v, Packed32(buf, Place(0, m, stride), n, span, stride), 0);
            && Bursts(Run(ws + [whole]).callbacks) == Bursts(Run(ws + [first] + [second]).callbacks)
            && Bytes(Flat(Run(ws + [whole]).items)) == Bytes(Flat(Run(ws + [first] + [second]).items))
  {
    PackedJoin(buf, 0, m, n, span, stride);
    var whole: Item := Chunk(t, Packed32(buf, 0, m + n, span, stride), 0);
    var first: Item := Chunk(u, Packed32(buf, 0, m, span, stride), 0);
    var second: Item := Chunk(v, Packed32(buf, Place(0, m, stride), n, span, stride), 0);
    SameBytes(ws, whole, first, second);
    ChunkingIndependent(ws + [whole], ws + [first] + [second], [Bytes(Flat(ws + [whole]))]);
  }

  lemma WholeChunk(c: Item)
    requires c.readpos == 0
    ensures Bytes(Cells(c)) == c.bytes
  {
  }

  lemma SameBytes(ws: seq<Item>, whole: Item, first: Item, second: Item)
    requires whole.readpos == first.readpos == second.readpos == 0 && whole.bytes == first.bytes + second.bytes
    ensures Bytes(Flat(ws + [whole])) == Bytes(Flat(ws + [first] + [second])) == Concat([Bytes(Flat(ws + [whole]))])
  {
    WholeChunk(whole);
    WholeChunk(first);
    WholeChunk(second);
    BytesSnoc(ws, whole);
    BytesSnoc(ws, first);
    BytesSnoc(ws + [first], second);
    AppendAssoc(Bytes(Flat(ws)), first.bytes, second.bytes);
    var all := Bytes(Flat(ws + [whole]));
    var parts: seq<seq<Byte>> := [all];
    assert parts[..0] == [] && Concat(parts) == [] + all;
  }
}
