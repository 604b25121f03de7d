/** Interlaced 4:2:2 to 4:2:0 chroma conversion and 10 to 8 bit dithering (`filters/video/video.c`). */
module Downconvert {
  import opened Raster

  // Three parts of one sample and one of another, rounded.
  function Blend(near: nat, far: nat): (r: nat)
    ensures 4 * r <= 3 * near + far + 2 < 4 * r + 4
  {
    (3 * near + far + 2) / 4
  }

  // The line of a plane of 4:2:2 chroma that is nearest to output line `row`, of the same field.
  function NearLine(row: nat): nat {
    if row % 2 == 0 then 2 * row else 2 * row + 1
  }

  function FarLine(row: nat): nat {
    if row % 2 == 0 then 2 * row + 2 else 2 * row - 1
  }

  function Sample(plane: seq<nat>, w: nat, row: nat, col: nat): nat
    requires row * w + col < |plane|
  {
    plane[row * w + col]
  }

  // The planes hold all lines that `height` output lines are made from and written to.
  predicate Fits(length: nat, w: nat, width: nat, lines: nat) {
    0 < w && width <= w && lines * w <= length
  }

  lemma LineInside(length: nat, w: nat, width: nat, lines: nat, row: nat)
    requires Fits(length, w, width, lines) && row < lines
    ensures row * w + w <= length
  {
    assert (row + 1) * w <= lines * w;
  }

  function LineAt(a: seq<nat>, w: nat, width: nat, lines: nat, row: nat, col: nat): nat
    requires Fits(|a|, w, width, lines) && row < lines && col < width
  {
    LineInside(|a|, w, width, lines, row);
    Sample(a, w, row, col)
  }

  // A converted sample.
  function Output(src: seq<nat>, w: nat, width: nat, height: nat, row: nat, col: nat): nat
    requires Fits(|src|, w, width, 2 * height) && height % 2 == 0 && row < height && col < width
  {
    Blend(LineAt(src, w, width, 2 * height, NearLine(row), col), LineAt(src, w, width, 2 * height, FarLine(row), col))
  }

  // Element k of the output plane once `rows` lines are converted over `was`.
  function Partly(src: seq<nat>, was: seq<nat>, w: nat, dw: nat, width: nat, height: nat, rows: nat, k: nat): nat
    requires Fits(|src|, w, width, 2 * height) && Fits(|was|, dw, width, height) && k < |was|
    requires rows <= height && height % 2 == 0
  {
    if k / dw < rows && k % dw < width then Output(src, w, width, height, k / dw, k % dw) else was[k]
  }

  /** `downsample_chroma_row_top_c`. */
  method DownsampleTop(src: array<nat>, s: nat, dst: array<nat>, d: nat, width: nat, stride: nat)
    requires src != dst && s + stride + width / 2 <= src.Length && d + width / 2 <= dst.Length
    modifies dst
    ensures forall k :: 0 <= k < dst.Length ==>
      dst[k] == if d <= k < d + width / 2 then Blend(src[s + k - d], src[s + stride + k - d]) else old(dst[k])
  {
    var srcf := s + stride;
    var i := 0;
    while i < width / 2
      invariant i <= width / 2
      invariant forall k :: 0 <= k < dst.Length ==>
        dst[k] == if d <= k < d + i then Blend(src[s + k - d], src[s + stride + k - d]) else old(dst[k])
    {
      dst[d + i] := (3 * src[s + i] + src[srcf + i] + 2) / 4;
      i := i + 1;
    }
  }

  /** `downsample_chroma_row_bottom_c`. */
  method DownsampleBottom(src: array<nat>, s: nat, dst: array<nat>, d: nat, width: nat, stride: nat)
    requires src != dst && s + stride + width / 2 <= src.Length && d + width / 2 <= dst.Length
    modifies dst
    ensures forall k :: 0 <= k < dst.Length ==>
      dst[k] == if d <= k < d + width / 2 then Blend(src[s + stride + k - d], src[s + k - d]) else old(dst[k])
  {
    var srcf := s + stride;
    var i := 0;
    while i < width / 2
      invariant i <= width / 2
      invariant forall k :: 0 <= k < dst.Length ==>
        dst[k] == if d <= k < d + i then Blend(src[s + stride + k - d], src[s + k - d]) else old(dst[k])
    {
      dst[d + i] := (src[s + i] + 3 * src[srcf + i] + 2) / 4;
      i := i + 1;
    }
  }

  // One more line.
  lemma AddRow(src: seq<nat>, was: seq<nat>, before: seq<nat>, after: seq<nat>, w: nat, dw: nat, width: nat,
               height: nat, row: nat, k: nat)
    requires Fits(|src|, w, width, 2 * height) && Fits(|was|, dw, width, height)
    requires row < height && height % 2 == 0 && k < |was| == |before| == |after|
    requires before[k] == Partly(src, was, w, dw, width, height, row, k)
    requires row * dw <= k < row * dw + width ==>
      after[k] == Output(src, w, width, height, row, k - row * dw)
    requires !(row * dw <= k < row * dw + width) ==> after[k] == before[k]
    ensures after[k] == Partly(src, was, w, dw, width, height, row + 1, k)
  {
    RowCells(dw, row, 0, width, k);
    assert k == (k / dw) * dw + k % dw;
  }

  // The output plane after the conversion.
  function Converted(src: seq<nat>, was: seq<nat>, w: nat, dw: nat, width: nat, height: nat): (r: seq<nat>)
    requires Fits(|src|, w, width, 2 * height) && Fits(|was|, dw, width, height) && height % 2 == 0
    ensures |r| == |was|
  {
    seq(|was|, k requires 0 <= k < |was| => Partly(src, was, w, dw, width, height, height, k))
  }

  // The predicate the loop keeps.
  ghost predicate PartlyAll(src: array<nat>, dst: array<nat>, was: seq<nat>, w: nat, dw: nat, width: nat, height: nat,
                            rows: nat)
    requires Fits(src.Length, w, width, 2 * height) && Fits(|was|, dw, width, height) && dst.Length == |was|
    requires rows <= height && height % 2 == 0
    reads src, dst
  {
    forall k :: 0 <= k < dst.Length ==> dst[k] == Partly(src[..], was, w, dw, width, height, rows, k)
  }

  /** Both rows of one pass of the loop of `downconvert_image_interlaced`. */
  method ConvertTop(src: array<nat>, s: nat, dst: array<nat>, d: nat, w: nat, dw: nat, width: nat, height: nat, j: nat,
                    ghost was: seq<nat>)
    requires src != dst && Fits(src.Length, w, width, 2 * height) && Fits(|was|, dw, width, height)
    requires dst.Length == |was| && height % 2 == 0 && j % 2 == 0 && j < height && s == 2 * j * w && d == j * dw
    requires PartlyAll(src, dst, was, w, dw, width, height, j)
    modifies dst
    ensures PartlyAll(src, dst, was, w, dw, width, height, j + 1)
  {
    ghost var before := dst[..];
    LineInside(src.Length, w, width, 2 * height, NearLine(j));
    LineInside(src.Length, w, width, 2 * height, FarLine(j));
    LineInside(dst.Length, dw, width, height, j);
    assert FarLine(j) * w == s + 2 * w;
    DownsampleTop(src, s, dst, d, 2 * width, 2 * w);
    forall k | 0 <= k < dst.Length ensures dst[k] == Partly(src[..], was, w, dw, width, height, j + 1, k) {
      AddRow(src[..], was, before, dst[..], w, dw, width, height, j, k);
    }
  }

  method ConvertBottom(src: array<nat>, s: nat, dst: array<nat>, d: nat, w: nat, dw: nat, width: nat, height: nat,
                       j: nat, ghost was: seq<nat>)
    requires src != dst && Fits(src.Length, w, width, 2 * height) && Fits(|was|, dw, width, height)
    requires dst.Length == |was| && height % 2 == 0 && j % 2 == 1 && j < height && s == FarLine(j) * w && d == j * dw
    requires PartlyAll(src, dst, was, w, dw, width, height, j)
    modifies dst
    ensures PartlyAll(src, dst, was, w, dw, width, height, j + 1)
  {
    ghost var before := dst[..];
    LineInside(src.Length, w, width, 2 * height, NearLine(j));
    LineInside(src.Length, w, width, 2 * height, FarLine(j));
    LineInside(dst.Length, dw, width, height, j);
    assert NearLine(j) * w == s + 2 * w;
    DownsampleBottom(src, s, dst, d, 2 * width, 2 * w);
    forall k | 0 <= k < dst.Length ensures dst[k] == Partly(src[..], was, w, dw, width, height, j + 1, k) {
      AddRow(src[..], was, before, dst[..], w, dw, width, height, j, k);
    }
  }

  /** One chroma plane of `downconvert_image_interlaced`: `height` lines are made from twice as many.
      Strides are in bytes; the row functions get the byte stride of the input as a distance in samples,
      which is two lines. */
  method ConvertPlane(src: array<nat>, stride: nat, dst: array<nat>, outStride: nat, width: nat, height: nat)
    requires src != dst && stride % 2 == 0 && outStride % 2 == 0 && height % 2 == 0
    requires Fits(src.Length, stride / 2, width, 2 * height) && Fits(dst.Length, outStride / 2, width, height)
    modifies dst
    ensures dst[..] == Converted(src[..], old(dst[..]), stride / 2, outStride / 2, width, height)
  {
    ghost var was := dst[..];
    var w, dw := stride / 2, outStride / 2;
    var s, d, j := 0, 0, 0;
    forall k | 0 <= k < dst.Length ensures dst[k] == Partly(src[..], was, w, dw, width, height, 0, k) {
      NoRow(k, dw);
    }
    while j < height
      invariant j <= height && j % 2 == 0 && s == 2 * j * w && d == j * dw
      invariant PartlyAll(src, dst, was, w, dw, width, height, j)
    {
      ConvertTop(src, s, dst, d, w, dw, width, height, j, was);
      NextLines(w, dw, j);
      ConvertBottom(src, s + stride / 2, dst, d + outStride / 2, w, dw, width, height, j + 1, was);
      s := s + stride * 2;
      d := d + outStride;
      j := j + 2;
    }
  }

  lemma NextLines(w: nat, dw: nat, j: nat)
    requires j % 2 == 0
    ensures 2 * j * w + w == FarLine(j + 1) * w && j * dw + dw == (j + 1) * dw
    ensures 2 * j * w + 4 * w == 2 * (j + 2) * w && j * dw + 2 * dw == (j + 2) * dw
  {
  }

  // ----- What a converted plane is

  predicate SameField(a: seq<nat>, b: seq<nat>, w: nat, width: nat, lines: nat, parity: nat)
    requires |a| == |b| && Fits(|a|, w, width, lines)
  {
    forall row, col :: 0 <= row < lines && row % 2 == parity && 0 <= col < width ==>
      LineAt(a, w, width, lines, row, col) == LineAt(b, w, width, lines, row, col)
  }

  lemma {:induction false} ConvertedAt(src: seq<nat>, was: seq<nat>, w: nat, dw: nat, width: nat, height: nat,
                                       row: nat, col: nat)
    requires Fits(|src|, w, width, 2 * height) && Fits(|was|, dw, width, height)
    requires height % 2 == 0 && row < height && col < width
    ensures LineAt(Converted(src, was, w, dw, width, height), dw, width, height, row, col)
         == Output(src, w, width, height, row, col)
  {
    LineInside(|was|, dw, width, height, row);
    InLine(dw, row, col);
    ElementAt(src, was, w, dw, width, height, row, col, row * dw + col);
  }

  lemma ElementAt(src: seq<nat>, was: seq<nat>, w: nat, dw: nat, width: nat, height: nat, row: nat, col: nat, k: nat)
    requires Fits(|src|, w, width, 2 * height) && Fits(|was|, dw, width, height) && height % 2 == 0
    requires row < height && col < width && k < |was| && k / dw == row && k % dw == col
    ensures Converted(src, was, w, dw, width, height)[k] == Output(src, w, width, height, row, col)
  {
  }

  /** Whatever the output plane held before, no line of the converted plane depends on the other field. */
  lemma FieldsStayApart(a: seq<nat>, b: seq<nat>, was: seq<nat>, w: nat, dw: nat, width: nat, height: nat, parity: nat)
    requires |a| == |b| && Fits(|a|, w, width, 2 * height) && Fits(|was|, dw, width, height) && height % 2 == 0
    requires SameField(a, b, w, width, 2 * height, parity)
    ensures SameField(Converted(a, was, w, dw, width, height), Converted(b, was, w, dw, width, height),
                      dw, width, height, parity)
  {
    var ca, cb := Converted(a, was, w, dw, width, height), Converted(b, was, w, dw, width, height);
    forall row, col | 0 <= row < height && row % 2 == parity && 0 <= col < width
      ensures LineAt(ca, dw, width, height, row, col) == LineAt(cb, dw, width, height, row, col)
    {
      ConvertedAt(a, was, w, dw, width, height, row, col);
      ConvertedAt(b, was, w, dw, width, height, row, col);
      SameOutput(a, b, w, width, height, row, col);
    }
  }

  lemma SameOutput(a: seq<nat>, b: seq<nat>, w: nat, width: nat, height: nat, row: nat, col: nat)
    requires |a| == |b| && Fits(|a|, w, width, 2 * height) && height % 2 == 0 && row < height && col < width
    requires SameField(a, b, w, width, 2 * height, row % 2)
    ensures Output(a, w, width, height, row, col) == Output(b, w, width, height, row, col)
  {
    var near, far := NearLine(row), FarLine(row);
    assert LineAt(a, w, width, 2 * height, near, col) == LineAt(b, w, width, 2 * height, near, col);
    assert LineAt(a, w, width, 2 * height, far, col) == LineAt(b, w, width, 2 * height, far, col);
  }

  /** Every converted sample lies between the two input samples of its column and field it is made from,
      at a quarter of the way, rounded to the nearest with halves up. */
  lemma {:induction false} ConvertedBetween(src: seq<nat>, was: seq<nat>, w: nat, dw: nat, width: nat, height: nat,
                                            row: nat, col: nat)
    requires Fits(|src|, w, width, 2 * height) && Fits(|was|, dw, width, height)
    requires height % 2 == 0 && row < height && col < width
    ensures var near := LineAt(src, w, width, 2 * height, row / 2 * 4 + row % 2 * 3, col);
            var far := LineAt(src, w, width, 2 * height, row / 2 * 4 + 2 - row % 2, col);
            var out := LineAt(Converted(src, was, w, dw, width, height), dw, width, height, row, col);
            && (near <= far ==> near <= out <= far) && (far <= near ==> far <= out <= near)
            && -1 <= 4 * out - (3 * near + far) <= 2
  {
    ConvertedAt(src, was, w, dw, width, height, row, col);
    SourceLines(row);
  }

  lemma SourceLines(row: nat)
    ensures NearLine(row) == row / 2 * 4 + row % 2 * 3 && FarLine(row) == row / 2 * 4 + 2 - row % 2
  {
  }

  predicate Within(a: seq<nat>, w: nat, width: nat, lines: nat, limit: nat)
    requires Fits(|a|, w, width, lines)
  {
    forall row, col :: 0 <= row < lines && 0 <= col < width ==> LineAt(a, w, width, lines, row, col) <= limit
  }

  /** Input of 10 bits, or any other range, gives output of the same range. */
  lemma RangeKept(src: seq<nat>, was: seq<nat>, w: nat, dw: nat, width: nat, height: nat, limit: nat)
    requires Fits(|src|, w, width, 2 * height) && Fits(|was|, dw, width, height) && height % 2 == 0
    requires Within(src, w, width, 2 * height, limit)
    ensures Within(Converted(src, was, w, dw, width, height), dw, width, height, limit)
  {
    var out := Converted(src, was, w, dw, width, height);
    forall row, col | 0 <= row < height && 0 <= col < width
      ensures LineAt(out, dw, width, height, row, col) <= limit
    {
      ConvertedAt(src, was, w, dw, width, height, row, col);
      assert LineAt(src, w, width, 2 * height, NearLine(row), col) <= limit;
      assert LineAt(src, w, width, 2 * height, FarLine(row), col) <= limit;
    }
  }

  // ----- Dithering

  const SCALE := 511

  // `(src + dither) * scale >> shift`, before it is stored in a byte.
  function Dithered(sample: nat, dither: nat): nat {
    (sample + dither) * SCALE / 2048
  }

  // `obe_dithers`: the eight rows are two, four times over.
  const DITHER_EVEN := [1, 2, 1, 2, 1, 2, 1, 2]
  const DITHER_ODD := [3, 0, 3, 0, 3, 0, 3, 0]
  const OBE_DITHERS :=
    [DITHER_EVEN, DITHER_ODD, DITHER_EVEN, DITHER_ODD, DITHER_EVEN, DITHER_ODD, DITHER_EVEN, DITHER_ODD]

  function DitherRow(row: nat): (r: seq<nat>)
    ensures |r| == 8
  {
    OBE_DITHERS[row % 8]
  }

  /** `dither_row_10_to_8_c`; a store in a byte keeps the low eight bits. */
  method DitherRow10To8(src: array<nat>, s: nat, dst: array<nat>, d: nat, dither: seq<nat>, width: nat)
    requires src != dst && |dither| == 8 && s + width <= src.Length && d + width <= dst.Length
    modifies dst
    ensures forall k :: 0 <= k < dst.Length ==>
      dst[k] == if d <= k < d + width then Dithered(src[s + k - d], dither[(k - d) % 8]) % 256 else old(dst[k])
  {
    var k := 0;
    while k < width - 7
      invariant k <= width && k % 8 == 0
      invariant RowDithered(src[..], s, dst[..], old(dst[..]), d, dither, k)
    {
      ghost var before := dst[..];
      DitherEight(src, s + k, dst, d + k, dither);
      EightDithered(src[..], s, before, dst[..], old(dst[..]), d, dither, k);
      k := k + 8;
    }
    while k < width
      invariant k <= width
      invariant RowDithered(src[..], s, dst[..], old(dst[..]), d, dither, k)
    {
      ghost var before := dst[..];
      dst[d + k] := (src[s + k] + dither[k % 8]) * SCALE / 2048 % 256;
      MoreDithered(src[..], s, before, dst[..], old(dst[..]), d, dither, k, 1);
      k := k + 1;
    }
  }

  ghost predicate RowDithered(src: seq<nat>, s: nat, dst: seq<nat>, was: seq<nat>, d: nat, dither: seq<nat>, n: nat)
    requires |dither| == 8 && |dst| == |was| && s + n <= |src| && d + n <= |dst|
  {
    forall k :: 0 <= k < |dst| ==>
      dst[k] == if d <= k < d + n then Dithered(src[s + k - d], dither[(k - d) % 8]) % 256 else was[k]
  }

  lemma MoreDithered(src: seq<nat>, s: nat, before: seq<nat>, after: seq<nat>, was: seq<nat>, d: nat, dither: seq<nat>,
                     n: nat, more: nat)
    requires |dither| == 8 && |before| == |was| == |after| && s + n + more <= |src| && d + n + more <= |was|
    requires RowDithered(src, s, before, was, d, dither, n)
    requires forall k :: 0 <= k < |after| ==>
      after[k] == if d + n <= k < d + n + more then Dithered(src[s + k - d], dither[(k - d) % 8]) % 256 else before[k]
    ensures RowDithered(src, s, after, was, d, dither, n + more)
  {
  }

  lemma EightDithered(src: seq<nat>, s: nat, before: seq<nat>, after: seq<nat>, was: seq<nat>, d: nat, dither: seq<nat>,
                      n: nat)
    requires |dither| == 8 && |before| == |was| == |after| && s + n + 8 <= |src| && d + n + 8 <= |was| && n % 8 == 0
    requires RowDithered(src, s, before, was, d, dither, n)
    requires forall k :: 0 <= k < |after| ==>
      after[k] == if d + n <= k < d + n + 8 then Dithered(src[s + k - d], dither[k - d - n]) % 256 else before[k]
    ensures RowDithered(src, s, after, was, d, dither, n + 8)
  {
    forall k | d + n <= k < d + n + 8
      ensures after[k] == Dithered(src[s + k - d], dither[(k - d) % 8]) % 256
    {
      SameColumn(n, k - d - n);
    }
    MoreDithered(src, s, before, after, was, d, dither, n, 8);
  }

  lemma SameColumn(n: nat, m: nat)
    requires n % 8 == 0 && m < 8
    ensures (n + m) % 8 == m
  {
  }

  // The unrolled body of the first loop.
  method DitherEight(src: array<nat>, s: nat, dst: array<nat>, d: nat, dither: seq<nat>)
    requires src != dst && |dither| == 8 && s + 8 <= src.Length && d + 8 <= dst.Length
    modifies dst
    ensures forall k :: 0 <= k < dst.Length ==>
      dst[k] == if d <= k < d + 8 then Dithered(src[s + k - d], dither[k - d]) % 256 else old(dst[k])
  {
    dst[d] := (src[s] + dither[0]) * SCALE / 2048 % 256;
    dst[d + 1] := (src[s + 1] + dither[1]) * SCALE / 2048 % 256;
    dst[d + 2] := (src[s + 2] + dither[2]) * SCALE / 2048 % 256;
    dst[d + 3] := (src[s + 3] + dither[3]) * SCALE / 2048 % 256;
    dst[d + 4] := (src[s + 4] + dither[4]) * SCALE / 2048 % 256;
    dst[d + 5] := (src[s + 5] + dither[5]) * SCALE / 2048 % 256;
    dst[d + 6] := (src[s + 6] + dither[6]) * SCALE / 2048 % 256;
    dst[d + 7] := (src[s + 7] + dither[7]) * SCALE / 2048 % 256;
  }

  // Element k of the output once `rows` rows are dithered over `was`.
  function DitheredTo(src: seq<nat>, was: seq<nat>, w: nat, dw: nat, width: nat, height: nat, rows: nat, k: nat): nat
    requires Fits(|src|, w, width, height) && Fits(|was|, dw, width, height) && rows <= height && k < |was|
  {
    if k / dw < rows && k % dw < width
    then Dithered(LineAt(src, w, width, height, k / dw, k % dw), DitherRow(k / dw)[k % dw % 8]) % 256
    else was[k]
  }

  ghost predicate DitheredRows(src: array<nat>, dst: array<nat>, was: seq<nat>, w: nat, dw: nat, width: nat,
                               height: nat, rows: nat)
    requires Fits(src.Length, w, width, height) && Fits(|was|, dw, width, height) && dst.Length == |was|
    requires rows <= height
    reads src, dst
  {
    forall k :: 0 <= k < dst.Length ==> dst[k] == DitheredTo(src[..], was, w, dw, width, height, rows, k)
  }

  method DitherLine(src: array<nat>, s: nat, dst: array<nat>, d: nat, w: nat, dw: nat, width: nat, height: nat, j: nat,
                    ghost was: seq<nat>)
    requires src != dst && Fits(src.Length, w, width, height) && Fits(|was|, dw, width, height) && dst.Length == |was|
    requires j < height && s == j * w && d == j * dw
    requires DitheredRows(src, dst, was, w, dw, width, height, j)
    modifies dst
    ensures DitheredRows(src, dst, was, w, dw, width, height, j + 1)
  {
    LineInside(src.Length, w, width, height, j);
    LineInside(dst.Length, dw, width, height, j);
    DitherRow10To8(src, s, dst, d, DitherRow(j), width);
    forall k | 0 <= k < dst.Length ensures dst[k] == DitheredTo(src[..], was, w, dw, width, height, j + 1, k) {
      RowCells(dw, j, 0, width, k);
      assert k == (k / dw) * dw + k % dw;
    }
  }

  lemma NextRow(w: nat, j: nat)
    ensures j * w + w == (j + 1) * w
  {
  }

  /** One plane of `dither_image`. */
  method DitherPlane(src: array<nat>, stride: nat, dst: array<nat>, outStride: nat, width: nat, height: nat)
    requires src != dst && stride % 2 == 0
    requires Fits(src.Length, stride / 2, width, height) && Fits(dst.Length, outStride, width, height)
    modifies dst
    ensures DitheredRows(src, dst, old(dst[..]), stride / 2, outStride, width, height, height)
  {
    ghost var was := dst[..];
    var w := stride / 2;
    var s, d, j := 0, 0, 0;
    forall k | 0 <= k < dst.Length ensures dst[k] == DitheredTo(src[..], was, w, outStride, width, height, 0, k) {
      NoRow(k, outStride);
    }
    while j < height
      invariant j <= height && s == j * w && d == j * outStride
      invariant DitheredRows(src, dst, was, w, outStride, width, height, j)
    {
      DitherLine(src, s, dst, d, w, outStride, width, height, j, was);
      NextRow(w, j);
      NextRow(outStride, j);
      s, d, j := s + w, d + outStride, j + 1;
    }
  }

  /** Every sample within the width has the dither of its row and column added, 1 and 2 by turns in even rows,
      3 and 0 in odd ones, and is scaled by 511 / 2048; everything else is left as it was. */
  lemma DitheredSample(src: seq<nat>, was: seq<nat>, w: nat, dw: nat, width: nat, height: nat, row: nat, col: nat)
    requires Fits(|src|, w, width, height) && Fits(|was|, dw, width, height) && row < height && col < dw
    ensures row * dw + col < |was| && (col < width ==> row * w + col < |src|)
    ensures DitheredTo(src, was, w, dw, width, height, height, row * dw + col)
         == if col >= width then was[row * dw + col]
            else (src[row * w + col] + if row % 2 == 0 then 1 + col % 2 else 3 - 3 * (col % 2)) * 511 / 2048 % 256
  {
    LineInside(|was|, dw, width, height, row);
    LineInside(|src|, w, width, height, row);
    InLine(dw, row, col);
    if col < width { DitherAt(row, col, row % 2 == 0, col % 2 == 0); }
  }

  /** The store in a byte loses nothing exactly up to the sum that the largest 10-bit sample and the
      largest dither make. */
  lemma DitherFits(sample: nat, dither: nat)
    ensures Dithered(sample, dither) % 256 == Dithered(sample, dither) <==> sample + dither <= 1023 + 3
  {
  }

  /** Dithering keeps the order of samples, ends included, and is within one of a quarter. */
  lemma DitherBounds(a: nat, b: nat, dither: nat)
    requires a <= b <= 1023 && dither <= 3
    ensures Dithered(a, dither) <= Dithered(b, dither) <= 255
    ensures Dithered(0, dither) == 0 && Dithered(1023, dither) == 255
    ensures -1 <= Dithered(a, dither) - a / 4 <= 1
  {
  }

  /** Any two by two block of equal samples sees each dither once; it never gets brighter and loses at
      most three of its 1023 steps. */
  lemma FlatBlock(v: nat, row: nat, col: nat)
    requires v <= 1023
    ensures var total := Dithered(v, DitherRow(row)[col % 8]) + Dithered(v, DitherRow(row)[(col + 1) % 8])
                       + Dithered(v, DitherRow(row + 1)[col % 8]) + Dithered(v, DitherRow(row + 1)[(col + 1) % 8]);
            v - 3 <= total <= v
  {
    hide DitherRow, Dithered, DitherFor;
    var e, f := row % 2 == 0, col % 2 == 0;
    Flips(row);
    Flips(col);
    DitherAt(row, col, e, f);
    DitherAt(row, col + 1, e, !f);
    DitherAt(row + 1, col, !e, f);
    DitherAt(row + 1, col + 1, !e, !f);
    FourDithers(v, e, f);
  }

  lemma Flips(n: nat)
    ensures (n + 1) % 2 == 0 <==> n % 2 != 0
  {
  }

  // The value of the table for the parities of a row and a column.
  function DitherFor(evenRow: bool, evenCol: bool): nat {
    if evenRow then if evenCol then 1 else 2 else if evenCol then 3 else 0
  }

  lemma DitherAt(row: nat, col: nat, evenRow: bool, evenCol: bool)
    requires evenRow == (row % 2 == 0) && evenCol == (col % 2 == 0)
    ensures DitherRow(row)[col % 8] == DitherFor(evenRow, evenCol)
  {
    SameParity(row);
    SameParity(col);
    TableAt(row % 8, col % 8);
  }

  lemma SameParity(n: nat)
    ensures n % 8 % 2 == n % 2
  {
  }

  lemma TableAt(r: nat, c: nat)
    requires r < 8 && c < 8
    ensures OBE_DITHERS[r][c] == DitherFor(r % 2 == 0, c % 2 == 0)
  {
    assert OBE_DITHERS[r] == if r % 2 == 0 then DITHER_EVEN else DITHER_ODD;
  }

  lemma FourDithers(v: nat, evenRow: bool, evenCol: bool)
    requires v <= 1023
    ensures v - 3 <= Dithered(v, DitherFor(evenRow, evenCol)) + Dithered(v, DitherFor(evenRow, !evenCol))
                   + Dithered(v, DitherFor(!evenRow, evenCol)) + Dithered(v, DitherFor(!evenRow, !evenCol)) <= v
  {
    AllDithers(v);
  }

  lemma AllDithers(v: nat)
    requires v <= 1023
    ensures v - 3 <= Dithered(v, 0) + Dithered(v, 1) + Dithered(v, 2) + Dithered(v, 3) <= v
  {
    Quartered(v, 0);
    Quartered(v, 1);
    Quartered(v, 2);
    Quartered(v, 3);
    FourQuarters(v / 4, v % 4);
  }

  // Four neighbours and their quarters; one of them is one below a multiple of four.
  lemma FourQuarters(q: nat, r: nat)
    requires r < 4
    ensures var v := 4 * q + r;
            && v / 4 + (v + 1) / 4 + (v + 2) / 4 + (v + 3) / 4 == v
            && AtLeast(v) + AtLeast(v + 1) + AtLeast(v + 2) + AtLeast(v + 3) == v - 3
  {
  }

  function AtLeast(x: nat): int {
    if x % 4 == 3 then x / 4 else x / 4 - 1
  }

  lemma Quartered(v: nat, d: nat)
    requires v <= 1023 && d <= 3
    ensures AtLeast(v + d) <= Dithered(v, d) <= (v + d) / 4
  {
  }
}
