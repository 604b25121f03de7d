/** Counters burned into V210 frames as rows of boxes, and read back (`input/sdi/v210.c`). */
module BurnIn {
  import opened Bits
  import opened Raster

  const BOX_HEIGHT := 12
  const WHITE := 0x3ff
  const BLACK := 0x000
  const CHROMA := 0x200

  // Three 10-bit samples in a 32-bit word.
  function Packed(hi: nat, mid: nat, lo: nat): nat {
    hi * 0x10_0000 + mid * 0x400 + lo
  }

  // `V210_white` and `V210_black`: the four words of six pixels.
  function Colouring(on: bool): (r: seq<nat>)
    ensures |r| == 4
  {
    var y := if on then WHITE else BLACK;
    [Packed(CHROMA, y, CHROMA), Packed(y, CHROMA, y), Packed(CHROMA, y, CHROMA), Packed(y, CHROMA, y)]
  }

  // `value & (1 << sh)`
  predicate BitSet(value: nat, sh: nat) {
    value / Pow2(sh) % 2 == 1
  }

  // ----- The picture, word by word; `w` is the number of words in a line

  // Word k once `rows` lines of the p-th box below line y are painted over `was`.
  function Boxed(was: seq<nat>, w: nat, y: nat, rows: nat, p: nat, on: bool, k: nat): nat
    requires w > 0 && k < |was|
  {
    if y <= k / w < y + rows && 8 * p <= k % w < 8 * p + 8 then Colouring(on)[k % w % 4] else was[k]
  }

  // Word k once the boxes from the p-th on show the low bits of `value`.
  function Shown(was: seq<nat>, w: nat, y: nat, value: nat, p: nat, k: nat): nat
    requires w > 0 && k < |was|
  {
    if y <= k / w < y + BOX_HEIGHT && 8 * p <= k % w < 256
    then Colouring(BitSet(value, 31 - k % w / 8))[k % w % 4]
    else was[k]
  }

  function Burned(was: seq<nat>, w: nat, y: nat, value: nat): (r: seq<nat>)
    requires w > 0
    ensures |r| == |was|
  {
    seq(|was|, k requires 0 <= k < |was| => Shown(was, w, y, value, 0, k))
  }

  // The word the reader samples for the i-th bit, two lines down.
  predicate Sample(frame: seq<nat>, w: nat, y: nat, i: nat)
    requires i < 32 && 256 <= w && (y + 3) * w <= |frame|
  {
    InLine(w, y + 2, 8 * i + 5);
    frame[(y + 2) * w + 8 * i + 5] % 0x400 > 0x80
  }

  function Samples(frame: seq<nat>, w: nat, y: nat): (r: seq<bool>)
    requires 256 <= w && (y + 3) * w <= |frame|
    ensures |r| == 32
  {
    seq(32, i requires 0 <= i < 32 => Sample(frame, w, y, i))
  }

  // ----- Painting

  /** `V210_draw_6_pixels`: eight words, the colouring twice. */
  method DrawSixPixels(frame: array<nat>, addr: nat, colouring: seq<nat>)
    requires addr + 8 <= frame.Length && |colouring| == 4
    modifies frame
    ensures forall k :: 0 <= k < frame.Length ==>
      frame[k] == if addr <= k < addr + 8 then colouring[(k - addr) % 4] else old(frame[k])
  {
    var i, at := 0, addr;
    while i < BOX_HEIGHT / 6
      invariant i <= 2 && at == addr + 4 * i
      invariant forall k :: 0 <= k < frame.Length ==>
        frame[k] == if addr <= k < at then colouring[(k - addr) % 4] else old(frame[k])
    {
      frame[at] := colouring[0];
      frame[at + 1] := colouring[1];
      frame[at + 2] := colouring[2];
      frame[at + 3] := colouring[3];
      i, at := i + 1, at + 4;
    }
  }

  lemma LineFits(w: nat, y: nat, l: nat, rows: nat, p: nat, length: nat)
    requires p < 32 && 256 <= w && l < rows && (y + rows) * w <= length
    ensures y * w + 8 * p + l * w == (y + l) * w + 8 * p && (y + l) * w + 8 * p + 8 <= length
  {
    InLine(w, y + l, 8 * p + 7);
    assert (y + l + 1) * w <= (y + rows) * w;
  }

  method DrawLine(frame: array<nat>, w: nat, on: bool, p: nat, y: nat, l: nat, addr: nat, ghost was: seq<nat>)
    requires p < 32 && 256 <= w && l < BOX_HEIGHT && (y + BOX_HEIGHT) * w <= frame.Length == |was|
    requires addr == y * w + 8 * p + l * w
    requires forall k :: 0 <= k < frame.Length ==> frame[k] == Boxed(was, w, y, l, p, on, k)
    modifies frame
    ensures forall k :: 0 <= k < frame.Length ==> frame[k] == Boxed(was, w, y, l + 1, p, on, k)
  {
    LineFits(w, y, l, BOX_HEIGHT, p, frame.Length);
    DrawSixPixels(frame, addr, Colouring(on));
    forall k | 0 <= k < frame.Length ensures frame[k] == Boxed(was, w, y, l + 1, p, on, k) {
      RowCells(w, y + l, 8 * p, 8, k);
      if k / w == y + l && 8 * p <= k % w { SameColour(w, y + l, k % w, p, k); }
    }
  }

  /** `V210_draw_box_at` and `V210_draw_box`: twelve lines of the p-th box, which begins at pixel 12 p. */
  method DrawBoxAt(frame: array<nat>, w: nat, on: bool, p: nat, y: nat, interlaced: bool)
    requires p < 32 && 256 <= w && (y + BOX_HEIGHT) * w <= frame.Length
    modifies frame
    ensures forall k :: 0 <= k < frame.Length ==> frame[k] == Boxed(old(frame[..]), w, y, BOX_HEIGHT, p, on, k)
  {
    ghost var was := frame[..];
    var x := p * BOX_HEIGHT;
    var addr := y * w + x / 6 * 4;
    var interleaved := if interlaced then 2 else 1;
    interleaved := 1;
    var l := 0;
    while l < BOX_HEIGHT
      invariant l <= BOX_HEIGHT
      invariant forall k :: 0 <= k < frame.Length ==> frame[k] == Boxed(was, w, y, l, p, on, k)
    {
      DrawLine(frame, w, on, p, y, l, addr + l * interleaved * w, was);
      l := l + 1;
    }
  }

  lemma SameColour(w: nat, row: nat, col: nat, p: nat, k: nat)
    requires w > 0 && row == k / w && col == k % w && 8 * p <= col
    ensures (k - (row * w + 8 * p)) % 4 == col % 4
  {
    assert k == row * w + col;
  }

  /** `V210_write_32bit_value`: all 32 boxes, the last bit first; the whole picture is `Burned`. */
  method WriteValue(frame: array<nat>, stride: nat, value: nat, y: nat, interlaced: bool)
    requires 1024 <= stride && (y + BOX_HEIGHT) * (stride / 4) <= frame.Length
    modifies frame
    ensures frame[..] == Burned(old(frame[..]), stride / 4, y, value)
  {
    var w := stride / 4;
    ghost var was := frame[..];
    var p, sh := 31, 0;
    while p >= 0
      invariant -1 <= p <= 31 && sh == 31 - p
      invariant forall k :: 0 <= k < frame.Length ==> frame[k] == Shown(was, w, y, value, p + 1, k)
    {
      ghost var before := frame[..];
      DrawBoxAt(frame, w, BitSet(value, sh), p, y, interlaced);
      forall k | 0 <= k < frame.Length ensures frame[k] == Shown(was, w, y, value, p, k) {
        AddBox(was, before, w, y, value, p, k);
      }
      p, sh := p - 1, sh + 1;
    }
  }

  lemma AddBox(was: seq<nat>, before: seq<nat>, w: nat, y: nat, value: nat, p: nat, k: nat)
    requires p < 32 && 0 < w && k < |was| == |before|
    requires before[k] == Shown(was, w, y, value, p + 1, k)
    ensures Boxed(before, w, y, BOX_HEIGHT, p, BitSet(value, 31 - p), k) == Shown(was, w, y, value, p, k)
  {
    var x := k % w;
    assert 8 * p <= x < 8 * p + 8 ==> x / 8 == p;
  }

  // The luma sample two lines down, in the middle of the i-th box.
  method ReadSample(frame: array<nat>, w: nat, y: nat, i: nat) returns (lit: bool)
    requires i < 32 && 256 <= w && (y + 3) * w <= frame.Length
    ensures lit == Sample(frame[..], w, y, i)
  {
    var xpos := i * BOX_HEIGHT + BOX_HEIGHT / 2;
    var addr := (y + 2) * w + xpos / 6 * 4;
    InLine(w, y + 2, 8 * i + 5);
    lit := frame[addr + 1] % 0x400 > 0x80;
  }

  /** `V210_read_32bit_value` at scale one. */
  method ReadValue(frame: array<nat>, stride: nat, y: nat) returns (bits: nat)
    requires 1024 <= stride && (y + 3) * (stride / 4) <= frame.Length
    ensures bits == FromBits(Samples(frame[..], stride / 4, y))
  {
    var w := stride / 4;
    bits := 0;
    var i := 0;
    ghost var all := Samples(frame[..], w, y);
    while i < 32
      invariant i <= 32 && bits == FromBits(all[..i])
    {
      var lit := ReadSample(frame, w, y, i);
      ShiftIn(all, i);
      bits := bits * 2 % 0x1_0000_0000;
      if lit { bits := bits + 1; }
      i := i + 1;
    }
    assert all[..32] == all;
  }

  // No bit is lost at the top while the 32 are shifted in.
  lemma ShiftIn(b: seq<bool>, i: nat)
    requires i < |b| == 32
    ensures FromBits(b[..i + 1]) == FromBits(b[..i]) * 2 % 0x1_0000_0000 + if b[i] then 1 else 0
  {
    assert b[..i + 1][..i] == b[..i];
    Pow2Values();
    Pow2Mono(i, 31);
  }

  // ----- Reading back

  lemma {:induction false} ToBitsAt(v: nat, n: nat, i: nat)
    requires i < n
    ensures ToBits(v, n)[i] == BitSet(v, n - 1 - i)
    decreases n
  {
    if i < n - 1 {
      ToBitsAt(v / 2, n - 1, i);
      HalvedBit(v, n - 2 - i);
    }
  }

  lemma {:induction false} HalvedBit(v: nat, sh: nat)
    ensures BitSet(v / 2, sh) == BitSet(v, sh + 1)
  {
    DivDiv(v, Pow2(sh));
  }

  lemma DivDiv(v: nat, m: nat)
    requires m > 0
    ensures v / 2 / m == v / (2 * m)
  {
    var h, n := v / 2, 2 * m;
    var q, r := h / m, h % m;
    assert h == q * m + r;
    Doubled(q, m, n);
    InLine(n, q, 2 * r + v % 2);
    assert v == q * n + 2 * r + v % 2;
  }

  lemma Doubled(q: nat, m: nat, n: nat)
    requires n == 2 * m
    ensures q * n == 2 * (q * m)
  {
  }

  lemma SampleShows(was: seq<nat>, w: nat, value: nat, y: nat, at: nat, i: nat)
    requires 256 <= w && (at + 3) * w <= |was| && i < 32
    requires y <= at + 2 < y + BOX_HEIGHT
    ensures Sample(Burned(was, w, y, value), w, at, i) == BitSet(value, 31 - i)
  {
    var k := (at + 2) * w + 8 * i + 5;
    InLine(w, at + 2, 8 * i + 5);
    assert (8 * i + 5) / 8 == i && (8 * i + 5) % 4 == 1;
    assert Burned(was, w, y, value)[k] == Colouring(BitSet(value, 31 - i))[1];
  }

  /** Whatever was in the frame, a value is read back from any line whose sample lies in its boxes. */
  lemma BurnedReadsBack(was: seq<nat>, w: nat, value: nat, y: nat, at: nat)
    requires value < 0x1_0000_0000 && 256 <= w && (at + 3) * w <= |was|
    requires y <= at + 2 < y + BOX_HEIGHT
    ensures FromBits(Samples(Burned(was, w, y, value), w, at)) == value
  {
    var all := Samples(Burned(was, w, y, value), w, at);
    forall i | 0 <= i < 32 ensures all[i] == ToBits(value, 32)[i] {
      SampleShows(was, w, value, y, at, i);
      ToBitsAt(value, 32, i);
    }
    assert all == ToBits(value, 32);
    Pow2Values();
    FromToBits(value, 32);
  }

  /** A value burned elsewhere does not disturb it. */
  lemma BurnedElsewhere(was: seq<nat>, w: nat, value: nat, y: nat, at: nat)
    requires 256 <= w && (at + 3) * w <= |was|
    requires at + 2 < y || y + BOX_HEIGHT <= at + 2
    ensures Samples(Burned(was, w, y, value), w, at) == Samples(was, w, at)
  {
    var f := Burned(was, w, y, value);
    forall i | 0 <= i < 32 ensures Samples(f, w, at)[i] == Samples(was, w, at)[i] {
      InLine(w, at + 2, 8 * i + 5);
    }
  }

  /** The boxes cover twelve lines by 256 words, white for a set bit and black for a clear one, and nothing else
      changes. */
  lemma OnlyBoxesChange(was: seq<nat>, w: nat, value: nat, y: nat, row: nat, col: nat)
    requires 256 <= w && col < w && row * w + col < |was|
    ensures var k := row * w + col;
            if y <= row < y + 12 && col < 256
            then Burned(was, w, y, value)[k]
              == if BitSet(value, 31 - col / 8) then if col % 2 == 0 then 0x200f_fe00 else 0x3ff8_03ff
                 else if col % 2 == 0 then 0x2000_0200 else 0x0008_0000
            else Burned(was, w, y, value)[k] == was[k]
  {
    InLine(w, row, col);
  }

  /** The i-th bit read, from the top, says whether the ten low bits of the second word of the i-th box's second
      half, two lines down, are above 128. */
  lemma ReadBits(frame: seq<nat>, w: nat, y: nat, i: nat, k: nat)
    requires i < 32 && 256 <= w && (y + 3) * w <= |frame| && k == (y + 2) * w + 8 * i + 5
    ensures k < |frame| && (BitSet(FromBits(Samples(frame, w, y)), 31 - i) <==> frame[k] % 1024 > 128)
  {
    var b := Samples(frame, w, y);
    InLine(w, y + 2, 8 * i + 5);
    ToBitsAt(FromBits(b), 32, i);
    ToFromBits(b);
  }
}
