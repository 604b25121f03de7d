/** The two SMPTE 337 burst detectors: the chunk list of input/sdi/smpte337_detector2.c and the
    flat byte buffer of input/sdi/smpte337_detector.c. */
module Smpte337 {
  import opened Bits
  import opened Sequences

  const PEEK_LEN := 16
  const ITEM_SIZE := 16384

  // ----- one flat scan, the specification of both detectors

  /** One byte of the stream, with a presentation time. */
  datatype Cell = Cell(byte: Byte, pts: int)

  datatype Burst = Burst(mode: nat, kind: nat, bitCount: nat, payload: seq<Byte>)

  datatype Callback = Callback(burst: Burst, pts: int)

  datatype Scan = Scan(bursts: seq<Burst>, rest: seq<Byte>)

  datatype TimedScan = TimedScan(callbacks: seq<Callback>, rest: seq<Cell>)

  /** What the first 16 bytes say: the preamble words and the AC-3 data type (table 6 of SMPTE 337M). */
  predicate StartsBurst(b: seq<Byte>)
    requires |b| >= PEEK_LEN
  {
    b[0] == 0xf8 && b[1] == 0x72 && b[2] == 0x4e && b[3] == 0x1f && b[5] % 32 == 1
  }

  function BitCount(b: seq<Byte>): nat
    requires |b| >= PEEK_LEN
  {
    b[6] as int * 0x100 + b[7]
  }

  /** The preamble and the payload, in bytes. */
  function BurstLength(b: seq<Byte>): nat
    requires |b| >= PEEK_LEN
  {
    8 + BitCount(b) / 8
  }

  function BurstAt(b: seq<Byte>): Burst
    requires |b| >= PEEK_LEN && |b| >= BurstLength(b)
  {
    Burst(b[5] / 32 % 4, b[5] % 32, BitCount(b), b[8..BurstLength(b)])
  }

  /** Consume whole bursts and skip other bytes, until too little is left to decide. */
  function ScanBytes(b: seq<Byte>): Scan {
    if |b| < PEEK_LEN then Scan([], b)
    else if !StartsBurst(b) then ScanBytes(b[1..])
    else if |b| < BurstLength(b) then Scan([], b)
    else
      var s := ScanBytes(b[BurstLength(b)..]);
      Scan([BurstAt(b)] + s.bursts, s.rest)
  }

  function Bytes(c: seq<Cell>): (b: seq<Byte>)
    ensures |b| == |c|
  {
    seq(|c|, i requires 0 <= i < |c| => c[i].byte)
  }

  /** The same scan, each burst with the time of its first byte. */
  function ScanCells(c: seq<Cell>): TimedScan {
    if |c| < PEEK_LEN then TimedScan([], c)
    else if !StartsBurst(Bytes(c)) then ScanCells(c[1..])
    else if |c| < BurstLength(Bytes(c)) then TimedScan([], c)
    else
      var s := ScanCells(c[BurstLength(Bytes(c))..]);
      TimedScan([Callback(BurstAt(Bytes(c)), c[0].pts)] + s.callbacks, s.rest)
  }

  function Bursts(cs: seq<Callback>): (bs: seq<Burst>)
    ensures |bs| == |cs|
  {
    seq(|cs|, i requires 0 <= i < |cs| => cs[i].burst)
  }

  /** The bursts found depend on the bytes alone. */
  lemma {:induction false} TimesDoNotMatter(c: seq<Cell>)
    ensures Bursts(ScanCells(c).callbacks) == ScanBytes(Bytes(c)).bursts
    ensures Bytes(ScanCells(c).rest) == ScanBytes(Bytes(c)).rest
  {
    if |c| < PEEK_LEN {
    } else if !StartsBurst(Bytes(c)) {
      TimesDoNotMatter(c[1..]);
      assert Bytes(c[1..]) == Bytes(c)[1..];
    } else if |c| >= BurstLength(Bytes(c)) {
      var n := BurstLength(Bytes(c));
      TimesDoNotMatter(c[n..]);
      assert Bytes(c[n..]) == Bytes(c)[n..];
      BurstsConcat([Callback(BurstAt(Bytes(c)), c[0].pts)], ScanCells(c[n..]).callbacks);
    }
  }

  lemma BurstsConcat(x: seq<Callback>, y: seq<Callback>)
    ensures Bursts(x + y) == Bursts(x) + Bursts(y)
  {
  }

  /** Scanning what is left of a first part together with a second part is scanning both at once. */
  lemma {:induction false} ScanResumes(a: seq<Cell>, b: seq<Cell>)
    ensures var s := ScanCells(a); var t := ScanCells(s.rest + b);
            ScanCells(a + b) == TimedScan(s.callbacks + t.callbacks, t.rest)
  {
    if |a| >= PEEK_LEN {
      SameDecision(a, b);
      if !StartsBurst(Bytes(a)) {
        ScanResumes(a[1..], b);
        assert (a + b)[1..] == a[1..] + b;
      } else if |a| >= BurstLength(Bytes(a)) {
        var n := BurstLength(Bytes(a));
        var rest := ScanCells(a[n..]);
        ScanResumes(a[n..], b);
        assert (a + b)[n..] == a[n..] + b;
        AppendAssoc([Callback(BurstAt(Bytes(a)), a[0].pts)], rest.callbacks, ScanCells(rest.rest + b).callbacks);
      }
    }
  }

  /** What the first bytes say is not changed by bytes that follow. */
  lemma SameDecision(a: seq<Cell>, b: seq<Cell>)
    requires |a| >= PEEK_LEN
    ensures StartsBurst(Bytes(a + b)) <==> StartsBurst(Bytes(a))
    ensures BurstLength(Bytes(a + b)) == BurstLength(Bytes(a))
    ensures |a| >= BurstLength(Bytes(a)) ==> BurstAt(Bytes(a + b)) == BurstAt(Bytes(a))
  {
    assert Bytes(a + b) == Bytes(a) + Bytes(b);
  }

  /** The same for the flat scan. */
  lemma ScanBytesResumes(a: seq<Byte>, b: seq<Byte>)
    ensures var s := ScanBytes(a); var t := ScanBytes(s.rest + b);
            ScanBytes(a + b) == Scan(s.bursts + t.bursts, t.rest)
  {
    var c, d := Untimed(a), Untimed(b);
    var s := ScanCells(c);
    ScanResumes(c, d);
    assert Bytes(c + d) == a + b && Bytes(s.rest + d) == Bytes(s.rest) + b;
    TimesDoNotMatter(c);
    TimesDoNotMatter(c + d);
    TimesDoNotMatter(s.rest + d);
    BurstsConcat(s.callbacks, ScanCells(s.rest + d).callbacks);
  }

  function Untimed(b: seq<Byte>): (c: seq<Cell>)
    ensures Bytes(c) == b
  {
    seq(|b|, i requires 0 <= i < |b| => Cell(b[i], 0))
  }

  // ----- the chunk list

  /** A list item: the bytes of one write, its time, and how many bytes have been read. */
  datatype Chunk = Chunk(pts: int, bytes: seq<Byte>, readpos: nat)

  type Item = c: Chunk | c.readpos <= |c.bytes| witness Chunk(0, [], 0)

  function Left(e: Item): nat {
    |e.bytes| - e.readpos
  }

  /** `av_rescale_q(n, 1/48000, 1/OBE_CLOCK)`: 562.5 ticks an audio frame, rounded to nearest. */
  function FrameOffset(n: nat): int {
    (n * 1125 + 1) / 2
  }

  /** The offset the detector adds for a burst that starts at `readpos`: it takes an audio frame to be
      four bytes, which is so for two channels of 16 bits. */
  function SampleOffset(readpos: nat): int {
    FrameOffset(readpos / 4)
  }

  /** The bytes not read yet, each with the time the detector would give a burst that starts there. */
  function Cells(e: Item): (c: seq<Cell>)
    ensures |c| == Left(e)
  {
    seq(Left(e), i requires 0 <= i < Left(e) => Cell(e.bytes[e.readpos + i], e.pts + SampleOffset(e.readpos + i)))
  }

  /** The list as one flat stream. */
  function Flat(items: seq<Item>): seq<Cell> {
    if items == [] then [] else Cells(items[0]) + Flat(items[1..])
  }

  function TotalLeft(items: seq<Item>): nat {
    if items == [] then 0 else Left(items[0]) + TotalLeft(items[1..])
  }

  /** The list after n bytes have been consumed from it. A chunk goes once it is used up, so a chunk
      without bytes goes only when a read passes over it. */
  function Consumed(items: seq<Item>, n: nat): seq<Item> {
    if items == [] then []
    else if Left(items[0]) < n then Consumed(items[1..], n - Left(items[0]))
    else if Left(items[0]) == n then items[1..]
    else [items[0].(readpos := items[0].readpos + n)] + items[1..]
  }

  lemma {:induction false} FlatLength(items: seq<Item>)
    ensures |Flat(items)| == TotalLeft(items)
  {
    if items != [] {
      FlatLength(items[1..]);
    }
  }

  lemma {:induction false} FlatSnoc(items: seq<Item>, c: Item)
    ensures Flat(items + [c]) == Flat(items) + Cells(c)
    ensures TotalLeft(items + [c]) == TotalLeft(items) + Left(c)
  {
    if items == [] {
      assert items + [c] == [c] && Cells(c) + [] == Cells(c);
    } else {
      FlatSnoc(items[1..], c);
      assert (items + [c])[1..] == items[1..] + [c];
      AppendAssoc(Cells(items[0]), Flat(items[1..]), Cells(c));
    }
  }

  /** Consuming from the list is dropping from the stream. */
  lemma {:induction false} ConsumedDrops(items: seq<Item>, n: nat)
    requires n <= TotalLeft(items)
    ensures |Flat(items)| == TotalLeft(items)
    ensures Flat(Consumed(items, n)) == Flat(items)[n..]
    ensures TotalLeft(Consumed(items, n)) == TotalLeft(items) - n
  {
    FlatLength(items);
    if items != [] {
      var e := items[0];
      FlatLength(items[1..]);
      if Left(e) < n {
        ConsumedDrops(items[1..], n - Left(e));
      } else if Left(e) > n {
        var f: Item := e.(readpos := e.readpos + n);
        assert Consumed(items, n)[0] == f && Consumed(items, n)[1..] == items[1..];
        assert Cells(f) == Cells(e)[n..];
      }
    }
  }

  /** Copying from a chunk continues the stream where the chunks before it ended. */
  lemma PartOfStream(done: seq<Cell>, e: Item, more: seq<Cell>, n: nat)
    requires n <= Left(e)
    ensures Bytes(done) + e.bytes[e.readpos..e.readpos + n] <= Bytes(done + (Cells(e) + more))
    ensures n == Left(e) ==> Bytes(done) + e.bytes[e.readpos..e.readpos + n] == Bytes(done + Cells(e))
    ensures done + Cells(e) + more == done + (Cells(e) + more)
  {
  }

  lemma BytesPrefix(a: seq<Cell>, b: seq<Cell>)
    ensures Bytes(a) <= Bytes(a + b)
  {
  }

  // ----- the scan on the list

  datatype ListScan = ListScan(callbacks: seq<Callback>, items: seq<Item>)

  /** The time the detector gives a burst that starts at the head of the list. */
  function HeadTime(items: seq<Item>): int
    requires items != []
  {
    items[0].pts + SampleOffset(items[0].readpos)
  }

  function ScanList(items: seq<Item>): ListScan
    decreases TotalLeft(items)
  {
    FlatLength(items);
    var b := Bytes(Flat(items));
    if |b| < PEEK_LEN then ListScan([], items)
    else if !StartsBurst(b) then
      ConsumedDrops(items, 1);
      ScanList(Consumed(items, 1))
    else if |b| < BurstLength(b) then ListScan([], items)
    else
      ConsumedDrops(items, BurstLength(b));
      var s := ScanList(Consumed(items, BurstLength(b)));
      ListScan([Callback(BurstAt(b), HeadTime(items))] + s.callbacks, s.items)
  }

  lemma ScanTakes(items: seq<Item>)
    requires |Flat(items)| >= PEEK_LEN && StartsBurst(Bytes(Flat(items)))
    requires |Flat(items)| >= BurstLength(Bytes(Flat(items)))
    ensures var b := Bytes(Flat(items));
            var next := Consumed(items, BurstLength(b));
            && items != [] && TotalLeft(next) < TotalLeft(items) && ScanList(items).items == ScanList(next).items
            && ScanList(items).callbacks == [Callback(BurstAt(b), HeadTime(items))] + ScanList(next).callbacks
  {
    FlatLength(items);
    ConsumedDrops(items, BurstLength(Bytes(Flat(items))));
  }

  lemma ScanStops(items: seq<Item>)
    requires |Flat(items)| < PEEK_LEN
             || (StartsBurst(Bytes(Flat(items))) && |Flat(items)| < BurstLength(Bytes(Flat(items))))
    ensures ScanList(items) == ListScan([], items)
  {
  }

  lemma ScanSkips(items: seq<Item>)
    requires |Flat(items)| >= PEEK_LEN && !StartsBurst(Bytes(Flat(items)))
    ensures TotalLeft(Consumed(items, 1)) < TotalLeft(items) && ScanList(items) == ScanList(Consumed(items, 1))
    ensures ScanList(items).callbacks == [] + ScanList(items).callbacks
  {
    FlatLength(items);
    ConsumedDrops(items, 1);
  }

  /** The list scan finds the bursts of the flat stream and leaves its unread bytes. */
  lemma {:induction false} ListScanIsFlatScan(items: seq<Item>)
    ensures Bursts(ScanList(items).callbacks) == ScanBytes(Bytes(Flat(items))).bursts
    ensures Bytes(Flat(ScanList(items).items)) == ScanBytes(Bytes(Flat(items))).rest
    decreases TotalLeft(items)
  {
    FlatLength(items);
    var b := Bytes(Flat(items));
    if |b| < PEEK_LEN {
    } else if !StartsBurst(b) {
      ConsumedDrops(items, 1);
      ScanSkips(items);
      BytesDrop(Flat(items), 1);
      ListScanIsFlatScan(Consumed(items, 1));
    } else if |b| >= BurstLength(b) {
      var n := BurstLength(b);
      ConsumedDrops(items, n);
      ScanTakes(items);
      BytesDrop(Flat(items), n);
      ListScanIsFlatScan(Consumed(items, n));
      BurstsConcat([Callback(BurstAt(b), HeadTime(items))], ScanList(Consumed(items, n)).callbacks);
    }
  }

  lemma BytesDrop(c: seq<Cell>, n: nat)
    requires n <= |c|
    ensures Bytes(c[n..]) == Bytes(c)[n..]
  {
  }

  /** The first chunk that holds a byte. */
  function FirstNonEmpty(items: seq<Item>): Item
    requires TotalLeft(items) > 0
  {
    if Left(items[0]) > 0 then items[0] else FirstNonEmpty(items[1..])
  }

  /** The time given to a burst is that of its first byte exactly when the head of the list is not
      an empty chunk with a time of its own. */
  lemma {:induction false} HeadTimeExact(items: seq<Item>)
    requires TotalLeft(items) > 0
    ensures items != [] && Flat(items) != []
    ensures Flat(items)[0].pts == HeadTime([FirstNonEmpty(items)])
    ensures HeadTime(items) == Flat(items)[0].pts
            <==> Left(items[0]) > 0 || HeadTime(items) == HeadTime([FirstNonEmpty(items)])
  {
    FlatLength(items);
    if Left(items[0]) == 0 {
      assert Flat(items) == Flat(items[1..]);
      HeadTimeExact(items[1..]);
    } else {
      assert Flat(items)[0] == Cells(items[0])[0];
    }
  }

  datatype Buffer = NoBuffer | Buffer(bytes: seq<Byte>)

  class Detector {
    var items: seq<Item>
    var totalBytes: int
    var callbacks: seq<Callback>

    /** The byte counter agrees with the list, whatever has been written and read. */
    ghost predicate Valid()
      reads this
    {
      totalBytes == TotalLeft(items)
    }

    constructor ()
      ensures Valid() && items == [] && callbacks == []
    {
      items, totalBytes, callbacks := [], 0, [];
    }

    /** `_list_peek`: copy up to n bytes across chunks and, on request, consume them. The time and
        the read position returned are those of the first chunk looked at. */
    method Peek(n: nat, update: bool) returns (buf: seq<Byte>, pts: int, readpos: nat)
      requires Valid() && n > 0
      modifies this`items, this`totalBytes
      ensures Valid()
      ensures |buf| == (if n <= TotalLeft(old(items)) then n else TotalLeft(old(items)))
      ensures buf <= Bytes(Flat(old(items)))
      ensures old(items) != [] ==> pts == old(items)[0].pts && readpos == old(items)[0].readpos
      ensures items == if update then Consumed(old(items), n) else old(items)
    {
      hide SampleOffset, FrameOffset, Bytes;
      buf, pts, readpos := [], 0, 0;
      ghost var orig, k, done := items, 0, [];
      if items == [] {
        return;
      }
      pts, readpos := items[0].pts, items[0].readpos;
      var i := 0;
      while i < |items|
        invariant k <= |orig| && i == (if update then 0 else k)
        invariant items == if update then orig[k..] else orig
        invariant |buf| < n && buf == Bytes(done) && Flat(orig) == done + Flat(orig[k..])
        invariant TotalLeft(orig) == |buf| + TotalLeft(orig[k..])
        invariant Consumed(orig, n) == Consumed(orig[k..], n - |buf|)
        invariant totalBytes == TotalLeft(items)
        decreases |orig| - k
      {
        var rem := n - |buf|;
        var e := items[i];
        assert e == orig[k..][0] && orig[k..][1..] == orig[k + 1..];
        if |e.bytes| - e.readpos >= rem {
          PartOfStream(done, e, Flat(orig[k + 1..]), rem);
          buf := buf + e.bytes[e.readpos..e.readpos + rem];
          if update {
            e := e.(readpos := e.readpos + rem);
            totalBytes := totalBytes - rem;
            assert totalBytes >= 0;
            items := if e.readpos == |e.bytes| then items[1..] else [e] + items[1..];
          }
          return;
        }
        rem := |e.bytes| - e.readpos;
        PartOfStream(done, e, Flat(orig[k + 1..]), rem);
        buf := buf + e.bytes[e.readpos..e.readpos + rem];
        done := done + Cells(e);
        k := k + 1;
        if update {
          totalBytes := totalBytes - rem;
          assert totalBytes >= 0;
          items := items[1..];
        } else {
          i := i + 1;
        }
      }
      BytesPrefix(done, Flat(orig[k..]));
    }

    /** `_list_discard`. */
    method Discard(n: nat)
      requires Valid() && 0 < n <= 128
      modifies this`items, this`totalBytes
      ensures Valid() && items == Consumed(old(items), n)
    {
      var _, _, _ := Peek(n, true);
    }

    /** `run_detector`. */
    method RunDetector()
      requires Valid()
      modifies this
      ensures Valid()
      ensures items == ScanList(old(items)).items
      ensures callbacks == old(callbacks) + ScanList(old(items)).callbacks
    {
      ghost var orig, before, called := items, callbacks, [];
      var dat, pts, readpos := Peek(PEEK_LEN, false);
      FlatLength(items);
      if |dat| < PEEK_LEN {
        return;
      }
      var more := true;
      while more
        invariant Valid()
        invariant ScanList(orig).items == ScanList(items).items
        invariant callbacks == before + called && ScanList(orig).callbacks == called + ScanList(items).callbacks
        invariant !more ==> ScanList(items) == ListScan([], items)
        decreases more, totalBytes
      {
        ghost var found;
        more, found := Step();
        AppendAssoc(before, called, found);
        AppendAssoc(called, found, ScanList(items).callbacks);
        called := called + found;
      }
    }

    /** One round of the scanning loop; it tells whether the loop goes on. */
    method Step() returns (more: bool, ghost found: seq<Callback>)
      requires Valid()
      modifies this
      ensures Valid() && ScanList(items).items == ScanList(old(items)).items
      ensures callbacks == old(callbacks) + found && ScanList(old(items)).callbacks == found + ScanList(items).callbacks
      ensures more ==> 0 <= totalBytes < old(totalBytes)
      ensures !more ==> ScanList(items) == ListScan([], items)
    {
      found := [];
      FlatLength(items);
      if totalBytes < PEEK_LEN {
        ScanStops(items);
        return false, found;
      }
      var dat := PeekHeader();
      if |dat| < PEEK_LEN {
        ScanStops(items);
        return false, found;
      }
      if StartsBurst(dat) {
        var bitCount := dat[6] as int * 0x100 + dat[7];
        var byteCount := bitCount / 8;
        if totalBytes < 8 + byteCount {
          ScanStops(items);
          return false, found;
        }
        found := TakeAndScan(dat, bitCount, byteCount);
      } else {
        ScanSkips(items);
        Discard(1);
      }
      return true, found;
    }

    method TakeAndScan(dat: seq<Byte>, bitCount: nat, byteCount: nat) returns (ghost found: seq<Callback>)
      requires Valid() && |dat| == PEEK_LEN && StartsBurst(dat)
      requires bitCount == BitCount(dat) && byteCount == bitCount / 8 && TotalLeft(items) >= 8 + byteCount
      requires |Flat(items)| >= PEEK_LEN && dat <= Bytes(Flat(items))
      modifies this
      ensures Valid() && 0 <= totalBytes < old(totalBytes)
      ensures ScanList(items).items == ScanList(old(items)).items
      ensures callbacks == old(callbacks) + found && ScanList(old(items)).callbacks == found + ScanList(items).callbacks
    {
      FlatLength(items);
      SameStart(dat, Bytes(Flat(items)));
      ScanTakes(items);
      found := [Callback(BurstAt(Bytes(Flat(items))), HeadTime(items))];
      TakeBurst(dat, bitCount, byteCount);
    }

    /** The look at the next 16 bytes, which says what the stream says there. */
    method PeekHeader() returns (dat: seq<Byte>)
      requires Valid()
      modifies this`items, this`totalBytes
      ensures Valid() && items == old(items) && totalBytes == old(totalBytes)
      ensures |dat| <= PEEK_LEN && |Flat(items)| == TotalLeft(items)
      ensures |dat| < PEEK_LEN <==> TotalLeft(items) < PEEK_LEN
      ensures |dat| == PEEK_LEN ==>
                dat <= Bytes(Flat(items)) && StartsBurst(dat) == StartsBurst(Bytes(Flat(items)))
                && BurstLength(dat) == BurstLength(Bytes(Flat(items)))
    {
      FlatLength(items);
      var pts, readpos;
      dat, pts, readpos := Peek(PEEK_LEN, false);
      if |dat| == PEEK_LEN {
        SameStart(dat, Bytes(Flat(items)));
      }
    }

    /** `_list_read_alloc` and the callback; the read is never short, so the list is never emptied. */
    method TakeBurst(dat: seq<Byte>, bitCount: nat, byteCount: nat)
      requires Valid() && |dat| == PEEK_LEN && StartsBurst(dat)
      requires bitCount == BitCount(dat) && byteCount == bitCount / 8 && TotalLeft(items) >= 8 + byteCount
      requires |Flat(items)| >= PEEK_LEN && dat <= Bytes(Flat(items))
      modifies this
      ensures Valid()
      ensures |Flat(old(items))| >= BurstLength(Bytes(Flat(old(items)))) == 8 + byteCount
      ensures items == Consumed(old(items), 8 + byteCount)
      ensures callbacks == old(callbacks) + [Callback(BurstAt(Bytes(Flat(old(items)))), HeadTime(old(items)))]
    {
      FlatLength(items);
      ghost var b := Bytes(Flat(items));
      SameStart(dat, b);
      var payload, pts, readpos := Peek(8 + byteCount, true);
      if |payload| != 8 + byteCount {
        assert false;
      } else {
        assert payload[8..] == b[8..BurstLength(b)];
        pts := pts + SampleOffset(readpos);
        callbacks := callbacks + [Callback(Burst(dat[5] / 32 % 4, dat[5] % 32, bitCount, payload[8..]), pts)];
      }
    }

    /** `smpte337_detector2_write`: append one chunk and scan. 16-bit samples are not packed at all,
        so such a write appends a chunk without bytes. */
    method Write(buf: Buffer, frames: nat, depth: nat, channels: nat, stride: nat, span: nat, pts: int)
      returns (ret: nat)
      requires Valid()
      requires Accepts(buf, frames, depth, channels, stride, span) && depth == 32 ==>
                 Covers(|buf.bytes|, 0, frames, 4 * span, 4 * (stride / 4))
                 && AssertionHolds(|Packed32(buf.bytes, 0, frames, span, stride / 4)|)
      modifies this
      ensures Valid()
      ensures buf.NoBuffer? || frames == 0 || channels == 0 || stride == 0 || (depth != 16 && depth != 32)
              || span == 0 || span > channels ==>
                ret == 0 && items == old(items) && callbacks == old(callbacks)
      ensures Accepts(buf, frames, depth, channels, stride, span) ==>
                var c := Chunk(pts, if depth == 32 then Packed32(buf.bytes, 0, frames, span, stride / 4) else [], 0);
                var s := ScanList(old(items) + [c]);
                ret == |c.bytes| && items == s.items && callbacks == old(callbacks) + s.callbacks
    {
      hide Packed32, Covers, ScanList, Bytes;
      if buf.NoBuffer? || frames == 0 || channels == 0 || stride == 0 || (depth != 16 && depth != 32)
         || span == 0 || span > channels {
        return 0;
      }
      var item: Item := Chunk(pts, [], 0);
      if depth == 32 {
        var bytes, aborted := Pack32(buf.bytes, frames, span, stride);
        assert !aborted;
        item := item.(bytes := bytes);
      }
      ret := |item.bytes|;
      FlatSnoc(items, item);
      items := items + [item];
      totalBytes := totalBytes + |item.bytes|;
      RunDetector();
    }
  }

  /** The parameter checks shared by both detectors. */
  predicate Accepts(buf: Buffer, frames: nat, depth: nat, channels: nat, stride: nat, span: nat) {
    buf.Buffer? && frames > 0 && channels > 0 && stride > 0 && (depth == 16 || depth == 32) && 0 < span <= channels
  }

  // ----- packing samples into bytes

  /** Every frame's samples, `size` bytes a frame and `stride` bytes apart, lie inside the buffer. */
  predicate Covers(length: nat, base: nat, frames: nat, size: nat, stride: nat)
    decreases frames
  {
    frames == 0 || (base + size <= length && Covers(length, base + stride, frames - 1, size, stride))
  }

  /** The top 16 bits of each of the frame's 32-bit little-endian words, high byte first. */
  function Frame32(buf: seq<Byte>, base: nat, span: nat): (b: seq<Byte>)
    requires 4 * (base + span) <= |buf|
    ensures |b| == 2 * span
  {
    if span == 0 then []
    else Frame32(buf, base, span - 1) + [buf[4 * (base + span - 1) + 3], buf[4 * (base + span - 1) + 2]]
  }

  function Packed32(buf: seq<Byte>, base: nat, frames: nat, span: nat, stride: nat): seq<Byte>
    requires Covers(|buf|, 4 * base, frames, 4 * span, 4 * stride)
    decreases frames
  {
    if frames == 0 then [] else Frame32(buf, base, span) + Packed32(buf, base + stride, frames - 1, span, stride)
  }

  /** `assert(usedlen <= maxlen)` stands before each store of two bytes, so the last one may end two bytes
      past the size of an item. */
  predicate AssertionHolds(length: nat) {
    length <= ITEM_SIZE + 2
  }

  /** `smpte337_detector2_write_32b`: the bytes it stores, all of them unless the assertion fails. */
  method Pack32(buf: seq<Byte>, frames: nat, span: nat, stride: nat) returns (dst: seq<Byte>, aborted: bool)
    requires Covers(|buf|, 0, frames, 4 * span, 4 * (stride / 4))
    ensures var all := Packed32(buf, 0, frames, span, stride / 4);
            aborted == (|all| > 16386) && dst == if aborted then all[..16386] else all
  {
    dst, aborted := PackFrames(buf, frames, span, stride / 4);
  }

  method PackFrames(buf: seq<Byte>, frames: nat, span: nat, w: nat) returns (dst: seq<Byte>, aborted: bool)
    requires Covers(|buf|, 0, frames, 4 * span, 4 * w)
    ensures var all := Packed32(buf, 0, frames, span, w);
            aborted == !AssertionHolds(|all|) && dst == if aborted then all[..ITEM_SIZE + 2] else all
  {
    hide Packed32, Covers;
    dst, aborted := [], false;
    var p: nat := 0;
    ghost var all := Packed32(buf, 0, frames, span, w);
    ghost var left := frames;
    for i := 0 to frames
      invariant left == frames - i && Covers(|buf|, 4 * p, left, 4 * span, 4 * w)
      invariant !aborted && |dst| <= ITEM_SIZE + 2 && |dst| % 2 == 0
      invariant all == dst + Packed32(buf, p, left, span, w)
    {
      NextFrame(buf, p, left, span, w, dst);
      left := left - 1;
      dst, aborted := PackFrame(buf, p, span, dst);
      p := p + w;
      if aborted {
        return;
      }
    }
    NoFrames(buf, p, span, w);
  }

  lemma NoFrames(buf: seq<Byte>, p: nat, span: nat, w: nat)
    ensures Covers(|buf|, 4 * p, 0, 4 * span, 4 * w) && Packed32(buf, p, 0, span, w) == []
  {
  }

  lemma NextFrame(buf: seq<Byte>, p: nat, n: nat, span: nat, w: nat, dst: seq<Byte>)
    requires 0 < n && Covers(|buf|, 4 * p, n, 4 * span, 4 * w)
    ensures 4 * (p + span) <= |buf| && Covers(|buf|, 4 * (p + w), n - 1, 4 * span, 4 * w)
    ensures dst + Packed32(buf, p, n, span, w) == dst + Frame32(buf, p, span) + Packed32(buf, p + w, n - 1, span, w)
  {
    assert 4 * (p + w) == 4 * p + 4 * w;
    AppendAssoc(dst, Frame32(buf, p, span), Packed32(buf, p + w, n - 1, span, w));
  }

  /** The inner loop, which stops where the assertion fails. */
  method PackFrame(buf: seq<Byte>, p: nat, span: nat, item: seq<Byte>) returns (dst: seq<Byte>, aborted: bool)
    requires 4 * (p + span) <= |buf| && |item| <= ITEM_SIZE + 2 && |item| % 2 == 0
    ensures var all := item + Frame32(buf, p, span);
            aborted == !AssertionHolds(|all|) && dst == if aborted then all[..ITEM_SIZE + 2] else all
  {
    dst, aborted := item, false;
    for k: nat := 0 to span
      invariant dst == item + Frame32(buf, p, k) && |dst| <= ITEM_SIZE + 2
    {
      if |dst| > ITEM_SIZE {
        FrameGrows(buf, p, k, span);
        aborted := true;
        return;
      }
      var x := 4 * (p + k);
      dst := dst + [buf[x + 3], buf[x + 2]];
    }
  }

  lemma {:induction false} FrameGrows(buf: seq<Byte>, p: nat, k: nat, span: nat)
    requires k <= span && 4 * (p + span) <= |buf|
    ensures Frame32(buf, p, k) <= Frame32(buf, p, span)
  {
    if k < span {
      FrameGrows(buf, p, k, span - 1);
    }
  }

  lemma SameStart(dat: seq<Byte>, b: seq<Byte>)
    requires |dat| == PEEK_LEN && dat <= b
    ensures StartsBurst(b) <==> StartsBurst(dat)
    ensures BitCount(b) == BitCount(dat) && b[5] == dat[5]
  {
    assert forall i :: 0 <= i < PEEK_LEN ==> b[i] == dat[i];
  }

  // ----- the flat detector

  class FlatDetector {
    var ring: seq<Byte>
    var bursts: seq<Burst>

    constructor ()
      ensures ring == [] && bursts == []
    {
      ring, bursts := [], [];
    }

    /** `run_detector` of smpte337_detector.c. */
    method RunDetector()
      modifies this
      ensures ring == ScanBytes(old(ring)).rest
      ensures bursts == old(bursts) + ScanBytes(old(ring)).bursts
    {
      ghost var all, called := ScanBytes(ring), [];
      while |ring| >= PEEK_LEN
        invariant all.rest == ScanBytes(ring).rest
        invariant bursts == old(bursts) + called && all.bursts == called + ScanBytes(ring).bursts
      {
        if StartsBurst(ring) {
          var bitCount := ring[6] as int * 0x100 + ring[7];
          var n := 8 + bitCount / 8;
          if |ring| < n {
            break;
          }
          ghost var found := [BurstAt(ring)];
          AppendAssoc(old(bursts), called, found);
          AppendAssoc(called, found, ScanBytes(ring[n..]).bursts);
          called := called + found;
          bursts := bursts + [Burst(ring[5] / 32 % 4, ring[5] % 32, bitCount, ring[8..n])];
          ring := ring[n..];
        } else {
          ring := ring[1..];
        }
      }
    }

    /** `smpte337_detector_write` once the samples have been packed. */
    method Append(bytes: seq<Byte>)
      modifies this
      ensures ring == ScanBytes(old(ring) + bytes).rest
      ensures bursts == old(bursts) + ScanBytes(old(ring) + bytes).bursts
    {
      ring := ring + bytes;
      RunDetector();
    }
  }
}
