/** The presentation times the chunk-list detector of input/sdi/smpte337_detector2.c gives to bursts, against
    the times of the audio frames they start in, over whole runs. */
module Smpte337Times {
  import opened Bits
  import opened Smpte337
  import opened Smpte337Runs

  /** When a burst starts at the head of the list, the time it is given is that of its first byte if
      and only if the head holds a byte or happens to have the same time. */
  lemma {:induction false} FirstTimeRightIff(items: seq<Item>)
    requires |Flat(items)| >= PEEK_LEN && StartsBurst(Bytes(Flat(items)))
    requires |Flat(items)| >= BurstLength(Bytes(Flat(items)))
    ensures ScanList(items).callbacks != [] && ScanCells(Flat(items)).callbacks != [] && TotalLeft(items) > 0
    ensures ScanList(items).callbacks[0].pts == ScanCells(Flat(items)).callbacks[0].pts
            <==> Left(items[0]) > 0 || HeadTime(items) == HeadTime([FirstNonEmpty(items)])
  {
    FlatLength(items);
    HeadTimeExact(items);
  }

  // ----- the times of a whole run

  /** At every burst the scan takes, the head of the list holds a byte or happens to have the time of the
      first chunk that does. */
  predicate HeadsTimed(items: seq<Item>)
    decreases TotalLeft(items)
  {
    FlatLength(items);
    var b := Bytes(Flat(items));
    if |b| < PEEK_LEN then true
    else if !StartsBurst(b) then
      ConsumedDrops(items, 1);
      HeadsTimed(Consumed(items, 1))
    else if |b| < BurstLength(b) then true
    else
      ConsumedDrops(items, BurstLength(b));
      (Left(items[0]) > 0 || HeadTime(items) == HeadTime([FirstNonEmpty(items)]))
      && HeadsTimed(Consumed(items, BurstLength(b)))
  }

  /** The bytes left keep the times they came with, empty chunks or not. */
  lemma {:induction false} ListRest(items: seq<Item>)
    ensures Flat(ScanList(items).items) == ScanCells(Flat(items)).rest
    ensures |ScanList(items).callbacks| == |ScanCells(Flat(items)).callbacks|
    decreases TotalLeft(items)
  {
    FlatLength(items);
    var b := Bytes(Flat(items));
    if |b| < PEEK_LEN {
    } else if !StartsBurst(b) {
      ConsumedDrops(items, 1);
      ListRest(Consumed(items, 1));
    } else if |b| >= BurstLength(b) {
      ConsumedDrops(items, BurstLength(b));
      ListRest(Consumed(items, BurstLength(b)));
    }
  }

  lemma SameCons(x: Callback, xs: seq<Callback>, y: Callback, ys: seq<Callback>)
    ensures [x] + xs == [y] + ys <==> x == y && xs == ys
  {
    if [x] + xs == [y] + ys {
      assert ([x] + xs)[0] == ([y] + ys)[0];
      assert ([x] + xs)[1..] == xs && ([y] + ys)[1..] == ys;
    }
  }

  /** The list scan gives every burst the time of its first byte exactly if all heads are timed. */
  lemma {:induction false} ListTimesIff(items: seq<Item>)
    ensures ScanList(items).callbacks == ScanCells(Flat(items)).callbacks <==> HeadsTimed(items)
    decreases TotalLeft(items)
  {
    FlatLength(items);
    var b := Bytes(Flat(items));
    if |b| < PEEK_LEN {
    } else if !StartsBurst(b) {
      ConsumedDrops(items, 1);
      ListTimesIff(Consumed(items, 1));
    } else if |b| >= BurstLength(b) {
      var n := BurstLength(b);
      ConsumedDrops(items, n);
      ScanTakes(items);
      ListTimesIff(Consumed(items, n));
      HeadTimeExact(items);
      SameCons(Callback(BurstAt(b), HeadTime(items)), ScanList(Consumed(items, n)).callbacks,
               Callback(BurstAt(b), Flat(items)[0].pts), ScanCells(Flat(Consumed(items, n))).callbacks);
    }
  }

  /** All heads are timed in every scan of a run. */
  predicate RunTimed(ws: seq<Item>) {
    ws != [] ==>
      var init, c := ws[..|ws| - 1], ws[|ws| - 1];
      RunTimed(init) && HeadsTimed(Run(init).items + [c])
  }

  lemma {:induction false} RunRest(ws: seq<Item>)
    ensures Flat(Run(ws).items) == ScanCells(Flat(ws)).rest
    ensures |Run(ws).callbacks| == |ScanCells(Flat(ws)).callbacks|
  {
    if ws != [] {
      var init, c := ws[..|ws| - 1], ws[|ws| - 1];
      var s := Run(init);
      RunRest(init);
      ListRest(s.items + [c]);
      FlatSnoc(s.items, c);
      FlatSnoc(init, c);
      assert init + [c] == ws;
      ScanResumes(Flat(init), Cells(c));
    }
  }

  lemma SameParts(a: seq<Callback>, b: seq<Callback>, c: seq<Callback>, d: seq<Callback>)
    requires |a| == |c|
    ensures a + b == c + d <==> a == c && b == d
  {
    if a + b == c + d {
      assert a == (a + b)[..|a|] && c == (c + d)[..|c|];
      assert b == (a + b)[|a|..] && d == (c + d)[|c|..];
    }
  }

  /** Over a whole run every burst carries the time of its first byte if and only if all heads are timed. */
  lemma {:induction false} RunTimesIff(ws: seq<Item>)
    ensures Run(ws).callbacks == ScanCells(Flat(ws)).callbacks <==> RunTimed(ws)
  {
    if ws != [] {
      var init, c := ws[..|ws| - 1], ws[|ws| - 1];
      var s := Run(init);
      RunTimesIff(init);
      RunRest(init);
      ListTimesIff(s.items + [c]);
      FlatSnoc(s.items, c);
      FlatSnoc(init, c);
      assert init + [c] == ws;
      ScanResumes(Flat(init), Cells(c));
      SameParts(s.callbacks, ScanList(s.items + [c]).callbacks,
                ScanCells(Flat(init)).callbacks, ScanCells(Flat(s.items + [c])).callbacks);
    }
  }

  /** A 16-bit write appends an empty chunk; a burst that follows gets that chunk's time. */
  lemma EmptyChunkMisdates(empty: Item, full: Item)
    requires Left(empty) == 0 && Left(full) >= PEEK_LEN && HeadTime([empty, full]) != HeadTime([full])
    requires StartsBurst(Bytes(Cells(full))) && Left(full) >= BurstLength(Bytes(Cells(full)))
    ensures WrongTime([empty, full])
  {
    var items := [empty, full];
    AfterEmpty(empty, full);
    RunOfTwo(empty, full);
    FirstTimeRightIff(items);
    assert items[1..] == [full];
    assert FirstNonEmpty(items) == full;
  }

  lemma AfterEmpty(empty: Item, full: Item)
    requires Left(empty) == 0
    ensures Flat([empty, full]) == Cells(full) && Flat([empty]) == []
  {
    assert [empty, full][1..] == [full] && [full][1..] == [] && [empty][1..] == [];
    assert Flat([full]) == Cells(full) + [] == Cells(full);
  }

  lemma RunOfTwo(empty: Item, full: Item)
    requires Left(empty) == 0
    ensures Run([empty, full]) == ScanList([empty, full])
  {
    AfterEmpty(empty, full);
    ScanStops([empty]);
    RunSnoc([], empty);
    assert [] + [empty] == [empty];
    RunSnoc([empty], full);
    assert [empty] + [full] == [empty, full];
  }

  /** Such a run: the burst was written with the time 1000 and is reported with the time 0. */
  lemma EmptyChunkExample()
    ensures WrongTime([Chunk(0, [], 0), Chunk(1000, ExampleBurst(), 0)])
  {
    var empty, full: Item := Chunk(0, [], 0), Chunk(1000, ExampleBurst(), 0);
    WholeChunk(full);
    EmptyChunkMisdates(empty, full);
  }

  function ExampleBurst(): (b: seq<Byte>)
    ensures |b| == PEEK_LEN && StartsBurst(b) && BurstLength(b) == PEEK_LEN
  {
    [0xf8, 0x72, 0x4e, 0x1f, 0, 1, 0, 64, 0, 0, 0, 0, 0, 0, 0, 0]
  }

  /** The first burst of a run is reported with another time than its first byte's. */
  ghost predicate WrongTime(ws: seq<Item>) {
    Run(ws).callbacks != [] && ScanCells(Flat(ws)).callbacks != []
    && Run(ws).callbacks[0].pts != ScanCells(Flat(ws)).callbacks[0].pts
  }

  // ----- the chunks whose times decide

  function StartTime(e: Item): int {
    e.pts + SampleOffset(e.readpos)
  }

  /** Chunks i to j - 1 are a whole block of empty ones, and chunk j after them is not. */
  predicate Gap(items: seq<Item>, i: nat, j: nat)
    requires i < j < |items|
  {
    && Left(items[j]) > 0 && (forall k :: i <= k < j ==> Left(items[k]) == 0)
    && (i > 0 ==> Left(items[i - 1]) > 0)
  }

  /** Every block of empty chunks begins with the time of the chunk after it. */
  predicate GapsTimed(items: seq<Item>) {
    forall i, j :: 0 <= i < j < |items| && Gap(items, i, j) ==> StartTime(items[i]) == StartTime(items[j])
  }

  /** What is left of the chunks ws once k of them are gone, cut inside a chunk or after one that held bytes. */
  predicate TailOf(items: seq<Item>, ws: seq<Item>, k: nat) {
    && |items| + k == |ws|
    && (forall i :: 0 < i < |items| ==> items[i] == ws[k + i])
    && (items != [] ==> if Left(items[0]) > 0 then Left(ws[k]) > 0 else items[0] == ws[k])
    && (k > 0 && (items == [] || Left(items[0]) == 0) ==> Left(ws[k - 1]) > 0)
  }

  lemma TailTimed(items: seq<Item>, ws: seq<Item>, k: nat)
    requires TailOf(items, ws, k) && GapsTimed(ws)
    ensures GapsTimed(items)
  {
    forall i, j | 0 <= i < j < |items| && Gap(items, i, j)
      ensures StartTime(items[i]) == StartTime(items[j])
    {
      GapInTail(items, ws, k, i, j);
    }
  }

  lemma GapInTail(items: seq<Item>, ws: seq<Item>, k: nat, i: nat, j: nat)
    requires TailOf(items, ws, k) && i < j < |items| && Gap(items, i, j)
    ensures Gap(ws, k + i, k + j) && items[i] == ws[k + i] && items[j] == ws[k + j]
  {
    forall l | k + i <= l < k + j
      ensures Left(ws[l]) == 0
    {
      assert items[l - k] == ws[l];
    }
  }

  lemma TailOfTail(a: seq<Item>, b: seq<Item>, c: seq<Item>, k: nat, l: nat)
    requires TailOf(a, b, k) && TailOf(b, c, l)
    ensures TailOf(a, c, l + k)
  {
    assert forall i :: 0 < i < |a| ==> a[i] == c[l + k + i];
  }

  lemma TailSnoc(items: seq<Item>, ws: seq<Item>, k: nat, c: Item)
    requires TailOf(items, ws, k)
    ensures TailOf(items + [c], ws + [c], k)
  {
  }

  lemma {:induction false} ConsumedTail(items: seq<Item>, n: nat) returns (k: nat)
    requires 0 < n <= TotalLeft(items)
    ensures TailOf(Consumed(items, n), items, k)
    ensures k == 0 ==> Consumed(items, n) != [] && Left(Consumed(items, n)[0]) > 0
  {
    if Left(items[0]) < n {
      k := ConsumedTail(items[1..], n - Left(items[0]));
      k := k + 1;
    } else {
      k := if Left(items[0]) == n then 1 else 0;
    }
  }

  lemma {:induction false} ScanTail(items: seq<Item>) returns (k: nat)
    ensures TailOf(ScanList(items).items, items, k)
    decreases TotalLeft(items)
  {
    FlatLength(items);
    var b := Bytes(Flat(items));
    k := 0;
    if |b| >= PEEK_LEN && !StartsBurst(b) {
      k := RestTail(items, 1);
    } else if |b| >= PEEK_LEN && |b| >= BurstLength(b) {
      k := RestTail(items, BurstLength(b));
    }
  }

  lemma {:induction false} RestTail(items: seq<Item>, n: nat) returns (k: nat)
    requires 0 < n <= TotalLeft(items)
    ensures TailOf(ScanList(Consumed(items, n)).items, items, k)
    decreases TotalLeft(items), 0
  {
    ConsumedDrops(items, n);
    var next := Consumed(items, n);
    var l := ConsumedTail(items, n);
    k := ScanTail(next);
    TailOfTail(ScanList(next).items, next, items, k, l);
    k := l + k;
  }

  lemma {:induction false} RunTail(ws: seq<Item>) returns (k: nat)
    ensures TailOf(Run(ws).items, ws, k)
  {
    k := 0;
    if ws != [] {
      var init, c := ws[..|ws| - 1], ws[|ws| - 1];
      var items := Run(init).items;
      k := RunTail(init);
      TailSnoc(items, init, k, c);
      assert init + [c] == ws;
      var l := ScanTail(items + [c]);
      TailOfTail(Run(ws).items, items + [c], ws, l, k);
      k := k + l;
    }
  }

  lemma {:induction false} FirstNonEmptyAt(items: seq<Item>) returns (j: nat)
    requires TotalLeft(items) > 0
    ensures j < |items| && Left(items[j]) > 0 && (forall i :: 0 <= i < j ==> Left(items[i]) == 0)
    ensures FirstNonEmpty(items) == items[j]
  {
    j := 0;
    if Left(items[0]) == 0 {
      j := FirstNonEmptyAt(items[1..]);
      assert items[1..][j] == items[j + 1];
      j := j + 1;
    }
  }

  lemma GapHead(items: seq<Item>)
    requires GapsTimed(items) && TotalLeft(items) > 0
    ensures Left(items[0]) > 0 || HeadTime(items) == HeadTime([FirstNonEmpty(items)])
  {
    var j := FirstNonEmptyAt(items);
    if j > 0 {
      assert Gap(items, 0, j);
    }
  }

  lemma {:induction false} TimedHeads(items: seq<Item>)
    requires GapsTimed(items)
    ensures HeadsTimed(items)
    decreases TotalLeft(items)
  {
    FlatLength(items);
    var b := Bytes(Flat(items));
    if |b| >= PEEK_LEN && !StartsBurst(b) {
      var k := ConsumedTail(items, 1);
      ConsumedDrops(items, 1);
      TailTimed(Consumed(items, 1), items, k);
      TimedHeads(Consumed(items, 1));
    } else if |b| >= PEEK_LEN && |b| >= BurstLength(b) {
      var n := BurstLength(b);
      var k := ConsumedTail(items, n);
      ConsumedDrops(items, n);
      TailTimed(Consumed(items, n), items, k);
      TimedHeads(Consumed(items, n));
      GapHead(items);
    }
  }

  lemma {:induction false} TimedRun(ws: seq<Item>)
    requires GapsTimed(ws)
    ensures RunTimed(ws)
  {
    if ws != [] {
      var init, c := ws[..|ws| - 1], ws[|ws| - 1];
      assert init + [c] == ws;
      PrefixTimed(init, ws);
      TimedRun(init);
      TimedWrite(init, c);
    }
  }

  lemma TimedWrite(init: seq<Item>, c: Item)
    requires GapsTimed(init + [c])
    ensures HeadsTimed(Run(init).items + [c])
  {
    hide Run, HeadsTimed, GapsTimed, TailOf;
    var k := RunTail(init);
    TailSnoc(Run(init).items, init, k, c);
    TailTimed(Run(init).items + [c], init + [c], k);
    TimedHeads(Run(init).items + [c]);
  }

  lemma PrefixTimed(vs: seq<Item>, ws: seq<Item>)
    requires vs <= ws && GapsTimed(ws)
    ensures GapsTimed(vs)
  {
    forall i, j | 0 <= i < j < |vs| && Gap(vs, i, j)
      ensures StartTime(vs[i]) == StartTime(vs[j])
    {
      assert Gap(ws, i, j);
    }
  }
}
