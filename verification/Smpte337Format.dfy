/** What the scans of Smpte337 find, in terms of the bytes of the stream: bursts laid out as in SMPTE 337M,
    with the preamble words Pa, Pb, Pc and Pd of 16 bits each and the payload after them. */
module Smpte337Format {
  import opened Bits
  import opened Smpte337

  // ----- every burst that is written is found

  /** A burst of AC-3 data: Pa = 0xf872, Pb = 0x4e1f; Pc with the stream number `top`, the error flag, the
      data mode and the data type 1; Pd, the length in bits; the payload. */
  function Written(top: Byte, error: nat, mode: nat, bits: nat, payload: seq<Byte>): (b: seq<Byte>)
    requires error < 2 && mode < 4 && bits < 0x1_0000
    ensures |b| == 8 + |payload|
  {
    [0xf8, 0x72, 0x4e, 0x1f, top, 128 * error + 32 * mode + 1, bits / 256, bits % 256] + payload
  }

  /** A burst at the head of the stream is found first, with the mode, type, length and payload that were
      written, and the scan goes on behind it. */
  lemma {:induction false} BurstRoundTrip(top: Byte, error: nat, mode: nat, bits: nat, payload: seq<Byte>,
                                          rest: seq<Byte>)
    requires error < 2 && mode < 4 && bits < 0x1_0000 && |payload| == bits / 8 && 8 + |payload| + |rest| >= 16
    ensures var s := ScanBytes(Written(top, error, mode, bits, payload) + rest);
            && s.bursts == [Burst(mode, 1, bits, payload)] + ScanBytes(rest).bursts
            && s.rest == ScanBytes(rest).rest
  {
    var b := Written(top, error, mode, bits, payload) + rest;
    PreambleOf(top, error, mode, bits, payload, rest);
    assert b[8 + |payload|..] == rest && b[8..8 + |payload|] == payload;
  }

  lemma PreambleOf(top: Byte, error: nat, mode: nat, bits: nat, payload: seq<Byte>, rest: seq<Byte>)
    requires error < 2 && mode < 4 && bits < 0x1_0000 && |payload| == bits / 8 && 8 + |payload| + |rest| >= 16
    ensures var b := Written(top, error, mode, bits, payload) + rest;
            StartsBurst(b) && BitCount(b) == bits && b[5] / 32 % 4 == mode && b[5] % 32 == 1
  {
    var b := Written(top, error, mode, bits, payload) + rest;
    assert b[0] == 0xf8 && b[1] == 0x72 && b[2] == 0x4e && b[3] == 0x1f;
    assert b[5] == 128 * error + 32 * mode + 1 && b[6] == bits / 256 && b[7] == bits % 256;
  }

  // ----- and nothing else

  /** The bytes f8 72 4e 1f stand at place o, and the data type is 1. */
  predicate PreambleAt(b: seq<Byte>, o: nat) {
    o + 6 <= |b| && b[o..o + 4] == [0xf8, 0x72, 0x4e, 0x1f] && b[o + 5] % 32 == 1
  }

  lemma StartsIff(b: seq<Byte>)
    requires |b| >= PEEK_LEN
    ensures StartsBurst(b) <==> PreambleAt(b, 0)
  {
    if PreambleAt(b, 0) {
      assert b[0] == b[0..4][0] && b[1] == b[0..4][1] && b[2] == b[0..4][2] && b[3] == b[0..4][3];
    }
    assert StartsBurst(b) ==> b[0..4] == [0xf8, 0x72, 0x4e, 0x1f];
  }

  /** Bytes in which no preamble starts are skipped. */
  lemma {:induction false} LeadInSkipped(lead: seq<Byte>, b: seq<Byte>)
    requires forall o :: 0 <= o < |lead| ==> !PreambleAt(lead + b, o)
    requires |b| >= 15
    ensures ScanBytes(lead + b) == ScanBytes(b)
    decreases |lead|
  {
    var c := lead + b;
    if lead == [] {
      assert c == b;
    } else {
      StartsIff(c);
      assert !PreambleAt(c, 0);
      assert c[1..] == lead[1..] + b;
      forall o | 0 <= o < |lead[1..]|
        ensures !PreambleAt(lead[1..] + b, o)
      {
        ShiftedPreamble(c, o);
      }
      LeadInSkipped(lead[1..], b);
    }
  }

  lemma ShiftedPreamble(c: seq<Byte>, o: nat)
    requires c != []
    ensures PreambleAt(c[1..], o) <==> PreambleAt(c, o + 1)
  {
    if o + 7 <= |c| {
      assert c[1..][o..o + 4] == c[o + 1..o + 5];
    }
  }

  /** A burst of n bytes at place o, as its preamble and payload say. */
  predicate BurstStands(b: seq<Byte>, o: nat, f: Burst) {
    && PreambleAt(b, o) && o + 8 + f.bitCount / 8 <= |b|
    && f.kind == 1 && f.mode == b[o + 5] / 32 % 4 && f.bitCount == b[o + 6] as int * 256 + b[o + 7]
    && f.payload == b[o + 8..o + 8 + f.bitCount / 8]
  }

  /** Places `at` of the bursts, in order and apart; what follows the last one is at least what the scan leaves. */
  ghost predicate Places(b: seq<Byte>, bursts: seq<Burst>, at: seq<nat>, left: nat) {
    && |at| == |bursts| && left <= |b|
    && (forall k :: 0 <= k < |at| ==> BurstStands(b, at[k], bursts[k]))
    && (forall k :: 0 < k < |at| ==> at[k - 1] + 8 + bursts[k - 1].bitCount / 8 <= at[k])
    && (at != [] ==> at[|at| - 1] + 8 + bursts[|at| - 1].bitCount / 8 <= |b| - left)
  }

  /** No preamble starts at any place that the scan has passed over outside the bursts. */
  ghost predicate NoneMissed(b: seq<Byte>, bursts: seq<Burst>, at: seq<nat>, left: nat)
    requires Places(b, bursts, at, left)
  {
    forall o :: 0 <= o < |b| - left && PreambleAt(b, o) ==> Inside(bursts, at, o)
  }

  ghost predicate Inside(bursts: seq<Burst>, at: seq<nat>, o: nat)
    requires |at| == |bursts|
  {
    exists k :: 0 <= k < |at| && at[k] <= o < at[k] + 8 + bursts[k].bitCount / 8
  }

  /** Every burst found stands in the stream where its preamble says, the bursts do not overlap, no preamble
      outside them is passed over, and the scan stops only where fewer than 16 bytes are left or an
      unfinished burst begins. */
  lemma {:induction false} ScanSound(b: seq<Byte>) returns (at: seq<nat>)
    ensures var s := ScanBytes(b);
            && |s.rest| <= |b| && s.rest == b[|b| - |s.rest|..]
            && Places(b, s.bursts, at, |s.rest|) && NoneMissed(b, s.bursts, at, |s.rest|)
            && (|s.rest| < 16 || (PreambleAt(s.rest, 0) && 8 + (s.rest[6] as int * 256 + s.rest[7]) / 8 > |s.rest|))
    decreases |b|
  {
    hide Places, NoneMissed, StartsBurst;
    at := [];
    NothingFound(b);
    if |b| >= PEEK_LEN {
      StartsIff(b);
      if !StartsBurst(b) {
        var rest := ScanSound(b[1..]);
        at := Shifted(rest, 1);
        SkipSound(b, ScanBytes(b[1..]).bursts, rest, |ScanBytes(b[1..]).rest|);
      } else if |b| >= BurstLength(b) {
        var n := BurstLength(b);
        var rest := ScanSound(b[n..]);
        at := [0] + Shifted(rest, n);
        TakeSound(b, ScanBytes(b[n..]).bursts, rest, |ScanBytes(b[n..]).rest|);
      }
    }
  }

  lemma NothingFound(b: seq<Byte>)
    ensures b[|b| - |b|..] == b && Places(b, [], [], |b|) && NoneMissed(b, [], [], |b|)
  {
  }

  function Shifted(at: seq<nat>, n: nat): (r: seq<nat>)
    ensures |r| == |at|
  {
    seq(|at|, k requires 0 <= k < |at| => at[k] + n)
  }

  lemma Moved(b: seq<Byte>, n: nat, o: nat)
    requires n <= |b|
    ensures PreambleAt(b[n..], o) <==> PreambleAt(b, o + n)
  {
    if o + n + 6 <= |b| {
      assert b[n..][o..o + 4] == b[o + n..o + n + 4];
    }
  }

  lemma MovedBurst(b: seq<Byte>, n: nat, o: nat, f: Burst)
    requires n <= |b| && BurstStands(b[n..], o, f)
    ensures BurstStands(b, o + n, f)
  {
    Moved(b, n, o);
    var l := 8 + f.bitCount / 8;
    assert b[n..][o + 8..o + l] == b[o + n + 8..o + n + l];
  }

  lemma MovedPlaces(b: seq<Byte>, n: nat, bursts: seq<Burst>, at: seq<nat>, left: nat)
    requires n <= |b| && Places(b[n..], bursts, at, left)
    ensures Places(b, bursts, Shifted(at, n), left)
  {
    hide BurstStands;
    forall k | 0 <= k < |at|
      ensures BurstStands(b, at[k] + n, bursts[k])
    {
      MovedBurst(b, n, at[k], bursts[k]);
    }
  }

  lemma MovedNone(b: seq<Byte>, n: nat, bursts: seq<Burst>, at: seq<nat>, left: nat, o: nat)
    requires n <= |b| && Places(b[n..], bursts, at, left) && NoneMissed(b[n..], bursts, at, left)
    requires n <= o < |b| - left && PreambleAt(b, o)
    ensures Inside(bursts, Shifted(at, n), o)
  {
    Moved(b, n, o - n);
    assert Inside(bursts, at, o - n);
    var k :| 0 <= k < |at| && at[k] <= o - n < at[k] + 8 + bursts[k].bitCount / 8;
    assert Shifted(at, n)[k] == at[k] + n;
  }

  lemma SkipSound(b: seq<Byte>, bursts: seq<Burst>, at: seq<nat>, left: nat)
    requires b != [] && !PreambleAt(b, 0)
    requires Places(b[1..], bursts, at, left) && NoneMissed(b[1..], bursts, at, left)
    ensures Places(b, bursts, Shifted(at, 1), left) && NoneMissed(b, bursts, Shifted(at, 1), left)
  {
    MovedPlaces(b, 1, bursts, at, left);
    forall o | 0 <= o < |b| - left && PreambleAt(b, o)
      ensures Inside(bursts, Shifted(at, 1), o)
    {
      MovedNone(b, 1, bursts, at, left, o);
    }
  }

  lemma TakeSound(b: seq<Byte>, bursts: seq<Burst>, at: seq<nat>, left: nat)
    requires |b| >= PEEK_LEN && StartsBurst(b) && |b| >= BurstLength(b)
    requires var n := BurstLength(b); Places(b[n..], bursts, at, left) && NoneMissed(b[n..], bursts, at, left)
    ensures var n := BurstLength(b);
            && Places(b, [BurstAt(b)] + bursts, [0] + Shifted(at, n), left)
            && NoneMissed(b, [BurstAt(b)] + bursts, [0] + Shifted(at, n), left)
  {
    var n := BurstLength(b);
    StartsIff(b);
    FirstStands(b);
    hide StartsBurst, BurstAt, BurstLength, BurstStands;
    MovedPlaces(b, n, bursts, at, left);
    FirstPlace(b, BurstAt(b), bursts, Shifted(at, n), left);
    FirstNone(b, BurstAt(b), n, bursts, at, left);
  }

  lemma FirstStands(b: seq<Byte>)
    requires |b| >= PEEK_LEN && StartsBurst(b) && PreambleAt(b, 0) && |b| >= BurstLength(b)
    ensures BurstStands(b, 0, BurstAt(b)) && 8 + BurstAt(b).bitCount / 8 == BurstLength(b)
  {
  }

  lemma FirstNone(b: seq<Byte>, f: Burst, n: nat, bursts: seq<Burst>, at: seq<nat>, left: nat)
    requires n <= |b| && n == 8 + f.bitCount / 8
    requires Places(b[n..], bursts, at, left) && NoneMissed(b[n..], bursts, at, left)
    requires Places(b, [f] + bursts, [0] + Shifted(at, n), left)
    ensures NoneMissed(b, [f] + bursts, [0] + Shifted(at, n), left)
  {
    hide PreambleAt, BurstStands;
    var all, places := [f] + bursts, [0] + Shifted(at, n);
    forall o | 0 <= o < |b| - left && PreambleAt(b, o)
      ensures Inside(all, places, o)
    {
      if o < n {
        assert places[0] <= o < places[0] + 8 + all[0].bitCount / 8;
      } else {
        MovedNone(b, n, bursts, at, left, o);
        InsideMore(f, bursts, Shifted(at, n), o);
      }
    }
  }

  lemma InsideMore(f: Burst, bursts: seq<Burst>, at: seq<nat>, o: nat)
    requires |at| == |bursts| && Inside(bursts, at, o)
    ensures Inside([f] + bursts, [0] + at, o)
  {
    var k :| 0 <= k < |at| && at[k] <= o < at[k] + 8 + bursts[k].bitCount / 8;
    assert ([0] + at)[k + 1] == at[k] && ([f] + bursts)[k + 1] == bursts[k];
  }

  lemma FirstPlace(b: seq<Byte>, f: Burst, bursts: seq<Burst>, at: seq<nat>, left: nat)
    requires Places(b, bursts, at, left) && BurstStands(b, 0, f) && 8 + f.bitCount / 8 <= |b| - left
    requires at != [] ==> 8 + f.bitCount / 8 <= at[0]
    ensures Places(b, [f] + bursts, [0] + at, left)
  {
    var all, places := [f] + bursts, [0] + at;
    forall k | 0 <= k < |places|
      ensures BurstStands(b, places[k], all[k])
    {
      if k > 0 { assert places[k] == at[k - 1] && all[k] == bursts[k - 1]; }
    }
    forall k | 0 < k < |places|
      ensures places[k - 1] + 8 + all[k - 1].bitCount / 8 <= places[k]
    {
      assert places[k] == at[k - 1];
      if k > 1 { assert places[k - 1] == at[k - 2] && all[k - 1] == bursts[k - 2]; }
    }
  }

  // ----- times

  /** An audio frame takes 562.5 ticks of 27 MHz, and its offset is rounded to the nearest, halves up. */
  lemma FrameTicks(n: nat)
    ensures 0 <= 2 * FrameOffset(n) - 1125 * n <= 1
  {
  }
}
