/** The Exp-Golomb writers of common/bitstream.h and the codes of section 9.1 of ITU-T H.264. */
module ExpGolomb {
  import opened Bits
  import opened Sequences
  import opened BitWriting

  datatype Decoded = Decoded(codeNum: nat, rest: seq<bool>) | Malformed

  /** The number of bits of x without leading zeros; for x > 0 this is floor(log2(x)) + 1. */
  function BitLength(x: nat): nat {
    if x == 0 then 0 else 1 + BitLength(x / 2)
  }

  lemma {:induction false} BitLengthBounds(x: nat)
    requires x > 0
    ensures BitLength(x) >= 1 && Pow2(BitLength(x) - 1) <= x < Pow2(BitLength(x))
  {
    if x > 1 {
      BitLengthBounds(x / 2);
    } else {
      assert BitLength(1) == 1;
    }
  }

  /** ue(v): floor(log2(codeNum + 1)) zeros, then codeNum + 1. */
  function UeCode(codeNum: nat): (b: seq<bool>)
    ensures b != []
  {
    Zeros(BitLength(codeNum + 1) - 1) + ToBits(codeNum + 1, BitLength(codeNum + 1))
  }

  /** The code number of a signed value, as in section 9.1.1. */
  function SeNumber(v: int): nat {
    if v > 0 then 2 * v - 1 else -2 * v
  }

  function SeValue(codeNum: nat): int {
    if codeNum % 2 == 1 then (codeNum + 1) / 2 else -(codeNum / 2)
  }

  lemma SeNumberRoundTrip(v: int, codeNum: nat)
    ensures SeValue(SeNumber(v)) == v
    ensures SeNumber(SeValue(codeNum)) == codeNum
  {
  }

  /** Values by increasing magnitude, the positive one of each pair first: table 9-3. */
  lemma SeOrder(v: int, w: int)
    ensures SeNumber(v) < SeNumber(w) <==> (if v < 0 then -v else v) < (if w < 0 then -w else w) || v == -w > 0
    ensures SeNumber(0) == 0 && SeNumber(1) == 1 && SeNumber(-1) == 2 && SeNumber(2) == 3 && SeNumber(-2) == 4
  {
  }

  /** The first rows of table 9-2. */
  lemma UeTable()
    ensures UeCode(0) == [true] && UeCode(1) == [false, true, false] && UeCode(2) == [false, true, true]
    ensures UeCode(3) == [false, false, true, false, false] && UeCode(6) == [false, false, true, true, true]
  {
    assert BitLength(1) == 1 && BitLength(2) == 2 && BitLength(3) == 2 && BitLength(4) == 3 && BitLength(7) == 3;
    assert ToBits(1, 1) == [true] && ToBits(2, 2) == [true, false] && ToBits(3, 2) == [true, true];
    assert ToBits(4, 3) == [true, false, false] && ToBits(7, 3) == [true, true, true];
  }

  function LeadingZeros(b: seq<bool>): (n: nat)
    ensures n <= |b|
  {
    if b == [] || b[0] then 0 else 1 + LeadingZeros(b[1..])
  }

  /** The parsing process of section 9.1. */
  function DecodeUe(b: seq<bool>): Decoded {
    var z := LeadingZeros(b);
    if 2 * z + 1 > |b| then Malformed
    else
      var x := FromBits(b[z..2 * z + 1]);
      if x == 0 then Malformed else Decoded(x - 1, b[2 * z + 1..])
  }

  function UeCodes(ks: seq<nat>): seq<bool> {
    if ks == [] then [] else UeCode(ks[0]) + UeCodes(ks[1..])
  }

  lemma {:induction false} LeadingZerosOf(n: nat, b: seq<bool>)
    requires b != [] && b[0]
    ensures LeadingZeros(Zeros(n) + b) == n
  {
    if n > 0 {
      assert (Zeros(n) + b)[1..] == Zeros(n - 1) + b;
      LeadingZerosOf(n - 1, b);
    } else {
      assert Zeros(0) + b == b;
    }
  }

  /** A number of exactly n bits starts with a one. */
  lemma {:induction false} TopBit(x: nat, n: nat)
    requires n > 0 && Pow2(n - 1) <= x < Pow2(n)
    ensures ToBits(x, n)[0]
  {
    if n > 1 {
      TopBit(x / 2, n - 1);
    } else {
      assert x == 1 && ToBits(x, 1) == [true];
    }
  }

  /** A codeword is recognised whatever follows it, so no codeword is a prefix of another. */
  lemma DecodeUeCode(codeNum: nat, rest: seq<bool>)
    ensures DecodeUe(UeCode(codeNum) + rest) == Decoded(codeNum, rest)
  {
    BitLengthBounds(codeNum + 1);
    DecodeNumber(codeNum + 1, BitLength(codeNum + 1), rest);
  }

  lemma DecodeNumber(x: nat, n: nat, rest: seq<bool>)
    requires n > 0 && Pow2(n - 1) <= x < Pow2(n)
    ensures DecodeUe(Zeros(n - 1) + ToBits(x, n) + rest) == Decoded(x - 1, rest)
  {
    TopBit(x, n);
    FromToBits(x, n);
    DecodeParts(n - 1, ToBits(x, n), rest);
  }

  lemma DecodeParts(z: nat, c: seq<bool>, rest: seq<bool>)
    requires |c| == z + 1 && c[0] && FromBits(c) > 0
    ensures DecodeUe(Zeros(z) + c + rest) == Decoded(FromBits(c) - 1, rest)
  {
    AppendAssoc(Zeros(z), c, rest);
    LeadingZerosOf(z, c + rest);
    CutInThree(Zeros(z), c, rest);
  }

  lemma CutInThree<T>(a: seq<T>, b: seq<T>, c: seq<T>)
    ensures (a + (b + c))[|a|..|a| + |b|] == b && (a + (b + c))[|a| + |b|..] == c
  {
  }

  /** Any sequence of codewords decodes to exactly one sequence of values. */
  lemma {:induction false} UeCodesUnique(ks: seq<nat>, js: seq<nat>)
    requires UeCodes(ks) == UeCodes(js)
    ensures ks == js
  {
    if ks != [] && js != [] {
      DecodeUeCode(ks[0], UeCodes(ks[1..]));
      DecodeUeCode(js[0], UeCodes(js[1..]));
      UeCodesUnique(ks[1..], js[1..]);
      assert ks == [ks[0]] + ks[1..] && js == [js[0]] + js[1..];
    }
  }

  // ----- the writers

  /** `x264_ue_size_tab`: the codeword sizes for x = codeNum + 1 below 256. */
  const UE_SIZE_TAB: seq<nat> :=
    [1, 1, 3, 3] + seq(4, _ => 5) + seq(8, _ => 7) + seq(16, _ => 9)
    + seq(32, _ => 11) + seq(64, _ => 13) + seq(128, _ => 15)

  lemma SizeTable(x: nat)
    requires 1 <= x < 256
    ensures |UE_SIZE_TAB| == 256 && UE_SIZE_TAB[x] == 2 * BitLength(x) - 1
  {
    BitLengthBounds(x);
    var n := BitLength(x);
    if n > 8 {
      Pow2Values();
      Pow2Mono(8, n - 1);
    }
    assert Pow2(0) == 1 && Pow2(1) == 2 && Pow2(2) == 4 && Pow2(3) == 8 && Pow2(4) == 16;
    assert Pow2(5) == 32 && Pow2(6) == 64 && Pow2(7) == 128 && Pow2(8) == 256;
  }

  /** Eight more bits: `tmp >>= 8; size += 16`. */
  lemma BitLengthShift8(x: nat)
    requires x >= 0x100
    ensures BitLength(x) == 8 + BitLength(x / 0x100)
  {
    BitLengthShift4(x);
    BitLengthShift4(x / 16);
  }

  lemma BitLengthShift16(x: nat)
    requires x >= 0x10000
    ensures BitLength(x) == 16 + BitLength(x / 0x10000)
  {
    BitLengthShift8(x);
    BitLengthShift8(x / 0x100);
  }

  lemma BitLengthShift4(x: nat)
    requires x >= 16
    ensures BitLength(x) == 4 + BitLength(x / 16)
  {
    BitLengthShift2(x);
    BitLengthShift2(x / 4);
  }

  lemma BitLengthShift2(x: nat)
    requires x >= 4
    ensures BitLength(x) == 2 + BitLength(x / 4)
  {
    assert BitLength(x) == 1 + BitLength(x / 2);
  }

  /** A codeword is its number written with that many leading zeros. */
  lemma UeCodeAsNumber(codeNum: nat)
    ensures UeCode(codeNum) == ToBits(codeNum + 1, 2 * BitLength(codeNum + 1) - 1)
    ensures codeNum + 1 < Pow2(2 * BitLength(codeNum + 1) - 1)
  {
    var n := BitLength(codeNum + 1);
    BitLengthBounds(codeNum + 1);
    ToBitsExtend(codeNum + 1, n - 1, n);
    assert n - 1 + n == 2 * n - 1;
    Pow2Mono(n, 2 * n - 1);
  }

  /** `bs_write_ue`. */
  method WriteUe(s: BitWriter, val: nat)
    requires val < 255 && s.Valid() && s.Room(15)
    modifies s, s.mem
    ensures s.Valid() && s.pStart == old(s.pStart)
    ensures s.Written() == old(s.Written()) + UeCode(val)
  {
    SizeTable(val + 1);
    BitLengthBounds(val + 1);
    UeCodeAsNumber(val);
    s.Write(UE_SIZE_TAB[val + 1], val + 1);
  }

  /** The size of the codeword of x - 1, looked up a byte at a time. */
  method UeSizeBig(x: nat) returns (size: nat)
    requires 1 <= x < 0x8000_0000
    ensures size == 2 * BitLength(x) - 1
    ensures size / 2 == BitLength(x) - 1 <= 30 && x < Pow2(size / 2 + 1)
  {
    BitLengthAtMost31(x);
    size := 0;
    var tmp := x;
    if tmp >= 0x10000 {
      BitLengthShift16(tmp);
      size := 32;
      tmp := tmp / 0x10000;
    }
    if tmp >= 0x100 {
      BitLengthShift8(tmp);
      size := size + 16;
      tmp := tmp / 0x100;
    }
    SizeTable(tmp);
    size := size + UE_SIZE_TAB[tmp];
    BitLengthBounds(x);
  }

  lemma BitLengthAtMost31(x: nat)
    requires 1 <= x < 0x8000_0000
    ensures BitLength(x) <= 31
  {
    BitLengthBounds(x);
    if BitLength(x) > 31 {
      Pow2Mono(31, BitLength(x) - 1);
      Pow2Values();
    }
  }

  /** `bs_write_ue_big`. */
  method WriteUeBig(s: BitWriter, val: nat)
    requires val + 1 < 0x8000_0000 && s.Valid() && s.Room(61)
    modifies s, s.mem
    ensures s.Valid() && s.pStart == old(s.pStart)
    ensures s.Written() == old(s.Written()) + UeCode(val)
  {
    hide ToBits, BytesToBits, Pow2, BitLength;
    var size := UeSizeBig(val + 1);
    ghost var before := s.Written();
    s.Write(size / 2, 0);
    s.Write(size / 2 + 1, val + 1);
    ToBitsZero(size / 2);
    AppendAssoc(before, Zeros(size / 2), ToBits(val + 1, size / 2 + 1));
  }

  /** The size of a codeword below 2^16, looked up a byte at a time. */
  method SeSize(x: nat) returns (size: nat)
    requires 1 <= x < 0x1_0000
    ensures size == 2 * BitLength(x) - 1 <= 31 && x < Pow2(size)
  {
    size := 0;
    var tmp := x;
    if tmp >= 0x100 {
      BitLengthShift8(tmp);
      size := 16;
      tmp := tmp / 0x100;
    }
    SizeTable(tmp);
    size := size + UE_SIZE_TAB[tmp];
    BitLengthAtMost16(x);
    UeCodeAsNumber(x - 1);
  }

  lemma BitLengthAtMost16(x: nat)
    requires 1 <= x < 0x1_0000
    ensures BitLength(x) <= 16
  {
    BitLengthBounds(x);
    if BitLength(x) > 16 {
      Pow2Mono(16, BitLength(x) - 1);
      Pow2Values();
    }
  }

  /** `bs_write_se`, for the values whose codeword fits one `bs_write`. */
  method WriteSe(s: BitWriter, val: int)
    requires -0x7fff <= val <= 0x7fff && s.Valid() && s.Room(31)
    modifies s, s.mem
    ensures s.Valid() && s.pStart == old(s.pStart)
    ensures s.Written() == old(s.Written()) + UeCode(SeNumber(val))
  {
    hide ToBits, BytesToBits, Pow2, BitLength;
    var tmp := 1 - val * 2;
    if tmp < 0 {
      tmp := val * 2;
    }
    var size := SeSize(tmp);
    UeCodeAsNumber(SeNumber(val));
    s.Write(size, tmp);
  }

  /** `bs_write_te`: with range 1 a single inverted bit, otherwise ue(v). */
  method WriteTe(s: BitWriter, x: int, val: nat)
    requires val < (if x == 1 then 2 else 255) && s.Valid() && s.Room(15)
    modifies s, s.mem
    ensures s.Valid() && s.pStart == old(s.pStart)
    ensures s.Written() == old(s.Written()) + if x == 1 then [val == 0] else UeCode(val)
  {
    if x == 1 {
      s.Write1(1 - val);
    } else {
      WriteUe(s, val);
    }
  }
}
