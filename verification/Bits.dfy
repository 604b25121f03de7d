/** Bit strings, machine words, and the little-endian memory that holds them.
    A bit string is a sequence of Booleans, most significant bit first. A machine word is the bit
    string of its width, so a shift drops and appends bits and nothing is ever out of range. */
module Bits {

  type Byte = x: int | 0 <= x < 256
  type Word32 = w: seq<bool> | |w| == 32 witness seq(32, _ => false)
  type Word64 = w: seq<bool> | |w| == 64 witness seq(64, _ => false)

  function Pow2(n: nat): (p: nat)
    ensures p > 0
  {
    if n == 0 then 1 else 2 * Pow2(n - 1)
  }

  lemma Pow2Values()
    ensures Pow2(8) == 0x100 && Pow2(16) == 0x1_0000 && Pow2(31) == 0x8000_0000 && Pow2(32) == 0x1_0000_0000
  {
    assert Pow2(8) == 0x100 && Pow2(12) == 0x1000 && Pow2(20) == 0x10_0000 && Pow2(26) == 0x400_0000;
  }

  /** The n low bits of v. */
  function ToBits(v: nat, n: nat): (b: seq<bool>)
    ensures |b| == n
  {
    if n == 0 then [] else ToBits(v / 2, n - 1) + [v % 2 == 1]
  }

  /** The number a bit string spells. */
  function FromBits(b: seq<bool>): (v: nat)
    ensures v < Pow2(|b|)
  {
    if b == [] then 0 else 2 * FromBits(b[..|b| - 1]) + (if b[|b| - 1] then 1 else 0)
  }

  function Zeros(n: nat): (b: seq<bool>)
    ensures |b| == n
  {
    seq(n, _ => false)
  }

  function Ones(n: nat): (b: seq<bool>)
    ensures |b| == n
  {
    seq(n, _ => true)
  }

  function BytesToBits(s: seq<Byte>): (b: seq<bool>)
    ensures |b| == 8 * |s|
  {
    if s == [] then [] else BytesToBits(s[..|s| - 1]) + ToBits(s[|s| - 1], 8)
  }

  /** The zero bits that complete a bit string of length n to whole bytes. */
  function Padding(n: nat): (b: seq<bool>)
    ensures (n + |b|) % 8 == 0 && |b| < 8
  {
    Zeros((8 - n % 8) % 8)
  }

  function Pad(b: seq<bool>): (r: seq<bool>)
    ensures |r| % 8 == 0 && b <= r
  {
    b + Padding(|b|)
  }

  /** Padding looks only at the last, unfinished byte. */
  lemma PadAppend(a: seq<bool>, b: seq<bool>)
    requires |a| % 8 == 0
    ensures Pad(a + b) == a + Pad(b)
  {
    assert |a + b| % 8 == |b| % 8;
    assert a + b + Padding(|b|) == a + (b + Padding(|b|));
  }

  lemma PadOnce(b: seq<bool>)
    ensures Pad(Pad(b)) == Pad(b)
  {
  }

  // ----- word operations

  function Shl(w: seq<bool>, n: nat): (r: seq<bool>)
    requires n <= |w|
    ensures |r| == |w|
  {
    w[n..] + Zeros(n)
  }

  function Shr(w: seq<bool>, n: nat): (r: seq<bool>)
    requires n <= |w|
    ensures |r| == |w|
  {
    Zeros(n) + w[..|w| - n]
  }

  function Or(a: seq<bool>, b: seq<bool>): (r: seq<bool>)
    requires |a| == |b|
    ensures |r| == |a|
  {
    seq(|a|, i requires 0 <= i < |a| => a[i] || b[i])
  }

  function And(a: seq<bool>, b: seq<bool>): (r: seq<bool>)
    requires |a| == |b|
    ensures |r| == |a|
  {
    seq(|a|, i requires 0 <= i < |a| => a[i] && b[i])
  }

  /** Zero extension from 32 to 64 bits. */
  function Extend(w: Word32): Word64 {
    Zeros(32) + w
  }

  /** Truncation from 64 to 32 bits. */
  function Truncate(w: Word64): Word32 {
    w[32..]
  }

  /** `endian_fix32` and `endian_fix64`: the bytes of a word in the opposite order. */
  function EndianFix32(x: Word32): Word32 {
    x[24..] + x[16..24] + x[8..16] + x[..8]
  }

  function EndianFix64(x: Word64): Word64 {
    EndianFix32(x[32..]) + EndianFix32(x[..32])
  }

  // ----- memory

  /** The four bytes a little-endian machine stores for a word. */
  function StoreBytes(w: Word32): (s: seq<Byte>)
    ensures |s| == 4
  {
    [ToByte(w[24..]), ToByte(w[16..24]), ToByte(w[8..16]), ToByte(w[..8])]
  }

  /** The word a little-endian machine loads from four bytes. */
  function LoadWord(s: seq<Byte>): Word32
    requires |s| == 4
  {
    ToBits(s[3], 8) + ToBits(s[2], 8) + ToBits(s[1], 8) + ToBits(s[0], 8)
  }

  function ToByte(b: seq<bool>): Byte
    requires |b| == 8
  {
    assert Pow2(8) == 256;
    FromBits(b)
  }

  // ----- numbers as bit strings

  /** A small number has zeros in front. */
  lemma {:induction false} ToBitsExtend(v: nat, m: nat, n: nat)
    requires v < Pow2(n)
    ensures ToBits(v, m + n) == Zeros(m) + ToBits(v, n)
  {
    if n == 0 {
      ToBitsZero(m);
    } else {
      ToBitsExtend(v / 2, m, n - 1);
      assert m + n - 1 == m + (n - 1);
    }
  }

  /** A number put together from a high and a low part. */
  lemma {:induction false} ToBitsConcat(h: nat, l: nat, m: nat, n: nat)
    requires l < Pow2(n)
    ensures ToBits(h * Pow2(n) + l, m + n) == ToBits(h, m) + ToBits(l, n)
  {
    if n == 0 {
      assert h * Pow2(n) + l == h;
    } else {
      assert h * Pow2(n) == 2 * (h * Pow2(n - 1));
      ToBitsConcat(h, l / 2, m, n - 1);
      assert m + n - 1 == m + (n - 1);
    }
  }

  /** The low bits of a number are a suffix of its bits. */
  lemma {:induction false} ToBitsSuffix(v: nat, m: nat, n: nat, i: nat)
    requires i < n
    ensures ToBits(v, m + n)[m + i] == ToBits(v, n)[i]
  {
    if i < n - 1 {
      ToBitsSuffix(v / 2, m, n - 1, i);
      assert m + n - 1 == m + (n - 1);
    }
  }

  /** Shifting right by 16 keeps the bits above. */
  lemma ToBitsPrefix(v: nat, n: nat)
    ensures ToBits(v, n + 16)[..n] == ToBits(v / 0x1_0000, n)
  {
    ToBitsPrefix4(v, n + 12);
    ToBitsPrefix4(v / 16, n + 8);
    ToBitsPrefix4(v / 16 / 16, n + 4);
    ToBitsPrefix4(v / 16 / 16 / 16, n);
    var a, b, c := ToBits(v / 16, n + 12), ToBits(v / 16 / 16, n + 8), ToBits(v / 16 / 16 / 16, n + 4);
    assert ToBits(v, n + 16)[..n] == a[..n] == b[..n] == c[..n];
  }

  lemma ToBitsPrefix4(v: nat, n: nat)
    ensures ToBits(v, n + 4)[..n] == ToBits(v / 16, n)
  {
    assert ToBits(v, n + 4)[..n + 3] == ToBits(v / 2, n + 3);
    assert ToBits(v / 2, n + 3)[..n + 2] == ToBits(v / 4, n + 2);
    assert ToBits(v / 4, n + 2)[..n + 1] == ToBits(v / 8, n + 1);
  }

  lemma {:induction false} ToBitsZero(n: nat)
    ensures ToBits(0, n) == Zeros(n)
  {
    if n > 0 {
      ToBitsZero(n - 1);
    }
  }

  lemma {:induction false} Pow2Mono(m: nat, n: nat)
    requires m <= n
    ensures Pow2(m) <= Pow2(n)
  {
    if m < n {
      Pow2Mono(m, n - 1);
    }
  }

  /** Reading a field back gives the value that was written. */
  lemma {:induction false} FromToBits(v: nat, n: nat)
    requires v < Pow2(n)
    ensures FromBits(ToBits(v, n)) == v
  {
    if n > 0 {
      FromToBits(v / 2, n - 1);
      assert ToBits(v, n)[..n - 1] == ToBits(v / 2, n - 1);
    }
  }

  lemma {:induction false} ToFromBits(b: seq<bool>)
    ensures ToBits(FromBits(b), |b|) == b
  {
    if b != [] {
      ToFromBits(b[..|b| - 1]);
    }
  }

  lemma {:induction false} FromZeros(n: nat, b: seq<bool>)
    ensures FromBits(Zeros(n) + b) == FromBits(b)
    decreases n + |b|
  {
    if b != [] {
      var c := b[..|b| - 1];
      FromZeros(n, c);
      assert (Zeros(n) + b)[..n + |b| - 1] == Zeros(n) + c;
    } else if n > 0 {
      FromZeros(n - 1, []);
      assert (Zeros(n) + b)[..n - 1] == Zeros(n - 1) + [];
    }
  }

  lemma FourBits(n: nat)
    ensures ToBits(n, 4) == [n / 8 % 2 == 1, n / 4 % 2 == 1, n / 2 % 2 == 1, n % 2 == 1]
  {
    assert n / 2 / 2 == n / 4 && n / 4 / 2 == n / 8;
    assert ToBits(n / 8, 1) == [n / 8 % 2 == 1];
    assert ToBits(n / 4, 2) == ToBits(n / 8, 1) + [n / 4 % 2 == 1];
    assert ToBits(n / 2, 3) == ToBits(n / 4, 2) + [n / 2 % 2 == 1];
  }

  lemma ByteNibbles(x: nat)
    ensures ToBits(x, 8) == ToBits(x / 16, 4) + ToBits(x % 16, 4)
  {
    assert Pow2(4) == 16;
    var h, l := x / 16, x % 16;
    assert h * Pow2(4) + l == x;
    ToBitsConcat(h, l, 4, 4);
  }

  // ----- bytes as bit strings

  lemma {:induction false} BytesToBitsConcat(s: seq<Byte>, t: seq<Byte>)
    ensures BytesToBits(s + t) == BytesToBits(s) + BytesToBits(t)
  {
    if t == [] {
      assert s + t == s;
    } else {
      BytesToBitsConcat(s, t[..|t| - 1]);
      assert (s + t)[..|s + t| - 1] == s + t[..|t| - 1];
    }
  }

  lemma BytesToBitsOne(b: Byte)
    ensures BytesToBits([b]) == ToBits(b, 8)
  {
    assert [b][..0] == [];
  }

  /** The bits of one byte inside a byte sequence. */
  lemma {:induction false} BytesToBitsBit(s: seq<Byte>, k: nat, i: nat)
    requires k < |s| && i < 8
    ensures BytesToBits(s)[8 * k + i] == ToBits(s[k], 8)[i]
  {
    if k < |s| - 1 {
      BytesToBitsBit(s[..|s| - 1], k, i);
    }
  }

  lemma {:induction false} BytesToBitsCut(s: seq<Byte>, i: nat)
    requires i <= |s|
    ensures BytesToBits(s)[..8 * i] == BytesToBits(s[..i])
    ensures BytesToBits(s)[8 * i..] == BytesToBits(s[i..])
  {
    assert s == s[..i] + s[i..];
    BytesToBitsConcat(s[..i], s[i..]);
  }

  lemma BytesToBitsSlice(s: seq<Byte>, i: nat, j: nat)
    requires i <= j <= |s|
    ensures BytesToBits(s)[8 * i..8 * j] == BytesToBits(s[i..j])
  {
    BytesToBitsCut(s, j);
    BytesToBitsCut(s[..j], i);
  }

  /** A byte sequence is determined by its bits. */
  lemma BytesToBitsInjective(s: seq<Byte>, t: seq<Byte>)
    requires BytesToBits(s) == BytesToBits(t)
    ensures s == t
  {
    assert 8 * |s| == |BytesToBits(s)| == |BytesToBits(t)| == 8 * |t|;
    forall k | 0 <= k < |s|
      ensures s[k] == t[k]
    {
      forall i | 0 <= i < 8
        ensures ToBits(s[k], 8)[i] == ToBits(t[k], 8)[i]
      {
        BytesToBitsBit(s, k, i);
        BytesToBitsBit(t, k, i);
      }
      assert ToBits(s[k], 8) == ToBits(t[k], 8);
      Pow2Values();
      FromToBits(s[k], 8);
      FromToBits(t[k], 8);
    }
  }

  /** Appending the first k bytes of a stored word appends the first 8k of its bits. */
  lemma BytesToBitsAppend(s: seq<Byte>, t: seq<Byte>, k: nat)
    requires k <= |t|
    ensures BytesToBits(s + t[..k]) == BytesToBits(s) + BytesToBits(t)[..8 * k]
  {
    BytesToBitsConcat(s, t[..k]);
    BytesToBitsCut(t, k);
  }

  // ----- byte order

  /** Words with no set bit in common add up to their union. */
  lemma {:induction false} OrIsSum(a: seq<bool>, b: seq<bool>)
    requires |a| == |b| && forall i :: 0 <= i < |a| ==> !(a[i] && b[i])
    ensures FromBits(Or(a, b)) == FromBits(a) + FromBits(b)
  {
    if a != [] {
      var n := |a| - 1;
      assert Or(a, b)[..n] == Or(a[..n], b[..n]);
      OrIsSum(a[..n], b[..n]);
    }
  }

  function Mask(from: nat): (m: Word32)
    requires from <= 24
  {
    Zeros(24 - from) + Ones(8) + Zeros(from)
  }

  /** The four terms of `endian_fix32`. */
  function SwapTerms(x: Word32): (t: seq<Word32>)
    ensures |t| == 4
  {
    [Shl(x, 24), And(Shl(x, 8), Mask(16)), And(Shr(x, 8), Mask(8)), Shr(x, 24)]
  }

  lemma SwapTermsLie(x: Word32)
    ensures var t := SwapTerms(x);
            && t[0] == x[24..] + Zeros(24) && t[1] == Zeros(8) + x[16..24] + Zeros(16)
            && t[2] == Zeros(16) + x[8..16] + Zeros(8) && t[3] == Zeros(24) + x[..8]
  {
    var t := SwapTerms(x);
    assert t[0] == x[24..] + Zeros(24);
    assert t[1] == Zeros(8) + x[16..24] + Zeros(16);
    assert t[2] == Zeros(16) + x[8..16] + Zeros(8);
    assert t[3] == Zeros(24) + x[..8];
  }

  /** The shifts, masks and sums of `endian_fix32` reverse the bytes. */
  lemma EndianFix32IsSum(x: Word32)
    ensures var t := SwapTerms(x);
            FromBits(EndianFix32(x)) == FromBits(t[0]) + FromBits(t[1]) + FromBits(t[2]) + FromBits(t[3])
  {
    var t := SwapTerms(x);
    SwapTermsLie(x);
    OrIsSum(t[0], t[1]);
    OrIsSum(t[2], t[3]);
    var high, low := x[24..] + x[16..24] + Zeros(16), Zeros(16) + x[8..16] + x[..8];
    assert Or(t[0], t[1]) == high;
    assert Or(t[2], t[3]) == low;
    OrIsSum(high, low);
    assert Or(high, low) == EndianFix32(x);
  }

  /** The two halves of `endian_fix64`, swapped and added. */
  lemma EndianFix64IsSum(y: Word64)
    ensures FromBits(EndianFix64(y))
         == FromBits(Extend(EndianFix32(Truncate(Shr(y, 32)))))
            + FromBits(Shl(Extend(EndianFix32(Truncate(y))), 32))
  {
    var low, high := Extend(EndianFix32(Truncate(Shr(y, 32)))), Shl(Extend(EndianFix32(Truncate(y))), 32);
    assert Truncate(Shr(y, 32)) == y[..32];
    assert low == Zeros(32) + EndianFix32(y[..32]);
    assert high == EndianFix32(y[32..]) + Zeros(32);
    OrIsSum(low, high);
    assert Or(low, high) == EndianFix64(y);
  }

  /** Swapping and then storing lays a word out in memory most significant byte first. */
  lemma StoreOrder(w: Word32)
    ensures StoreBytes(EndianFix32(w)) == [ToByte(w[..8]), ToByte(w[8..16]), ToByte(w[16..24]), ToByte(w[24..])]
  {
    var f := EndianFix32(w);
    assert f[24..] == w[..8] && f[16..24] == w[8..16] && f[8..16] == w[16..24] && f[..8] == w[24..];
  }

  lemma StoreFixed(w: Word32)
    ensures BytesToBits(StoreBytes(EndianFix32(w))) == w
  {
    StoreOrder(w);
    FourOctets(w[..8], w[8..16], w[16..24], w[24..]);
    assert w == w[..8] + w[8..16] + w[16..24] + w[24..];
  }

  lemma FourOctets(a: seq<bool>, b: seq<bool>, c: seq<bool>, d: seq<bool>)
    requires |a| == |b| == |c| == |d| == 8
    ensures BytesToBits([ToByte(a), ToByte(b), ToByte(c), ToByte(d)]) == a + b + c + d
  {
    FourBytes([ToByte(a), ToByte(b), ToByte(c), ToByte(d)]);
    ToFromBits(a);
    ToFromBits(b);
    ToFromBits(c);
    ToFromBits(d);
  }

  /** Loading and then swapping gives the word whose bits lie in memory in order. */
  lemma LoadFixed(s: seq<Byte>)
    requires |s| == 4
    ensures EndianFix32(LoadWord(s)) == BytesToBits(s)
  {
    FourBytes(s);
  }

  lemma FourBytes(s: seq<Byte>)
    requires |s| == 4
    ensures BytesToBits(s) == ToBits(s[0], 8) + ToBits(s[1], 8) + ToBits(s[2], 8) + ToBits(s[3], 8)
  {
    assert s == [s[0]] + ([s[1]] + ([s[2]] + [s[3]]));
    BytesToBitsConcat([s[0]], [s[1]] + ([s[2]] + [s[3]]));
    BytesToBitsConcat([s[1]], [s[2]] + [s[3]]);
    BytesToBitsConcat([s[2]], [s[3]]);
    BytesToBitsOne(s[0]);
    BytesToBitsOne(s[1]);
    BytesToBitsOne(s[2]);
    BytesToBitsOne(s[3]);
  }
}
