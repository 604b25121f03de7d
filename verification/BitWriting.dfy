/** The bit writer of common/bitstream.h on a 64-bit little-endian machine, with `write_bytes`
    of filters/video/cc.c and input/sdi/vbi.c. Addresses are indices into one byte array whose
    index 0 is 4-aligned. */
module BitWriting {
  import opened Bits

  class BitWriter {
    const mem: array<Byte>
    var pStart: nat
    var p: nat
    var pEnd: int
    var curBits: Word64
    var iLeft: int

    /** `curBits` holds the last 64 bits shifted in. Only its low 64 - iLeft bits are still to be
        stored; the bits above them are left over from earlier words. Four bytes can always be
        stored at the byte after the last started one. */
    ghost predicate Valid()
      reads this, mem
    {
      && pStart % 4 == 0
      && pStart <= p
      && 32 < iLeft <= 64
      && 8 * p + (64 - iLeft) + 32 <= 8 * mem.Length
    }

    /** The bits already in memory. */
    ghost function Stored(): (b: seq<bool>)
      requires pStart <= p <= mem.Length
      reads this, mem
      ensures |b| == 8 * (p - pStart)
    {
      BytesToBits(mem[pStart..p])
    }

    /** Every bit from `pStart` on: the stored bytes, then the pending low bits of `curBits`. */
    ghost function Written(): (b: seq<bool>)
      requires Valid()
      reads this, mem
      ensures |b| == 8 * (p - pStart) + 64 - iLeft
    {
      Stored() + curBits[iLeft..]
    }

    /** Room for n more bits and the four bytes a flush may overwrite after them. */
    ghost predicate Room(n: nat)
      requires Valid()
      reads this, mem
    {
      8 * pStart + |Written()| + n + 32 <= 8 * mem.Length
    }

    /** Memory outside the stream and the four bytes after it is as it was in `before`. */
    ghost predicate Untouched(before: seq<Byte>)
      requires Valid()
      reads this, mem
    {
      && |before| == mem.Length
      && forall i :: 0 <= i < mem.Length && (i < pStart || i >= pStart + (|Written()| + 7) / 8 + 4)
                     ==> mem[i] == before[i]
    }

    constructor (mem: array<Byte>, addr: nat, length: int)
      requires addr + 4 <= mem.Length
      ensures this.mem == mem && Valid()
      ensures pStart == addr - addr % 4 && pEnd == addr + length
      ensures Written() == BytesToBits(mem[pStart..addr])
    {
      this.mem := mem;
      pStart, p, pEnd, curBits, iLeft := 0, 0, 0, Zeros(64), 64;
      new;
      Init(addr, length);
    }

    /** `bs_init`: start writing at any address; the bytes before it in its word become pending. */
    method Init(addr: nat, length: int)
      requires addr + 4 <= mem.Length
      modifies this
      ensures Valid()
      ensures pStart == p == addr - addr % 4 && pEnd == addr + length
      ensures Written() == BytesToBits(mem[pStart..addr])
    {
      var offset := addr % 4;
      pStart := addr - offset;
      p := pStart;
      pEnd := addr + length;
      iLeft := (8 - offset) * 8;
      LoadBefore(offset);
    }

    /** The tail shared by `bs_init` and `bs_realign`: load the word at `p` and keep its first
        `offset` bytes as pending bits. */
    method LoadBefore(offset: nat)
      requires offset < 4 && p + 4 <= mem.Length
      modifies this`curBits
      ensures curBits[64 - 8 * offset..] == BytesToBits(mem[p..p + offset])
    {
      curBits := Extend(EndianFix32(LoadWord(mem[p..p + 4])));
      LoadFixed(mem[p..p + 4]);
      curBits := Shr(curBits, (4 - offset) * 8);
      assert curBits[64 - 8 * offset..] == BytesToBits(mem[p..p + 4])[0..8 * offset];
      BytesToBitsSlice(mem[p..p + 4], 0, offset);
      assert mem[p..p + 4][0..offset] == mem[p..p + offset];
    }

    /** `bs_pos`. */
    method Pos() returns (pos: int)
      requires Valid()
      ensures pos == |Written()|
    {
      pos := 8 * (p - pStart) + 64 - iLeft;
    }

    /** Store four bytes at `p` and move on by k of them. */
    method Store(s: seq<Byte>, k: nat)
      requires |s| == 4 && k <= 4 && pStart <= p && p + 4 <= mem.Length
      modifies this`p, mem
      ensures p == old(p) + k
      ensures Stored() == old(Stored()) + BytesToBits(s)[..8 * k]
      ensures forall i :: 0 <= i < mem.Length && (i < old(p) || i >= old(p) + 4) ==> mem[i] == old(mem[i])
    {
      ghost var before := mem[pStart..p];
      mem[p], mem[p + 1], mem[p + 2], mem[p + 3] := s[0], s[1], s[2], s[3];
      p := p + k;
      assert mem[pStart..p] == before + s[..k];
      BytesToBitsAppend(before, s, k);
    }

    /** `bs_flush`: store the pending bits, completed with zeros to whole bytes. */
    method Flush()
      requires Valid()
      modifies this`p, this`iLeft, mem
      ensures Valid() && iLeft == 64
      ensures Written() == Pad(old(Written()))
      ensures Untouched(old(mem[..]))
    {
      var word := FlushedWord(curBits, iLeft);
      PadAppend(Stored(), curBits[iLeft..]);
      Store(word, 8 - iLeft / 8);
      iLeft := 64;
      assert curBits[64..] == [];
    }

    /** `bs_realign`: after a flush, take the bytes of the last unfinished word back as pending. */
    method Realign()
      requires Valid() && iLeft == 64
      modifies this`p, this`iLeft, this`curBits
      ensures Valid() && p % 4 == 0
      ensures Written() == old(Written())
    {
      var offset := p % 4;
      if offset != 0 {
        p := p - offset;
        iLeft := (8 - offset) * 8;
        LoadBefore(offset);
        assert mem[pStart..p + offset] == mem[pStart..p] + mem[p..p + offset];
        BytesToBitsConcat(mem[pStart..p], mem[p..p + offset]);
      }
      assert old(curBits[64..]) == [];
    }

    /** `bs_write`: append the n low bits of v. A caller may pass a v wider than n bits only when
        its surplus bits are already set at the end of `curBits`, where they are or-ed in. */
    method Write(n: nat, v: nat)
      requires Valid() && n <= 32 && v < 0x1_0000_0000 && Room(n)
      requires v < Pow2(n) || SurplusSet(curBits, n, v)
      modifies this`p, this`iLeft, this`curBits, mem
      ensures Valid()
      ensures Written() == old(Written()) + ToBits(v, n)
      ensures curBits == old(curBits)[n..] + ToBits(v, n)
      ensures Untouched(old(mem[..]))
    {
      hide ToBits, BytesToBits, Pow2;
      PendingGrows(Stored(), curBits, iLeft, ToBits(v, n));
      curBits := ShiftIn(curBits, n, v);
      iLeft := iLeft - n;
      if iLeft <= 32 {
        var word := OldestWord(curBits, iLeft);
        MoveWord(Stored(), curBits, iLeft);
        Store(word, 4);
        iLeft := iLeft + 32;
      }
    }

    /** `bs_write1`. */
    method Write1(bit: nat)
      requires Valid() && bit < 2 && Room(1)
      modifies this`p, this`iLeft, this`curBits, mem
      ensures Valid()
      ensures Written() == old(Written()) + [bit == 1]
      ensures curBits == old(curBits)[1..] + [bit == 1]
      ensures Untouched(old(mem[..]))
    {
      assert ToBits(bit, 1) == [bit == 1];
      PendingGrows(Stored(), curBits, iLeft, [bit == 1]);
      curBits := ShiftIn(curBits, 1, bit);
      iLeft := iLeft - 1;
      if iLeft == 64 - 32 {
        var word := SwappedWord(Truncate(curBits));
        MoveWord(Stored(), curBits, iLeft);
        Store(word, 4);
        iLeft := 64;
      }
    }

    /** `bs_write32`: the second call passes all 32 bits; the upper half it or-s in is what the
        first call has just shifted in, so exactly the 32 bits are appended. */
    method Write32(v: nat)
      requires Valid() && v < 0x1_0000_0000 && Room(32)
      modifies this`p, this`iLeft, this`curBits, mem
      ensures Valid()
      ensures Written() == old(Written()) + ToBits(v, 32)
      ensures Untouched(old(mem[..]))
    {
      Pow2Values();
      Halves(Written(), v);
      Write(16, v / 0x1_0000);
      UpperHalfIsSet(curBits, v);
      Write(16, v);
    }

    /** `bs_align_0`. */
    method Align0()
      requires Valid() && Room(7)
      modifies this`p, this`iLeft, this`curBits, mem
      ensures Valid() && iLeft == 64
      ensures Written() == Pad(old(Written()))
      ensures Untouched(old(mem[..]))
    {
      ghost var before := Written();
      PaddingLength(|before|, p - pStart, iLeft);
      ToBitsZero(iLeft % 8);
      Write(iLeft % 8, 0);
      PadOnce(before);
      Flush();
    }

    /** `bs_rbsp_trailing`: a stop bit, then zeros up to the next byte boundary. */
    method RbspTrailing()
      requires Valid() && Room(8)
      modifies this`p, this`iLeft, this`curBits, mem
      ensures Valid()
      ensures Written() == Pad(old(Written()) + [true])
      ensures Untouched(old(mem[..]))
    {
      Write1(1);
      PaddingLength(|Written()|, p - pStart, iLeft);
      ToBitsZero(iLeft % 8);
      Write(iLeft % 8, 0);
    }

    /** `write_bytes`: flush, copy the bytes, and start again at the byte after them, wherever it
        lies in its word. */
    method WriteBytes(bytes: seq<Byte>)
      requires Valid() && Room(7 + 8 * |bytes|)
      modifies this, mem
      ensures Valid() && pStart == old(pStart) && pEnd == old(pEnd)
      ensures Written() == Pad(old(Written())) + BytesToBits(bytes)
      ensures Untouched(old(mem[..]))
    {
      Flush();
      Copy(bytes);
      Reopen();
    }

    /** `memcpy(s->p, bytes, length); s->p += length`. */
    method Copy(bytes: seq<Byte>)
      requires Valid() && iLeft == 64 && Room(8 * |bytes|)
      modifies this`p, mem
      ensures Valid()
      ensures Written() == old(Written()) + BytesToBits(bytes)
      ensures Untouched(old(mem[..]))
    {
      ghost var before := mem[pStart..p];
      forall i | 0 <= i < |bytes| {
        mem[p + i] := bytes[i];
      }
      p := p + |bytes|;
      assert mem[pStart..p] == before + bytes;
      BytesToBitsConcat(before, bytes);
      assert curBits[64..] == [];
    }

    /** `bs_init` at `p`, with the start of the stream carried over. */
    method Reopen()
      requires Valid() && iLeft == 64
      modifies this
      ensures Valid() && pStart == old(pStart) && pEnd == old(pEnd)
      ensures Written() == old(Written())
    {
      var start := pStart;
      ghost var addr := p;
      AlignedDown(start, addr);
      assert curBits[64..] == [];
      Init(p, pEnd - p);
      Reopened(mem[..], start, p, addr);
      assert mem[..][start..addr] == mem[start..addr];
      assert mem[..][p..addr] == mem[p..addr] && mem[..][start..p] == mem[start..p];
      assert Stored() == [];
      pStart := start;
    }
  }

  /** The bits of a 32-bit v above its low n are all set where they will be or-ed in. */
  ghost predicate SurplusSet(cur: Word64, n: nat, v: nat)
    requires n <= 32
  {
    forall i :: 0 <= i < 32 - n && ToBits(v, 32)[i] ==> cur[32 + n + i]
  }

  /** `(cur << n) | v`: the n low bits of v are appended when its other bits add nothing. */
  method ShiftIn(cur: Word64, n: nat, v: nat) returns (w: Word64)
    requires n <= 32 && v < 0x1_0000_0000
    requires v < Pow2(n) || SurplusSet(cur, n, v)
    ensures w == cur[n..] + ToBits(v, n)
  {
    w := Or(Shl(cur, n), Extend(ToBits(v, 32)));
    if v < Pow2(n) {
      ToBitsExtend(v, 32 - n, n);
    }
    forall i | 0 <= i < 64
      ensures w[i] == (cur[n..] + ToBits(v, n))[i]
    {
      if i >= 64 - n {
        ToBitsSuffix(v, 32 - n, n, i - (64 - n));
      }
    }
  }

  /** The bytes stored for `endian_fix32(w)`. */
  method SwappedWord(w: Word32) returns (s: seq<Byte>)
    ensures |s| == 4 && BytesToBits(s) == w
  {
    s := StoreBytes(EndianFix32(w));
    StoreFixed(w);
  }

  /** The bytes `bs_write` stores once at least 32 bits are pending: the oldest 32, in order. */
  method OldestWord(cur: Word64, iLeft: int) returns (s: seq<Byte>)
    requires 0 <= iLeft <= 32
    ensures |s| == 4 && BytesToBits(s) == cur[iLeft..iLeft + 32]
  {
    s := StoreBytes(Truncate(EndianFix64(Shl(cur, iLeft))));
    ghost var w := Shl(cur, iLeft);
    assert Truncate(EndianFix64(w)) == EndianFix32(w[..32]);
    StoreFixed(w[..32]);
  }

  /** The bytes `bs_flush` stores begin with the pending bits and their padding. */
  method FlushedWord(cur: Word64, iLeft: int) returns (s: seq<Byte>)
    requires 32 < iLeft <= 64
    ensures |s| == 4 && |Pad(cur[iLeft..])| == 8 * (8 - iLeft / 8) <= 32
    ensures BytesToBits(s)[..8 * (8 - iLeft / 8)] == Pad(cur[iLeft..])
  {
    s := SwappedWord(Truncate(Shl(cur, iLeft % 32)));
    if iLeft < 64 {
      assert Truncate(Shl(cur, iLeft % 32)) == cur[iLeft..] + Zeros(iLeft - 32);
    }
    FlushedLength(cur[iLeft..]);
  }

  lemma FlushedLength(b: seq<bool>)
    requires |b| < 32
    ensures |Pad(b)| == 8 * (8 - (64 - |b|) / 8) <= 32
  {
  }

  /** Shifting bits in appends them to the pending part. */
  lemma PendingGrows(stored: seq<bool>, cur: Word64, iLeft: int, b: seq<bool>)
    requires |b| <= iLeft <= 64
    ensures stored + (cur[|b|..] + b)[iLeft - |b|..] == stored + cur[iLeft..] + b
  {
    assert (cur[|b|..] + b)[iLeft - |b|..] == cur[iLeft..] + b;
  }

  /** What is missing from the last byte shows in `iLeft`. */
  lemma PaddingLength(n: nat, stored: nat, iLeft: int)
    requires 0 <= iLeft <= 64 && n == 8 * stored + 64 - iLeft
    ensures Padding(n) == Zeros(iLeft % 8)
    ensures iLeft % 8 == 0 <==> n % 8 == 0
  {
    var a, b := iLeft / 8, iLeft % 8;
    if b == 0 {
      assert n == 8 * (stored + 8 - a);
    } else {
      assert n == 8 * (stored + 7 - a) + (8 - b);
    }
  }

  lemma AlignedDown(start: nat, addr: nat)
    requires start % 4 == 0 && start <= addr
    ensures start <= addr - addr % 4
  {
  }

  /** Stored and pending bytes after re-initialisation make up the bytes up to `addr`. */
  lemma Reopened(m: seq<Byte>, start: nat, p: nat, addr: nat)
    requires start <= p <= addr <= |m|
    ensures BytesToBits(m[start..addr]) == BytesToBits(m[start..p]) + BytesToBits(m[p..addr])
  {
    assert m[start..addr] == m[start..p] + m[p..addr];
    BytesToBitsConcat(m[start..p], m[p..addr]);
  }

  /** Storing a word moves 32 bits from the pending to the stored part. */
  lemma MoveWord(stored: seq<bool>, cur: Word64, iLeft: int)
    requires 0 <= iLeft <= 32
    ensures stored + cur[iLeft..iLeft + 32] + cur[iLeft + 32..] == stored + cur[iLeft..]
  {
  }

  /** After its upper half has been shifted in, the surplus bits of a word are set. */
  lemma UpperHalfIsSet(cur: Word64, v: nat)
    requires v < 0x1_0000_0000 && cur[48..] == ToBits(v / 0x1_0000, 16)
    ensures SurplusSet(cur, 16, v)
  {
    ToBitsPrefix(v, 16);
  }

  lemma Halves(b: seq<bool>, v: nat)
    ensures b + ToBits(v / 0x1_0000, 16) + ToBits(v, 16) == b + ToBits(v, 32)
  {
    ToBitsPrefix(v, 16);
    forall i | 0 <= i < 16
      ensures ToBits(v, 32)[16 + i] == ToBits(v, 16)[i]
    {
      ToBitsSuffix(v, 16, 16, i);
    }
  }
}
