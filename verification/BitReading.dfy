/** The bit reader of common/bs_read.h. */
module BitReading {
  import opened Bits

  /** n bits from position pos on, as far as the string goes; the missing ones are zero. */
  function Window(bits: seq<bool>, pos: nat, n: nat): (w: seq<bool>)
    ensures |w| == n
    ensures pos + n <= |bits| ==> w == bits[pos..pos + n]
  {
    seq(n, i requires 0 <= i < n => pos + i < |bits| && bits[pos + i])
  }

  class BitReader {
    const data: seq<Byte>
    var p: nat
    var iLeft: int

    ghost predicate Valid()
      reads this
    {
      1 <= iLeft <= 8
    }

    ghost function Bits(): seq<bool> {
      BytesToBits(data)
    }

    /** The next bit to be read; it may lie past the end. */
    ghost function Position(): nat
      requires Valid()
      reads this
    {
      8 * p + 8 - iLeft
    }

    /** `bs_read_init`. */
    constructor (data: seq<Byte>)
      ensures this.data == data && Valid() && Position() == 0
    {
      this.data := data;
      p, iLeft := 0, 8;
    }

    /** `bs_read_pos`. */
    method Pos() returns (pos: int)
      requires Valid()
      ensures pos == Position()
    {
      pos := 8 * p + 8 - iLeft;
    }

    /** `bs_read_eof`. */
    method Eof() returns (eof: bool)
      requires Valid()
      ensures eof <==> Position() >= |Bits()|
    {
      eof := p >= |data|;
    }

    /** `bs_read`: at the end of the data it stops, and the bits not read come out as zeros. */
    method Read(n: nat) returns (v: nat)
      requires Valid() && n <= 32
      modifies this
      ensures Valid()
      ensures v == FromBits(Window(Bits(), old(Position()), n))
      ensures Position() == if old(Position()) + n <= |Bits()| then old(Position()) + n
                            else if old(Position()) <= |Bits()| then |Bits()| else old(Position())
    {
      hide Window, Partial, FromBits, BytesToBits;
      var count := n;
      var result: Word32 := Zeros(32);
      ghost var start := Position();
      PartialNothing(Window(Bits(), start, n));
      while count > 0
        invariant 1 <= iLeft <= 8 && 0 <= count <= n
        invariant 8 * p + 8 - iLeft == start + (n - count)
        invariant count < n ==> 8 * p + 8 - iLeft <= 8 * |data|
        invariant result == Partial(Window(Bits(), start, n), n - count)
      {
        if p >= |data| {
          break;
        }
        var shr := iLeft - count;
        if shr >= 0 {
          result := PartOfByte(result, data[p], shr, count, data, p, start, n);
          iLeft := iLeft - count;
          if iLeft == 0 {
            p := p + 1;
            iLeft := 8;
          }
          count := 0;
        } else {
          result := RestOfByte(result, data[p], iLeft, -shr, data, p, start, n);
          count := count - iLeft;
          p := p + 1;
          iLeft := 8;
        }
      }
      v := FromBits(result);
      WindowPastEnd(Bits(), start, n, n - count);
    }

    /** `bs_read1`. */
    method Read1() returns (v: nat)
      requires Valid()
      modifies this
      ensures Valid()
      ensures v == FromBits(Window(Bits(), old(Position()), 1))
      ensures Position() == if old(Position()) < |Bits()| then old(Position()) + 1 else old(Position())
    {
      OneBit(Window(Bits(), Position(), 1));
      if p < |data| {
        BytesToBitsBit(data, p, 8 - iLeft);
        iLeft := iLeft - 1;
        v := BitOfByte(data[p], iLeft);
        if iLeft == 0 {
          p := p + 1;
          iLeft := 8;
        }
      } else {
        v := 0;
      }
    }

    /** `bs_show`: read without moving. */
    method Show(n: nat) returns (v: nat)
      requires Valid() && n <= 32
      ensures v == FromBits(Window(Bits(), Position(), n))
    {
      var tmp := new BitReader(data);
      tmp.p, tmp.iLeft := p, iLeft;
      v := tmp.Read(n);
    }

    /** `bs_skip`: unlike `bs_read` it moves on past the end of the data. */
    method Skip(n: nat)
      requires Valid()
      modifies this
      ensures Valid()
      ensures Position() == old(Position()) + n
    {
      iLeft := iLeft - n;
      if iLeft <= 0 {
        var bytes := (-iLeft + 8) / 8;
        p := p + bytes;
        iLeft := iLeft + 8 * bytes;
      }
    }
  }

  /** The word that holds the first `done` bits of a window at their final place. */
  ghost function Partial(window: seq<bool>, done: nat): (w: Word32)
    requires done <= |window| <= 32
  {
    seq(32, i requires 0 <= i < 32 =>
      var j := i - (32 - |window|); 0 <= j < done && window[j])
  }

  lemma PartialNothing(window: seq<bool>)
    requires |window| <= 32
    ensures Partial(window, 0) == Zeros(32)
  {
  }

  /** Past the end of the data the window is zero. */
  lemma WindowPastEnd(bits: seq<bool>, pos: nat, n: nat, done: nat)
    requires done <= n <= 32
    requires done < n ==> pos + done >= |bits|
    ensures FromBits(Partial(Window(bits, pos, n), done)) == FromBits(Window(bits, pos, n))
  {
    var w := Window(bits, pos, n);
    assert Partial(w, done) == Zeros(32 - n) + w;
    FromZeros(32 - n, w);
  }

  /** `(b >> left) & 1`. */
  method BitOfByte(b: Byte, left: nat) returns (v: nat)
    requires left < 8
    ensures v == if ToBits(b, 8)[7 - left] then 1 else 0
  {
    var w := Shr(ToBits(b, 8), left);
    v := FromBits(w[7..]);
    OneBit(w[7..]);
  }

  lemma OneBit(b: seq<bool>)
    requires |b| == 1
    ensures FromBits(b) == if b[0] then 1 else 0
  {
    assert b[..0] == [];
  }

  /** `result | ((b >> shr) & i_mask[count])`: the last `count` bits come from inside one byte. */
  method PartOfByte(result: Word32, b: Byte, shr: nat, count: nat,
                    ghost data: seq<Byte>, ghost p: nat, ghost start: nat, ghost n: nat) returns (w: Word32)
    requires count <= n <= 32 && shr + count <= 8
    requires p < |data| && b == data[p] && start + (n - count) == 8 * p + (8 - shr - count)
    requires result == Partial(Window(BytesToBits(data), start, n), n - count)
    ensures w == Partial(Window(BytesToBits(data), start, n), n)
  {
    var field := FieldOfByte(b, shr, count);
    w := Or(result, field);
    WindowInByte(data, p, start, n, n - count, 8 - shr - count, count);
  }

  /** `result | ((b & i_mask[left]) << rest)`: the rest of a byte, with `rest` bits to follow. */
  method RestOfByte(result: Word32, b: Byte, left: nat, rest: nat,
                    ghost data: seq<Byte>, ghost p: nat, ghost start: nat, ghost n: nat) returns (w: Word32)
    requires left <= 8 && left + rest <= n <= 32
    requires p < |data| && b == data[p] && start + (n - rest - left) == 8 * p + (8 - left)
    requires result == Partial(Window(BytesToBits(data), start, n), n - rest - left)
    ensures w == Partial(Window(BytesToBits(data), start, n), n - rest)
  {
    var field := FieldOfByte(b, 0, left);
    w := Or(result, Shl(field, rest));
    WindowInByte(data, p, start, n, n - rest - left, 8 - left, left);
  }

  /** `(b >> shr) & i_mask[count]`. */
  method FieldOfByte(b: Byte, shr: nat, count: nat) returns (w: Word32)
    requires shr + count <= 8
    ensures forall i :: 0 <= i < 32 ==> w[i] == (i >= 32 - count && ToBits(b, 8)[i - 24 - shr])
  {
    var mask := Zeros(32 - count) + Ones(count);
    Pow2Values();
    ToBitsExtend(b, 24, 8);
    w := And(Shr(ToBits(b, 32), shr), mask);
  }

  /** The part of the window that lies in byte p, from bit `from` of that byte on. */
  lemma WindowInByte(data: seq<Byte>, p: nat, start: nat, n: nat, done: nat, from: nat, k: nat)
    requires p < |data| && from + k <= 8 && done + k <= n
    requires start + done == 8 * p + from
    ensures forall i :: done <= i < done + k ==>
              Window(BytesToBits(data), start, n)[i] == ToBits(data[p], 8)[i - done + from]
  {
    forall i | done <= i < done + k
      ensures Window(BytesToBits(data), start, n)[i] == ToBits(data[p], 8)[i - done + from]
    {
      BytesToBitsBit(data, p, i - done + from);
    }
  }
}
