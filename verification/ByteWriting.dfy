/** The bit writer and reader used a whole byte at a time, as the packet formats use them. */
module ByteWriting {
  import opened Bits
  import opened BitWriting
  import opened BitReading

  /** The bytes a writer at address 0 has written; every unit of the format is whole bytes. */
  ghost predicate Holds(s: BitWriter, bytes: seq<Byte>)
    reads s, s.mem
  {
    s.Valid() && s.pStart == 0 && s.Written() == BytesToBits(bytes)
  }

  /** `bs_write( s, 8, b )` after whole bytes. */
  method PutByte(s: BitWriter, b: Byte, ghost bytes: seq<Byte>) returns (ghost r: seq<Byte>)
    requires Holds(s, bytes) && |bytes| + 5 <= s.mem.Length
    modifies s, s.mem
    ensures r == bytes + [b] && Holds(s, r)
  {
    Pow2Values();
    r := bytes + [b];
    BytesToBitsConcat(bytes, [b]);
    BytesToBitsOne(b);
    s.Write(8, b);
  }

  /** `write_bytes` after whole bytes. */
  method PutBytes(s: BitWriter, added: seq<Byte>, ghost bytes: seq<Byte>) returns (ghost r: seq<Byte>)
    requires Holds(s, bytes) && |bytes| + |added| + 5 <= s.mem.Length
    modifies s, s.mem
    ensures r == bytes + added && Holds(s, r)
  {
    r := bytes + added;
    PadBytes(bytes);
    BytesToBitsConcat(bytes, added);
    s.WriteBytes(added);
  }

  /** `bs_flush` and the length `bs_pos( s ) >> 3`. */
  method FlushBytes(s: BitWriter, ghost bytes: seq<Byte>) returns (len: nat)
    requires Holds(s, bytes)
    modifies s, s.mem
    ensures len == |bytes| <= s.mem.Length && s.mem[..len] == bytes
  {
    PadBytes(bytes);
    s.Flush();
    var pos := s.Pos();
    len := pos / 8;
    assert s.curBits[64..] == [];
    assert s.mem[..len] == s.mem[0..s.p];
    BytesToBitsInjective(s.mem[..len], bytes);
  }

  lemma PadBytes(bytes: seq<Byte>)
    ensures Pad(BytesToBits(bytes)) == BytesToBits(bytes)
  {
  }

  /** A loop of byte writes. */
  method PutAll(s: BitWriter, list: seq<Byte>, ghost bytes: seq<Byte>) returns (ghost r: seq<Byte>)
    requires Holds(s, bytes) && |bytes| + |list| + 4 <= s.mem.Length
    modifies s, s.mem
    ensures r == bytes + list && Holds(s, r)
  {
    r := bytes;
    assert bytes == bytes + list[..0];
    for i := 0 to |list|
      invariant Holds(s, r) && r == bytes + list[..i]
    {
      OneMore(bytes, list, i);
      r := PutByte(s, list[i], r);
    }
    assert list[..|list|] == list;
  }

  lemma OneMore(bytes: seq<Byte>, list: seq<Byte>, i: nat)
    requires i < |list|
    ensures bytes + list[..i] + [list[i]] == bytes + list[..i + 1]
  {
  }

  /** `bs_read( s, 8 )` at a byte boundary. */
  method ReadByte(r: BitReader, ghost k: nat) returns (v: Byte)
    requires r.Valid() && r.Position() == 8 * k && k < |r.data|
    modifies r
    ensures v == r.data[k]
    ensures r.Valid() && r.Position() == 8 * (k + 1)
  {
    ByteWindow(r.data, k);
    Pow2Values();
    FromToBits(r.data[k], 8);
    v := r.Read(8);
  }

  lemma ByteWindow(data: seq<Byte>, k: nat)
    requires k < |data|
    ensures Window(BytesToBits(data), 8 * k, 8) == ToBits(data[k], 8)
  {
    forall i | 0 <= i < 8
      ensures Window(BytesToBits(data), 8 * k, 8)[i] == ToBits(data[k], 8)[i]
    {
      BytesToBitsBit(data, k, i);
    }
  }

  lemma WindowSplit(bits: seq<bool>, pos: nat, m: nat, n: nat)
    ensures Window(bits, pos, m + n) == Window(bits, pos, m) + Window(bits, pos + m, n)
  {
  }
}
