/** Lists of bit fields: what the writer lays down, the reader gives back. */
module Fields {
  import opened Bits
  import opened BitWriting
  import opened BitReading

  /** One `bs_write( s, count, value )` or `bs_read( s, count )`. */
  datatype Field = Field(count: nat, value: nat) {
    ghost predicate Legal() {
      1 <= count <= 32 && value < Pow2(count)
    }
  }

  ghost predicate Legal(fs: seq<Field>) {
    forall i :: 0 <= i < |fs| ==> fs[i].Legal()
  }

  function Length(fs: seq<Field>): nat {
    if fs == [] then 0 else Length(fs[..|fs| - 1]) + fs[|fs| - 1].count
  }

  /** The bits of all fields, one after the other. */
  function FieldsBits(fs: seq<Field>): (b: seq<bool>)
    ensures |b| == Length(fs)
  {
    if fs == [] then [] else FieldsBits(fs[..|fs| - 1]) + ToBits(fs[|fs| - 1].value, fs[|fs| - 1].count)
  }

  lemma FieldsStep(fs: seq<Field>, k: nat)
    requires k < |fs|
    ensures FieldsBits(fs[..k + 1]) == FieldsBits(fs[..k]) + ToBits(fs[k].value, fs[k].count)
    ensures Length(fs[..k + 1]) == Length(fs[..k]) + fs[k].count
  {
    assert fs[..k + 1][..k] == fs[..k];
  }

  /** Earlier fields are laid down before later ones. */
  lemma {:induction false} FieldsPrefix(fs: seq<Field>, k: nat)
    requires k <= |fs|
    ensures FieldsBits(fs[..k]) <= FieldsBits(fs)
    decreases |fs| - k
  {
    if k < |fs| {
      FieldsPrefix(fs, k + 1);
      FieldsStep(fs, k);
    } else {
      assert fs[..k] == fs;
    }
  }

  /** Wherever a stream begins with the fields, field k reads back at its offset. */
  lemma {:induction false} FieldReadsBack(fs: seq<Field>, stream: seq<bool>, k: nat)
    requires Legal(fs) && k < |fs| && FieldsBits(fs) <= stream
    ensures Length(fs[..k]) + fs[k].count <= |stream|
    ensures FromBits(Window(stream, Length(fs[..k]), fs[k].count)) == fs[k].value
  {
    FieldsPrefix(fs, k + 1);
    FieldsStep(fs, k);
    WindowOf(stream, FieldsBits(fs[..k]), ToBits(fs[k].value, fs[k].count));
    assert fs[k].Legal();
    FromToBits(fs[k].value, fs[k].count);
  }

  lemma WindowOf(stream: seq<bool>, b: seq<bool>, f: seq<bool>)
    requires b + f <= stream
    ensures Window(stream, |b|, |f|) == f
  {
    var w := Window(stream, |b|, |f|);
    forall i | 0 <= i < |f|
      ensures w[i] == f[i]
    {
      assert stream[|b| + i] == (b + f)[|b| + i];
    }
  }

  // ----- the three write calls, with the list of fields written so far

  lemma FieldsSnoc(fs: seq<Field>, f: Field)
    ensures FieldsBits(fs + [f]) == FieldsBits(fs) + ToBits(f.value, f.count)
  {
    assert (fs + [f])[..|fs|] == fs;
  }

  method Put(s: BitWriter, n: nat, v: nat, ghost fs: seq<Field>) returns (ghost gs: seq<Field>)
    requires s.Valid() && s.Written() == FieldsBits(fs) && s.Room(n)
    requires n <= 32 && v < 0x1_0000_0000 && v < Pow2(n)
    modifies s, s.mem
    ensures s.Valid() && s.pStart == old(s.pStart)
    ensures gs == fs + [Field(n, v)] && s.Written() == FieldsBits(gs) && |s.Written()| == |old(s.Written())| + n
  {
    gs := fs + [Field(n, v)];
    FieldsSnoc(fs, Field(n, v));
    s.Write(n, v);
  }

  method PutBit(s: BitWriter, bit: nat, ghost fs: seq<Field>) returns (ghost gs: seq<Field>)
    requires s.Valid() && s.Written() == FieldsBits(fs) && s.Room(1) && bit < 2
    modifies s, s.mem
    ensures s.Valid() && s.pStart == old(s.pStart)
    ensures gs == fs + [Field(1, bit)] && s.Written() == FieldsBits(gs) && |s.Written()| == |old(s.Written())| + 1
  {
    gs := fs + [Field(1, bit)];
    FieldsSnoc(fs, Field(1, bit));
    assert ToBits(bit, 1) == [bit == 1];
    s.Write1(bit);
  }

  method PutWord(s: BitWriter, v: nat, ghost fs: seq<Field>) returns (ghost gs: seq<Field>)
    requires s.Valid() && s.Written() == FieldsBits(fs) && s.Room(32) && v < 0x1_0000_0000
    modifies s, s.mem
    ensures s.Valid() && s.pStart == old(s.pStart)
    ensures gs == fs + [Field(32, v)] && s.Written() == FieldsBits(gs) && |s.Written()| == |old(s.Written())| + 32
  {
    gs := fs + [Field(32, v)];
    FieldsSnoc(fs, Field(32, v));
    s.Write32(v);
  }

  /** One `bs_write` per field into an aligned buffer, then `bs_flush`. */
  method WriteFields(fs: seq<Field>) returns (data: seq<Byte>)
    requires Legal(fs)
    ensures BytesToBits(data) == Pad(FieldsBits(fs))
  {
    var mem := new Byte[Length(fs) / 8 + 5](_ => 0);
    var w := new BitWriter(mem, 0, mem.Length);
    assert w.Written() == [];
    for i := 0 to |fs|
      invariant w.mem == mem && w.pStart == 0 && w.Valid() && fresh(w)
      invariant w.Written() == FieldsBits(fs[..i])
    {
      FieldsStep(fs, i);
      FieldsPrefix(fs, i + 1);
      assert fs[i].Legal();
      Pow2Mono(fs[i].count, 32);
      Pow2Values();
      w.Write(fs[i].count, fs[i].value);
    }
    assert fs[..|fs|] == fs;
    w.Flush();
    data := mem[..w.p];
    assert w.curBits[64..] == [];
    assert data == mem[0..w.p];
  }

  /** One `bs_read` per field, with the same counts. */
  method ReadFields(data: seq<Byte>, fs: seq<Field>) returns (values: seq<nat>)
    requires Legal(fs) && FieldsBits(fs) <= BytesToBits(data)
    ensures |values| == |fs|
    ensures forall i :: 0 <= i < |fs| ==> values[i] == fs[i].value
  {
    var r := new BitReader(data);
    values := [];
    for i := 0 to |fs|
      invariant r.Valid() && r.data == data && fresh(r)
      invariant r.Position() == Length(fs[..i]) && |values| == i
      invariant forall j :: 0 <= j < i ==> values[j] == fs[j].value
    {
      FieldsStep(fs, i);
      FieldReadsBack(fs, BytesToBits(data), i);
      assert fs[i].Legal();
      var v := r.Read(fs[i].count);
      values := values + [v];
    }
  }

  /** Write then read is the identity on every list of fields. */
  method WriteThenRead(fs: seq<Field>) returns (values: seq<nat>)
    requires Legal(fs)
    ensures |values| == |fs|
    ensures forall i :: 0 <= i < |fs| ==> values[i] == fs[i].value
  {
    var data := WriteFields(fs);
    values := ReadFields(data, fs);
  }

  // ----- any mix of writer calls

  /** One call of the writer. */
  datatype Op =
    | Write(count: nat, value: nat)
    | Write1(bit: nat)
    | Write32(word: nat)
    | Flush
    | Align0
    | Realign
    | RbspTrailing
    | WriteBytes(bytes: seq<Byte>)
  {
    ghost predicate Legal() {
      match this
      case Write(n, v) => n <= 32 && v < Pow2(n)
      case Write1(b) => b < 2
      case Write32(v) => v < 0x1_0000_0000
      case _ => true
    }

    /** Everything is stored after the call. */
    predicate Flushes() {
      Flush? || Align0?
    }

    /** The bit string after the call. */
    function Effect(b: seq<bool>): seq<bool> {
      match this
      case Write(n, v) => b + ToBits(v, n)
      case Write1(bit) => b + [bit == 1]
      case Write32(v) => b + ToBits(v, 32)
      case Flush | Align0 => Pad(b)
      case Realign => b
      case RbspTrailing => Pad(b + [true])
      case WriteBytes(bytes) => Pad(b) + BytesToBits(bytes)
    }

    /** The most bits the call can add. */
    function Cost(): nat {
      match this
      case Write(n, _) => n
      case Write1(_) => 1
      case Write32(_) => 32
      case Flush | Align0 => 7
      case Realign => 0
      case RbspTrailing => 8
      case WriteBytes(bytes) => 7 + 8 * |bytes|
    }
  }

  /** Every call is legal, and `bs_realign` comes only when the stream has just been flushed. */
  ghost predicate LegalRun(flushed: bool, ops: seq<Op>) {
    forall i :: 0 <= i < |ops| ==> LegalCall(flushed, ops, i)
  }

  ghost predicate LegalCall(flushed: bool, ops: seq<Op>, i: nat)
    requires i < |ops|
  {
    ops[i].Legal() && (ops[i].Realign? ==> if i == 0 then flushed else ops[i - 1].Flushes())
  }

  function Effects(b: seq<bool>, ops: seq<Op>): seq<bool> {
    if ops == [] then b else ops[|ops| - 1].Effect(Effects(b, ops[..|ops| - 1]))
  }

  function Cost(ops: seq<Op>): nat {
    if ops == [] then 0 else Cost(ops[..|ops| - 1]) + ops[|ops| - 1].Cost()
  }

  lemma EffectsStep(b: seq<bool>, ops: seq<Op>, k: nat)
    requires k < |ops|
    ensures Effects(b, ops[..k + 1]) == ops[k].Effect(Effects(b, ops[..k]))
    ensures Cost(ops[..k + 1]) == Cost(ops[..k]) + ops[k].Cost()
  {
    assert ops[..k + 1][..k] == ops[..k];
  }

  lemma {:induction false} CostMono(ops: seq<Op>, k: nat)
    requires k <= |ops|
    ensures Cost(ops[..k]) <= Cost(ops)
    decreases |ops| - k
  {
    if k < |ops| {
      CostMono(ops, k + 1);
      EffectsStep([], ops, k);
    } else {
      assert ops[..k] == ops;
    }
  }

  /** Over any run of calls, from any reachable state and at any address, the writer's stored and
      pending bits are the plain concatenation of what the calls wrote. */
  method Perform(w: BitWriter, ops: seq<Op>)
    requires w.Valid() && w.Room(Cost(ops)) && LegalRun(w.iLeft == 64, ops)
    modifies w, w.mem
    ensures w.Valid() && w.pStart == old(w.pStart)
    ensures w.Written() == Effects(old(w.Written()), ops)
    ensures w.Untouched(old(w.mem[..]))
  {
    hide ToBits, BytesToBits, Pow2;
    ghost var b, flushed := w.Written(), w.iLeft == 64;
    for i := 0 to |ops|
      invariant w.Valid() && w.pStart == old(w.pStart)
      invariant w.Written() == Effects(b, ops[..i]) && |w.Written()| <= |b| + Cost(ops[..i])
      invariant w.Untouched(old(w.mem[..])) && |b| <= |w.Written()|
      invariant (if i == 0 then flushed else ops[i - 1].Flushes()) ==> w.iLeft == 64
    {
      EffectsStep(b, ops, i);
      CostMono(ops, i + 1);
      assert LegalCall(flushed, ops, i);
      PerformOne(w, ops[i]);
    }
    assert ops[..|ops|] == ops;
  }

  method PerformOne(w: BitWriter, op: Op)
    requires w.Valid() && w.Room(op.Cost()) && op.Legal() && (op.Realign? ==> w.iLeft == 64)
    modifies w, w.mem
    ensures w.Valid() && w.pStart == old(w.pStart)
    ensures w.Written() == op.Effect(old(w.Written())) && (op.Flushes() ==> w.iLeft == 64)
    ensures |old(w.Written())| <= |w.Written()| <= |old(w.Written())| + op.Cost()
    ensures w.Untouched(old(w.mem[..]))
  {
    hide ToBits, BytesToBits;
    match op
    case Write(n, v) =>
      Pow2Mono(n, 32);
      Pow2Values();
      w.Write(n, v);
    case Write1(bit) =>
      w.Write1(bit);
    case Write32(v) =>
      w.Write32(v);
    case Flush =>
      w.Flush();
    case Align0 =>
      w.Align0();
    case Realign =>
      w.Realign();
    case RbspTrailing =>
      w.RbspTrailing();
    case WriteBytes(bytes) =>
      w.WriteBytes(bytes);
  }
}
