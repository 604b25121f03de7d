/** The RTP packet writer of output/ip/ip.c. */
module Rtp {
  import opened Bits
  import opened BitWriting
  import opened Fields

  const RTP_VERSION := 2
  const MPEG_TS_PAYLOAD_TYPE := 33
  const RTP_HEADER_SIZE := 12
  const MAX_TS_PACKETS_SIZE := 16 * 188

  /** C division of signed integers. */
  function TruncDiv(a: int, b: int): int
    requires b > 0
  {
    if a >= 0 then a / b else -((-a) / b)
  }

  /** The 27 MHz time in 90 kHz ticks, as a 32-bit field. */
  function Timestamp(time: int): (t: nat)
    ensures t < 0x1_0000_0000
  {
    TruncDiv(time, 300) % 0x1_0000_0000
  }

  /** The fixed header of section 5.1 of RFC 3550: V, P, X, CC, M, PT, sequence number, timestamp, SSRC. */
  ghost function Header(sequence: nat, timestamp: nat, ssrc: nat): seq<Field> {
    FirstWord(sequence) + [Field(32, timestamp)] + [Field(32, ssrc)]
  }

  ghost function FirstWord(sequence: nat): seq<Field> {
    FirstOctet() + [Field(1, 0)] + [Field(7, MPEG_TS_PAYLOAD_TYPE)] + [Field(16, sequence)]
  }

  ghost function FirstOctet(): seq<Field> {
    [] + [Field(2, RTP_VERSION)] + [Field(1, 0)] + [Field(1, 0)] + [Field(4, 0)]
  }

  class RtpContext {
    var sequence: nat
    const ssrc: nat
    var packets: nat
    var octets: nat

    ghost predicate Valid()
      reads this
    {
      sequence < 0x1_0000 && ssrc < 0x1_0000_0000 && packets < 0x1_0000_0000 && octets < 0x1_0000_0000
    }

    constructor (ssrc: nat)
      requires ssrc < 0x1_0000_0000
      ensures Valid() && this.ssrc == ssrc && sequence == packets == octets == 0
    {
      this.ssrc := ssrc;
      sequence, packets, octets := 0, 0, 0;
    }

    /** `write_rtp_pkt`; `sent` is what the socket reports. What is sent is the header and as many bytes as
        the payload size says, whatever the length of the data. A failed send still uses up its number. */
    method WritePacket(data: seq<Byte>, payloadSize: nat, timestamp: int, sent: bool) returns (pkt: seq<Byte>)
      requires Valid() && |data| <= MAX_TS_PACKETS_SIZE && payloadSize <= MAX_TS_PACKETS_SIZE
      modifies this
      ensures Valid() && |pkt| == RTP_HEADER_SIZE + payloadSize
      ensures payloadSize <= |data| ==> pkt[RTP_HEADER_SIZE..] == data[..payloadSize]
      ensures |data| <= payloadSize ==> pkt[RTP_HEADER_SIZE..RTP_HEADER_SIZE + |data|] == data
      ensures BytesToBits(pkt[..RTP_HEADER_SIZE])
           == FieldsBits(Header(old(sequence), Timestamp(timestamp), ssrc))
      ensures sequence == (old(sequence) + 1) % 0x1_0000
      ensures packets == if sent then (old(packets) + 1) % 0x1_0000_0000 else old(packets)
      ensures octets == if sent then (old(octets) + |data|) % 0x1_0000_0000 else old(octets)
    {
      var buf := new Byte[RTP_HEADER_SIZE + MAX_TS_PACKETS_SIZE](_ => 0);
      WriteHeader(buf, sequence, TruncDiv(timestamp, 300) % 0x1_0000_0000, ssrc);
      sequence := (sequence + 1) % 0x1_0000;
      pkt := Filled(buf, data, payloadSize);
      if sent {
        packets := (packets + 1) % 0x1_0000_0000;
        octets := (octets + |data|) % 0x1_0000_0000;
      }
    }
  }

  /** `memcpy` of the data behind the header, and the bytes handed to the socket. */
  method Filled(buf: array<Byte>, data: seq<Byte>, payloadSize: nat) returns (pkt: seq<Byte>)
    requires buf.Length == RTP_HEADER_SIZE + MAX_TS_PACKETS_SIZE
    requires |data| <= MAX_TS_PACKETS_SIZE && payloadSize <= MAX_TS_PACKETS_SIZE
    modifies buf
    ensures |pkt| == RTP_HEADER_SIZE + payloadSize && pkt[..RTP_HEADER_SIZE] == old(buf[..RTP_HEADER_SIZE])
    ensures payloadSize <= |data| ==> pkt[RTP_HEADER_SIZE..] == data[..payloadSize]
    ensures |data| <= payloadSize ==> pkt[RTP_HEADER_SIZE..RTP_HEADER_SIZE + |data|] == data
  {
    forall i | 0 <= i < |data| {
      buf[RTP_HEADER_SIZE + i] := data[i];
    }
    pkt := buf[..RTP_HEADER_SIZE + payloadSize];
    assert pkt[..RTP_HEADER_SIZE] == buf[..RTP_HEADER_SIZE];
  }

  method WriteHeader(buf: array<Byte>, sequence: nat, timestamp: nat, ssrc: nat)
    requires buf.Length >= RTP_HEADER_SIZE + 4
    requires sequence < 0x1_0000 && timestamp < 0x1_0000_0000 && ssrc < 0x1_0000_0000
    modifies buf
    ensures BytesToBits(buf[..RTP_HEADER_SIZE]) == FieldsBits(Header(sequence, timestamp, ssrc))
  {
    var s := new BitWriter(buf, 0, buf.Length);
    assert s.Written() == [];
    WriteFirstWord(s, sequence);
    ghost var fs := PutWord(s, timestamp, FirstWord(sequence));
    fs := PutWord(s, ssrc, fs);
    Finish(s, fs, RTP_HEADER_SIZE);
  }

  method WriteFirstWord(s: BitWriter, sequence: nat)
    requires s.Valid() && s.Written() == [] && s.Room(32) && sequence < 0x1_0000
    modifies s, s.mem
    ensures s.Valid() && s.pStart == old(s.pStart)
    ensures s.Written() == FieldsBits(FirstWord(sequence)) && |s.Written()| == 32
  {
    assert Pow2(7) == 128;
    Pow2Values();
    WriteFirstOctet(s);
    ghost var fs := PutBit(s, 0, FirstOctet());
    fs := Put(s, 7, MPEG_TS_PAYLOAD_TYPE, fs);
    fs := Put(s, 16, sequence, fs);
  }

  method WriteFirstOctet(s: BitWriter)
    requires s.Valid() && s.Written() == [] && s.Room(8)
    modifies s, s.mem
    ensures s.Valid() && s.pStart == old(s.pStart)
    ensures s.Written() == FieldsBits(FirstOctet()) && |s.Written()| == 8
  {
    assert Pow2(2) == 4 && Pow2(4) == 16;
    ghost var fs := Put(s, 2, RTP_VERSION, []);
    fs := PutBit(s, 0, fs);
    fs := PutBit(s, 0, fs);
    fs := Put(s, 4, 0, fs);
  }

  /** `bs_flush` on whole bytes. */
  method Finish(s: BitWriter, ghost fs: seq<Field>, ghost n: nat)
    requires s.Valid() && s.pStart == 0 && s.Written() == FieldsBits(fs) && |s.Written()| == 8 * n
    modifies s, s.mem
    ensures n <= s.mem.Length && BytesToBits(s.mem[..n]) == FieldsBits(fs)
  {
    s.Flush();
    assert s.curBits[64..] == [];
    assert s.mem[0..n] == s.mem[..n];
  }

  /** Any receiver that reads the header field by field gets back what was sent. */
  lemma HeaderParses(header: seq<bool>, sequence: nat, timestamp: nat, ssrc: nat)
    requires sequence < 0x1_0000 && timestamp < 0x1_0000_0000 && ssrc < 0x1_0000_0000
    requires header == FieldsBits(Header(sequence, timestamp, ssrc))
    ensures |header| == 8 * RTP_HEADER_SIZE
    ensures FromBits(header[0..2]) == 2
    ensures FromBits(header[2..3]) == FromBits(header[3..4]) == FromBits(header[4..8]) == FromBits(header[8..9]) == 0
    ensures FromBits(header[9..16]) == 33
    ensures FromBits(header[16..32]) == sequence
    ensures FromBits(header[32..64]) == timestamp
    ensures FromBits(header[64..96]) == ssrc
  {
    Pow2Values();
    var o := FirstOctet();
    var w := FirstWord(sequence);
    var h := Header(sequence, timestamp, ssrc);
    Last(header, w + [Field(32, timestamp)], Field(32, ssrc));
    Last(header, w, Field(32, timestamp));
    Last(header, o + [Field(1, 0)] + [Field(7, MPEG_TS_PAYLOAD_TYPE)], Field(16, sequence));
    Last(header, o + [Field(1, 0)], Field(7, MPEG_TS_PAYLOAD_TYPE));
    Last(header, o, Field(1, 0));
    var o1 := [] + [Field(2, RTP_VERSION)];
    Last(header, o1 + [Field(1, 0)] + [Field(1, 0)], Field(4, 0));
    Last(header, o1 + [Field(1, 0)], Field(1, 0));
    Last(header, o1, Field(1, 0));
    Last(header, [], Field(2, RTP_VERSION));
  }

  /** The timestamp a receiver reads is n modulo 2^32, where n is the time in ticks of 300, cut off towards zero. */
  lemma TimestampParses(header: seq<bool>, sequence: nat, time: int, ssrc: nat, n: int)
    requires sequence < 0x1_0000 && ssrc < 0x1_0000_0000
    requires header == FieldsBits(Header(sequence, Timestamp(time), ssrc))
    requires if time >= 0 then 300 * n <= time < 300 * n + 300 else 300 * n - 300 < time <= 300 * n
    ensures |header| == 96 && FromBits(header[32..64]) == n % 0x1_0000_0000
  {
    hide Header, FieldsBits, FromBits, Timestamp, TruncDiv;
    TimestampIs(time, n);
    HeaderParses(header, sequence, Timestamp(time), ssrc);
  }

  lemma TimestampIs(time: int, n: int)
    requires if time >= 0 then 300 * n <= time < 300 * n + 300 else 300 * n - 300 < time <= 300 * n
    ensures Timestamp(time) == n % 0x1_0000_0000
  {
  }

  /** Where a field lies in a stream that begins with the fields up to it. */
  lemma Last(header: seq<bool>, fs: seq<Field>, f: Field)
    requires FieldsBits(fs + [f]) <= header && f.value < Pow2(f.count)
    ensures FieldsBits(fs) <= header
    ensures |FieldsBits(fs + [f])| == |FieldsBits(fs)| + f.count <= |header|
    ensures FromBits(header[|FieldsBits(fs)|..|FieldsBits(fs + [f])|]) == f.value
  {
    FieldsSnoc(fs, f);
    WindowOf(header, FieldsBits(fs), ToBits(f.value, f.count));
    FromToBits(f.value, f.count);
  }
}
