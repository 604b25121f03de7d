/** The output smoother behind the multiplexer: `mux_start_smoothing` of mux/smoothing.c, run beside the
    multiplexer that fills its queue and the capture thread that may ask for a drop at any time. */
module MuxSmoothing {
  import opened Bits
  import opened Queues

  const TS_PACKET := 188
  const MAX_BUFFERED := 10000000

  /** Transport data with one clock reference per packet: a muxed item, the contents of the two FIFOs,
      or an output buffer. */
  datatype Chunk = Chunk(data: seq<Byte>, pcrs: seq<int>) {
    predicate Paired() {
      |data| == TS_PACKET * |pcrs|
    }

    function Append(c: Chunk): Chunk {
      Chunk(data + c.data, pcrs + c.pcrs)
    }

    /** The first n packets, as read from the two FIFOs. */
    function Take(n: nat): Chunk
      requires n <= |pcrs| && TS_PACKET * n <= |data|
    {
      Chunk(data[..TS_PACKET * n], pcrs[..n])
    }

    function Drop(n: nat): Chunk
      requires n <= |pcrs| && TS_PACKET * n <= |data|
    {
      Chunk(data[TS_PACKET * n..], pcrs[n..])
    }
  }

  const EMPTY := Chunk([], [])

  /** A packet with the clock reference that belongs to it. */
  datatype Packet = Packet(pcr: int, bytes: seq<Byte>)

  function Packets(c: Chunk): (p: seq<Packet>)
    requires c.Paired()
    ensures |p| == |c.pcrs|
  {
    seq(|c.pcrs|, j requires 0 <= j < |c.pcrs| => Packet(c.pcrs[j], c.data[TS_PACKET * j..TS_PACKET * j + TS_PACKET]))
  }

  predicate AllPaired(cs: seq<Chunk>) {
    forall i :: 0 <= i < |cs| ==> cs[i].Paired()
  }

  function AllPackets(cs: seq<Chunk>): seq<Packet>
    requires AllPaired(cs)
  {
    if cs == [] then [] else AllPackets(cs[..|cs| - 1]) + Packets(cs[|cs| - 1])
  }

  lemma AllPacketsSnoc(cs: seq<Chunk>, c: Chunk)
    requires AllPaired(cs) && c.Paired()
    ensures AllPaired(cs + [c]) && AllPackets(cs + [c]) == AllPackets(cs) + Packets(c)
  {
    assert (cs + [c])[..|cs|] == cs;
  }

  /** Appending data and clock references side by side keeps every packet with its own. */
  lemma PacketsAppend(a: Chunk, b: Chunk)
    requires a.Paired() && b.Paired()
    ensures a.Append(b).Paired() && Packets(a.Append(b)) == Packets(a) + Packets(b)
  {
    var c := a.Append(b);
    forall j | 0 <= j < |c.pcrs|
      ensures Packets(c)[j] == (Packets(a) + Packets(b))[j]
    {
      if j < |a.pcrs| {
        assert c.data[TS_PACKET * j..TS_PACKET * j + TS_PACKET] == a.data[TS_PACKET * j..TS_PACKET * j + TS_PACKET];
      } else {
        var i := j - |a.pcrs|;
        assert c.data[TS_PACKET * j..TS_PACKET * j + TS_PACKET] == b.data[TS_PACKET * i..TS_PACKET * i + TS_PACKET];
      }
    }
  }

  /** Reading the same number of packets from both FIFOs cuts the packets in one place. */
  lemma PacketsCut(c: Chunk, n: nat)
    requires c.Paired() && n <= |c.pcrs|
    ensures c.Take(n).Paired() && c.Drop(n).Paired()
    ensures Packets(c) == Packets(c.Take(n)) + Packets(c.Drop(n))
  {
    PacketsAppend(c.Take(n), c.Drop(n));
    assert c.Take(n).Append(c.Drop(n)) == c;
  }

  // ----- the thread's two loops

  class MuxSmoother {
    const queue: ObeQueue<Chunk>
    const output: ObeQueue<Chunk>
    const packetsPerPayload: nat
    const bufferTime: int
    var fifo: Chunk
    var drop: bool
    var bufferComplete: bool
    var numMuxed: nat

    ghost predicate Valid()
      reads this
    {
      packetsPerPayload > 0 && fifo.Paired() && queue != output
    }

    constructor (packetsPerPayload: nat, bufferTime: int, queue: ObeQueue<Chunk>, output: ObeQueue<Chunk>)
      requires packetsPerPayload > 0 && queue != output
      ensures Valid() && fifo == EMPTY && !drop && !bufferComplete && numMuxed == 0
      ensures this.queue == queue && this.output == output
      ensures this.packetsPerPayload == packetsPerPayload && this.bufferTime == bufferTime
    {
      this.packetsPerPayload, this.bufferTime, this.queue, this.output := packetsPerPayload, bufferTime, queue, output;
      fifo, drop, bufferComplete, numMuxed := EMPTY, false, false, 0;
    }

    /** The section under the queue's lock, after the wait for it to change: a reset that is due, or the
        buffering gate; `round` tells whether the items of `snapshot` are to be smoothed. */
    method Section() returns (round: bool, snapshot: seq<Chunk>)
      requires Valid() && queue.items != [] && forall c :: c in queue.items ==> c.Paired() && c.pcrs != []
      modifies this`fifo, this`drop, this`bufferComplete, this`numMuxed, queue
      ensures Valid() && !drop
      ensures old(drop) ==> !round && fifo == EMPTY && !bufferComplete && numMuxed == 0 && queue.items == []
      ensures !old(drop) ==>
                var q := old(queue.items);
                var last := q[|q| - 1].pcrs;
                && round == (old(bufferComplete) || last[|last| - 1] - q[0].pcrs[0] >= bufferTime)
                && bufferComplete == round && numMuxed == |q| && queue.items == q && fifo == old(fifo)
                && (round ==> snapshot == q)
    {
      round, snapshot := false, [];
      numMuxed := |queue.items|;
      if drop {
        drop, fifo, bufferComplete := false, EMPTY, false;
        var n := numMuxed;
        for i := 0 to n
          invariant |queue.items| == n - i
          modifies queue
        {
          queue.RemoveFirst();
        }
        numMuxed := 0;
        return;
      }
      if !bufferComplete {
        var start, end := queue.items[0], queue.items[numMuxed - 1];
        assert end in queue.items;
        if end.pcrs[|end.data| / TS_PACKET - 1] - start.pcrs[0] < bufferTime {
          return;
        }
        bufferComplete := true;
      }
      round, snapshot := true, queue.items;
    }

    /** Write each item of the snapshot to both FIFOs and take it off the queue. */
    method Drain(snapshot: seq<Chunk>)
      requires Valid() && AllPaired(snapshot) && snapshot <= queue.items
      modifies this`fifo, this`numMuxed, queue
      ensures Valid() && queue.items == old(queue.items)[|snapshot|..] && numMuxed == 0
      ensures Packets(fifo) == Packets(old(fifo)) + AllPackets(snapshot)
    {
      assert snapshot[..0] == [];
      for i := 0 to |snapshot|
        invariant Valid() && queue.items == old(queue.items)[i..] && i <= |old(queue.items)|
        invariant Packets(fifo) == Packets(old(fifo)) + AllPackets(snapshot[..i])
      {
        PacketsAppend(fifo, snapshot[i]);
        assert snapshot[..i + 1] == snapshot[..i] + [snapshot[i]];
        AllPacketsSnoc(snapshot[..i], snapshot[i]);
        fifo := Chunk(fifo.data + snapshot[i].data, fifo.pcrs + snapshot[i].pcrs);
        queue.RemoveFirst();
      }
      assert snapshot[..|snapshot|] == snapshot;
      numMuxed := 0;
    }

    /** A backlog that is given up as soon as it holds a payload. */
    predicate TooLong(length: nat) {
      length > MAX_BUFFERED && length >= TS_PACKET * packetsPerPayload
    }

    /** Cut payloads off the FIFOs while there is enough for one and nobody asked for a drop. Too long a
        backlog asks for one itself. */
    method Output()
      requires Valid() && AllPaired(output.items)
      modifies this`fifo, this`drop, output
      ensures Valid() && AllPaired(output.items) && old(output.items) <= output.items
      ensures AllPackets(output.items) + Packets(fifo) == AllPackets(old(output.items)) + Packets(old(fifo))
      ensures forall i :: |old(output.items)| <= i < |output.items| ==> |output.items[i].pcrs| == packetsPerPayload
      ensures drop || |fifo.data| < TS_PACKET * packetsPerPayload
      ensures drop == (old(drop) || (|old(fifo).data| > 10000000 && |old(fifo).data| >= 188 * packetsPerPayload))
    {
      while !drop && |fifo.data| >= TS_PACKET * packetsPerPayload
        invariant Valid() && AllPaired(output.items) && old(output.items) <= output.items
        invariant AllPackets(output.items) + Packets(fifo) == AllPackets(old(output.items)) + Packets(old(fifo))
        invariant forall i :: |old(output.items)| <= i < |output.items| ==> |output.items[i].pcrs| == packetsPerPayload
        invariant |fifo.data| <= |old(fifo).data|
        invariant drop ==> old(drop) || TooLong(|old(fifo).data|)
        invariant !drop ==> !old(drop) && (fifo == old(fifo) || |old(fifo).data| <= MAX_BUFFERED)
        decreases !drop, |fifo.data|
      {
        if |fifo.data| > MAX_BUFFERED {
          drop := true;
        } else {
          PacketsCut(fifo, packetsPerPayload);
          var buffer := Chunk(fifo.data[..TS_PACKET * packetsPerPayload], fifo.pcrs[..packetsPerPayload]);
          AllPacketsSnoc(output.items, buffer);
          fifo := Chunk(fifo.data[TS_PACKET * packetsPerPayload..], fifo.pcrs[packetsPerPayload..]);
          output.Add(buffer);
        }
      }
    }
  }
}
