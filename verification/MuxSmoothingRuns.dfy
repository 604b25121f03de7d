/** Whole runs of the multiplexer smoother, as interleavings of atomic steps. */
module MuxSmoothingRuns {
  import opened MuxSmoothing
  import opened Sequences

  datatype Phase = Idle | Draining(snapshot: seq<Chunk>, next: nat) | Outputting

  /** `drained` and `outputs` hold what went through the FIFOs since the last drop reset, `taken` every
      item ever taken off the queue. */
  datatype State = State(queue: seq<Chunk>, known: nat, complete: bool, drop: bool, fifo: Chunk, phase: Phase,
                         drained: seq<Chunk>, outputs: seq<Chunk>, taken: seq<Chunk>, appended: seq<Chunk>)

  /** The fixed settings: packets per payload and the buffering time in clock ticks. */
  datatype Config = Config(packets: nat, bufferTime: int)

  /** `Append` is the multiplexer's step, `AskDrop` the capture thread's; the others are the smoother's. */
  datatype Step = Append(item: Chunk) | AskDrop | Section | DrainOne | OutputOne | EndRound

  const INITIAL := State([], 0, false, false, EMPTY, Idle, [], [], [], [])

  predicate WellFormed(c: Chunk) {
    c.Paired() && c.pcrs != []
  }

  predicate Enabled(cfg: Config, s: State, step: Step) {
    match step
    case Append(c) => WellFormed(c)
    case AskDrop => true
    case Section => s.phase.Idle? && |s.queue| != s.known
    case DrainOne => s.phase.Draining? && s.phase.next < |s.phase.snapshot|
    case OutputOne => s.phase.Outputting? && !s.drop && |s.fifo.data| >= TS_PACKET * cfg.packets
    case EndRound => s.phase.Outputting? && (s.drop || |s.fifo.data| < TS_PACKET * cfg.packets)
  }

  /** What a step reads must be there: the queue's ends and their clock references for the buffering
      gate, an item for each one drained, and enough in both FIFOs for a payload. */
  predicate Readable(cfg: Config, s: State, step: Step) {
    match step
    case Section => s.queue != [] && s.queue[0].pcrs != [] && s.queue[|s.queue| - 1].pcrs != []
    case DrainOne => s.queue != []
    case OutputOne => cfg.packets <= |s.fifo.pcrs|
    case _ => true
  }

  /** The span of clock references in the queue. */
  function Buffered(q: seq<Chunk>): int
    requires q != [] && q[0].pcrs != [] && q[|q| - 1].pcrs != []
  {
    q[|q| - 1].pcrs[|q[|q| - 1].pcrs| - 1] - q[0].pcrs[0]
  }

  function Apply(cfg: Config, s: State, step: Step): State
    requires Enabled(cfg, s, step) && Readable(cfg, s, step)
  {
    match step
    case Append(c) => s.(queue := s.queue + [c], appended := s.appended + [c])
    case AskDrop => s.(drop := true)
    case Section =>
      if s.drop then
        s.(drop := false, fifo := EMPTY, complete := false, taken := s.taken + s.queue, queue := [], known := 0,
           drained := [], outputs := [])
      else if !s.complete && Buffered(s.queue) < cfg.bufferTime then s.(known := |s.queue|)
      else s.(known := |s.queue|, complete := true, phase := Draining(s.queue, 0))
    case DrainOne =>
      var c := s.phase.snapshot[s.phase.next];
      var last := s.phase.next + 1 == |s.phase.snapshot|;
      s.(fifo := s.fifo.Append(c), drained := s.drained + [c], taken := s.taken + [s.queue[0]], queue := s.queue[1..],
         known := if last then 0 else s.known,
         phase := if last then Outputting else Draining(s.phase.snapshot, s.phase.next + 1))
    case OutputOne =>
      if |s.fifo.data| > MAX_BUFFERED then s.(drop := true)
      else s.(outputs := s.outputs + [s.fifo.Take(cfg.packets)], fifo := s.fifo.Drop(cfg.packets))
    case EndRound => s.(phase := Idle)
  }

  datatype Run = Ran(state: State) | Disabled | ReadPastEnd

  function Exec(cfg: Config, steps: seq<Step>): Run {
    if steps == [] then Ran(INITIAL)
    else
      var step := steps[|steps| - 1];
      match Exec(cfg, steps[..|steps| - 1])
      case Ran(s) =>
        if !Enabled(cfg, s, step) then Disabled
        else if !Readable(cfg, s, step) then ReadPastEnd
        else Ran(Apply(cfg, s, step))
      case other => other
  }

  // ----- what holds in every reachable state

  ghost predicate AllWellFormed(cs: seq<Chunk>) {
    forall i :: 0 <= i < |cs| ==> WellFormed(cs[i])
  }

  ghost predicate QueueInv(s: State) {
    && AllWellFormed(s.queue)
    && s.appended == s.taken + s.queue
    && match s.phase
       case Idle => s.known <= |s.queue|
       case Draining(snapshot, next) => next < |snapshot| && snapshot[next..] <= s.queue
       case Outputting => s.known == 0
  }

  /** Since the last reset the output buffers, followed by the FIFOs, hold the packets of the drained
      items in order, each with its own clock reference; every buffer is one full payload; and unless a
      drop is due, less than a payload waits between rounds. */
  ghost predicate FlowInv(cfg: Config, s: State) {
    && AllPaired(s.drained) && AllPaired(s.outputs) && s.fifo.Paired()
    && AllPackets(s.outputs) + Packets(s.fifo) == AllPackets(s.drained)
    && (forall i :: 0 <= i < |s.outputs| ==> |s.outputs[i].pcrs| == cfg.packets)
    && (s.phase.Idle? && !s.drop ==> |s.fifo.data| < TS_PACKET * cfg.packets)
  }

  lemma StepReadable(cfg: Config, s: State, step: Step)
    requires QueueInv(s) && FlowInv(cfg, s) && Enabled(cfg, s, step)
    ensures Readable(cfg, s, step)
  {
    if step.DrainOne? {
      var snapshot, next := s.phase.snapshot, s.phase.next;
      assert snapshot[next..][0] == snapshot[next];
    }
  }

  lemma DrainHead(s: State)
    requires QueueInv(s) && s.phase.Draining?
    ensures s.queue != [] && s.queue[0] == s.phase.snapshot[s.phase.next] && WellFormed(s.queue[0])
    ensures s.phase.snapshot[s.phase.next + 1..] <= s.queue[1..]
  {
    var snapshot, next := s.phase.snapshot, s.phase.next;
    assert snapshot[next..][0] == snapshot[next];
    assert snapshot[next..][1..] == snapshot[next + 1..];
  }

  lemma StepKeepsQueue(cfg: Config, s: State, step: Step)
    requires QueueInv(s) && Enabled(cfg, s, step) && Readable(cfg, s, step)
    ensures QueueInv(Apply(cfg, s, step))
  {
    match step
    case Append(_) =>
    case AskDrop =>
    case Section =>
      assert s.queue[0..] == s.queue;
    case DrainOne =>
      DrainHead(s);
      assert s.queue == [s.queue[0]] + s.queue[1..];
    case OutputOne =>
    case EndRound =>
  }

  lemma DrainKeepsFlow(outputs: seq<Chunk>, fifo: Chunk, drained: seq<Chunk>, c: Chunk)
    requires AllPaired(outputs) && fifo.Paired() && AllPaired(drained) && c.Paired()
    requires AllPackets(outputs) + Packets(fifo) == AllPackets(drained)
    ensures fifo.Append(c).Paired() && AllPaired(drained + [c])
    ensures AllPackets(outputs) + Packets(fifo.Append(c)) == AllPackets(drained + [c])
  {
    PacketsAppend(fifo, c);
    AllPacketsSnoc(drained, c);
    AppendAssoc(AllPackets(outputs), Packets(fifo), Packets(c));
  }

  lemma OutputKeepsFlow(cfg: Config, outputs: seq<Chunk>, fifo: Chunk, drained: seq<Chunk>)
    requires AllPaired(outputs) && fifo.Paired() && AllPaired(drained) && cfg.packets <= |fifo.pcrs|
    requires AllPackets(outputs) + Packets(fifo) == AllPackets(drained)
    ensures var buffer := fifo.Take(cfg.packets);
            && AllPaired(outputs + [buffer]) && |buffer.pcrs| == cfg.packets && fifo.Drop(cfg.packets).Paired()
            && AllPackets(outputs + [buffer]) + Packets(fifo.Drop(cfg.packets)) == AllPackets(drained)
  {
    var buffer := fifo.Take(cfg.packets);
    PacketsCut(fifo, cfg.packets);
    AllPacketsSnoc(outputs, buffer);
    AppendAssoc(AllPackets(outputs), Packets(buffer), Packets(fifo.Drop(cfg.packets)));
  }

  lemma StepKeepsFlow(cfg: Config, s: State, step: Step)
    requires cfg.packets > 0
    requires QueueInv(s) && FlowInv(cfg, s) && Enabled(cfg, s, step) && Readable(cfg, s, step)
    ensures FlowInv(cfg, Apply(cfg, s, step))
  {
    match step
    case Append(_) =>
    case AskDrop =>
    case Section =>
    case DrainOne =>
      DrainHead(s);
      DrainKeepsFlow(s.outputs, s.fifo, s.drained, s.queue[0]);
    case OutputOne => OutputKeepsFlow(cfg, s.outputs, s.fifo, s.drained);
    case EndRound =>
  }

  /** In every interleaving packets keep their order and their clock references between two resets,
      payloads are full, and nothing is read that is not there. */
  lemma {:induction false} RunKeepsPairs(cfg: Config, steps: seq<Step>)
    requires cfg.packets > 0
    ensures !Exec(cfg, steps).ReadPastEnd?
    ensures Exec(cfg, steps).Ran? ==> QueueInv(Exec(cfg, steps).state) && FlowInv(cfg, Exec(cfg, steps).state)
  {
    if steps != [] {
      var init, step := steps[..|steps| - 1], steps[|steps| - 1];
      RunKeepsPairs(cfg, init);
      var r := Exec(cfg, init);
      if r.Ran? && Enabled(cfg, r.state, step) {
        StepReadable(cfg, r.state, step);
        StepKeepsQueue(cfg, r.state, step);
        StepKeepsFlow(cfg, r.state, step);
      }
    }
  }
}
