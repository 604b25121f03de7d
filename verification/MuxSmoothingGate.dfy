/** When the multiplexer smoother starts: not before its queue spans the buffering time, and then at once. */
module MuxSmoothingGate {
  import opened MuxSmoothing
  import opened MuxSmoothingRuns

  /** The items span the buffering time, from the first clock reference of the first to the last one of the last. */
  predicate Spans(items: seq<Chunk>, time: int)
    requires AllPaired(items)
  {
    items != [] && items[0].pcrs != [] && items[|items| - 1].pcrs != []
    && items[|items| - 1].pcrs[|items[|items| - 1].pcrs| - 1] - items[0].pcrs[0] >= time
  }

  /** Everything appended since the last reset. */
  function SinceReset(s: State): seq<Chunk> {
    s.drained + s.queue
  }

  /** At some time since the last reset the queue spanned the buffering time. */
  ghost predicate HasSpanned(cfg: Config, items: seq<Chunk>) {
    exists n :: 0 < n <= |items| && AllPaired(items[..n]) && Spans(items[..n], cfg.bufferTime)
  }

  ghost predicate GateInv(cfg: Config, s: State) {
    && (s.complete ==> HasSpanned(cfg, SinceReset(s)))
    && (!s.complete ==>
          s.drained == [] && s.outputs == [] && s.fifo == EMPTY && s.phase.Idle? && s.known <= |s.queue|
          && AllPaired(s.queue[..s.known]) && !Spans(s.queue[..s.known], cfg.bufferTime))
    && (s.complete && s.phase.Idle? ==> s.known == 0)
  }

  lemma SpannedMore(cfg: Config, items: seq<Chunk>, c: Chunk)
    requires HasSpanned(cfg, items)
    ensures HasSpanned(cfg, items + [c])
  {
    var n :| 0 < n <= |items| && AllPaired(items[..n]) && Spans(items[..n], cfg.bufferTime);
    assert (items + [c])[..n] == items[..n];
  }

  lemma AppendKeepsGate(cfg: Config, s: State, c: Chunk)
    requires GateInv(cfg, s) && WellFormed(c)
    ensures GateInv(cfg, Apply(cfg, s, Append(c)))
  {
    var t := Apply(cfg, s, Append(c));
    assert SinceReset(t) == SinceReset(s) + [c];
    if s.complete { SpannedMore(cfg, SinceReset(s), c); } else { assert t.queue[..t.known] == s.queue[..s.known]; }
  }

  lemma DrainKeepsGate(cfg: Config, s: State)
    requires QueueInv(s) && GateInv(cfg, s) && Enabled(cfg, s, DrainOne)
    ensures Readable(cfg, s, DrainOne) && GateInv(cfg, Apply(cfg, s, DrainOne))
  {
    DrainHead(s);
    var t := Apply(cfg, s, DrainOne);
    assert s.queue == [s.queue[0]] + s.queue[1..];
    assert SinceReset(t) == SinceReset(s);
  }

  lemma SectionKeepsGate(cfg: Config, s: State)
    requires QueueInv(s) && GateInv(cfg, s) && Enabled(cfg, s, Section) && Readable(cfg, s, Section)
    ensures GateInv(cfg, Apply(cfg, s, Section))
  {
    hide HasSpanned;
    var t := Apply(cfg, s, Section);
    assert s.queue[..|s.queue|] == s.queue && AllPaired(s.queue);
    if s.drop {
      assert t.queue[..0] == [];
    } else if t.complete && !s.complete {
      assert SinceReset(t) == s.queue;
      SpannedNow(cfg, s.queue);
    }
  }

  lemma SpannedNow(cfg: Config, items: seq<Chunk>)
    requires AllPaired(items) && Spans(items, cfg.bufferTime)
    ensures HasSpanned(cfg, items)
  {
    assert items[..|items|] == items;
  }

  lemma StepKeepsGate(cfg: Config, s: State, step: Step)
    requires QueueInv(s) && GateInv(cfg, s) && Enabled(cfg, s, step) && Readable(cfg, s, step)
    ensures GateInv(cfg, Apply(cfg, s, step))
  {
    match step
    case Append(c) => AppendKeepsGate(cfg, s, c);
    case AskDrop => assert SinceReset(Apply(cfg, s, step)) == SinceReset(s);
    case Section => SectionKeepsGate(cfg, s);
    case DrainOne => DrainKeepsGate(cfg, s);
    case OutputOne => assert SinceReset(Apply(cfg, s, step)) == SinceReset(s);
    case EndRound => assert SinceReset(Apply(cfg, s, step)) == SinceReset(s);
  }

  /** In every run nothing is taken since the last reset unless the items appended since have spanned the
      buffering time, and as long as nothing is, those the smoother has looked at have not. */
  lemma {:induction false} RunKeepsGate(cfg: Config, steps: seq<Step>)
    requires cfg.packets > 0 && Exec(cfg, steps).Ran?
    ensures GateInv(cfg, Exec(cfg, steps).state)
  {
    if steps == [] {
      assert INITIAL.queue[..0] == [];
    } else {
      var init := steps[..|steps| - 1];
      RunKeepsGate(cfg, init);
      RunKeepsPairs(cfg, init);
      StepKeepsGate(cfg, Exec(cfg, init).state, steps[|steps| - 1]);
    }
  }

  lemma {:induction false} OneMore(cfg: Config, steps: seq<Step>, step: Step)
    requires cfg.packets > 0 && Exec(cfg, steps).Ran? && Enabled(cfg, Exec(cfg, steps).state, step)
    ensures Readable(cfg, Exec(cfg, steps).state, step)
    ensures Exec(cfg, steps + [step]) == Ran(Apply(cfg, Exec(cfg, steps).state, step))
  {
    RunKeepsPairs(cfg, steps + [step]);
    assert (steps + [step])[..|steps|] == steps;
  }

  /** A look at the queue, when no drop is due, starts a round on all of it exactly if the queue spans the
      buffering time now or a round has been started since the last reset. */
  lemma SectionExact(cfg: Config, steps: seq<Step>)
    requires cfg.packets > 0 && Exec(cfg, steps).Ran? && Enabled(cfg, Exec(cfg, steps).state, Section)
    requires !Exec(cfg, steps).state.drop
    ensures Exec(cfg, steps + [Section]).Ran?
    ensures var s, t := Exec(cfg, steps).state, Exec(cfg, steps + [Section]).state;
            && AllPaired(s.queue) && t.queue == s.queue
            && t.phase == (if s.complete || Spans(s.queue, cfg.bufferTime) then Draining(s.queue, 0) else Idle)
            && t.complete == (s.complete || Spans(s.queue, cfg.bufferTime))
  {
    hide Exec;
    RunKeepsPairs(cfg, steps);
    OneMore(cfg, steps, Section);
  }

  /** While a reset is due, a look at the queue empties it and the FIFOs instead. */
  lemma ResetExact(cfg: Config, steps: seq<Step>)
    requires cfg.packets > 0 && Exec(cfg, steps).Ran? && Enabled(cfg, Exec(cfg, steps).state, Section)
    requires Exec(cfg, steps).state.drop
    ensures Exec(cfg, steps + [Section]).Ran?
    ensures var t := Exec(cfg, steps + [Section]).state;
            t.queue == [] && t.fifo == Chunk([], []) && !t.drop && !t.complete && t.phase == Idle && t.known == 0
  {
    hide Exec;
    RunKeepsPairs(cfg, steps);
    OneMore(cfg, steps, Section);
  }

  /** A payload is packets of 188 bytes, each with one clock reference, cut off the front of both FIFOs; more
      than ten million bytes ask for a drop instead. */
  lemma OutputExact(cfg: Config, steps: seq<Step>)
    requires cfg.packets > 0 && Exec(cfg, steps).Ran? && Enabled(cfg, Exec(cfg, steps).state, OutputOne)
    ensures Exec(cfg, steps + [OutputOne]).Ran?
    ensures var s, t := Exec(cfg, steps).state, Exec(cfg, steps + [OutputOne]).state;
            && cfg.packets <= |s.fifo.pcrs| && 188 * cfg.packets <= |s.fifo.data|
            && if |s.fifo.data| > 10000000 then t.drop && t.outputs == s.outputs && t.fifo == s.fifo
               else !t.drop
                    && t.outputs == s.outputs + [Chunk(s.fifo.data[..188 * cfg.packets], s.fifo.pcrs[..cfg.packets])]
                    && t.fifo == Chunk(s.fifo.data[188 * cfg.packets..], s.fifo.pcrs[cfg.packets..])
  {
    hide Exec;
    RunKeepsPairs(cfg, steps);
    OneMore(cfg, steps, OutputOne);
  }

  /** No wake-up is lost: once a round has been started, any item in the queue starts the next one. */
  lemma NoLostRound(cfg: Config, steps: seq<Step>)
    requires cfg.packets > 0 && Exec(cfg, steps).Ran?
    requires var s := Exec(cfg, steps).state; s.phase.Idle? && s.complete && s.queue != []
    ensures Enabled(cfg, Exec(cfg, steps).state, Section)
  {
    RunKeepsGate(cfg, steps);
  }
}
