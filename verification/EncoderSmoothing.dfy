/** The encoder output smoother: `encoder_start_smoothing` of encoders/encoder_smoothing.c, run beside
    the encoders that fill its queue and the capture thread that ticks the clock (`obe_clock_tick`). */
module EncoderSmoothing {
  import opened Queues

  datatype Coded = Coded(id: nat, realDts: int)

  /** A frame passed on to the multiplexer: the clock when the smoother looked at it, when it stopped waiting
      and when it passed the frame on; the pacing origin, and whether this frame set it; and how often the
      buffer had been filled by then. */
  datatype Release =
    Release(frame: Coded, look: int, seen: int, clock: int, startDts: int, startPts: int, origin: bool, fill: nat)

  /** Where the smoother is between two of its critical sections. */
  datatype Phase =
    | Idle
    | Holding(frame: Coded)
    | AwaitingStart(frame: Coded)
    | AwaitingTick(frame: Coded)
    | Ready(frame: Coded)
    | Popping(frame: Coded)

  datatype State = State(queue: seq<Coded>, clock: int, bufferFrames: int, complete: bool, known: int,
                         startDts: int, startPts: int, lastClock: int, phase: Phase,
                         appended: seq<Coded>, released: seq<Release>, seen: int, origin: bool, fills: nat)

  /** `Append` and `Reset` are the encoders' steps, `Tick` the clock's; the others are the smoother's. */
  datatype Step =
    | Append(frame: Coded)
    | Reset
    | Tick(value: int)
    | Wake
    | Look
    | SeeTick
    | PassOn
    | Pop

  function Initial(bufferFrames: int, clock: int): State {
    State([], clock, bufferFrames, false, 0, -1, -1, -1, Idle, [], [], -1, false, 0)
  }

  predicate Enabled(s: State, step: Step) {
    match step
    case Append(_) => true
    case Reset => true
    case Tick(v) => v >= s.clock
    case Wake => s.phase.Idle? && |s.queue| != s.known
    case Look => s.phase.Holding?
    case SeeTick => (s.phase.AwaitingStart? || s.phase.AwaitingTick?) && s.clock != s.lastClock
    case PassOn => s.phase.Ready?
    case Pop => s.phase.Popping? && s.queue != []
  }

  function Apply(s: State, step: Step): State
    requires Enabled(s, step)
    requires step.Wake? ==> s.queue != []
  {
    match step
    case Append(f) => s.(queue := s.queue + [f], appended := s.appended + [f])
    case Reset => s.(complete := false)
    case Tick(v) => s.(clock := v)
    case Wake =>
      if !s.complete && |s.queue| < s.bufferFrames then s.(known := |s.queue|)
      else s.(known := |s.queue|, complete := true, startDts := if s.complete then s.startDts else -1,
              fills := if s.complete then s.fills else s.fills + 1, phase := Holding(s.queue[0]))
    case Look =>
      var f := s.phase.frame;
      if s.startDts == -1 then
        s.(lastClock := s.clock, startDts := f.realDts, origin := true, phase := AwaitingStart(f))
      else s.(lastClock := s.clock, seen := s.clock, origin := false,
              phase := if f.realDts - s.startDts > s.clock - s.startPts then AwaitingTick(f) else Ready(f))
    case SeeTick =>
      s.(startPts := if s.phase.AwaitingStart? then s.clock else s.startPts, seen := s.clock,
         phase := Ready(s.phase.frame))
    case PassOn =>
      s.(released := s.released + [ReleaseNow(s)], phase := Popping(s.phase.frame))
    case Pop => s.(queue := s.queue[1..], known := 0, phase := Idle)
  }

  function ReleaseNow(s: State): Release
    requires s.phase.Ready?
  {
    Release(s.phase.frame, s.lastClock, s.seen, s.clock, s.startDts, s.startPts, s.origin, s.fills)
  }

  /** The frames that were passed on. */
  function Frames(rs: seq<Release>): (fs: seq<Coded>)
    ensures |fs| == |rs|
  {
    seq(|rs|, i requires 0 <= i < |rs| => rs[i].frame)
  }

  // ----- the thread, section by section

  /** The smoother's variables beside the queues and the clock it shares; `phase` says where it is, and
      `appended` and `released` what has gone through so far. */
  class Smoother {
    const queue: ObeQueue<Coded>
    const muxQueue: ObeQueue<Coded>
    const bufferFrames: int
    var clock: int
    var bufferComplete: bool
    var numFrames: int
    var startDts: int
    var startPts: int
    var lastClock: int
    ghost var phase: Phase
    ghost var appended: seq<Coded>
    ghost var released: seq<Release>
    ghost var seen: int
    ghost var origin: bool
    ghost var fills: nat

    ghost predicate Valid()
      reads this, muxQueue
    {
      queue != muxQueue && muxQueue.items == Frames(released)
    }

    ghost function View(): State
      reads this, queue
    {
      State(queue.items, clock, bufferFrames, bufferComplete, numFrames, startDts, startPts, lastClock, phase,
            appended, released, seen, origin, fills)
    }

    constructor (queue: ObeQueue<Coded>, muxQueue: ObeQueue<Coded>, bufferFrames: int, clock: int)
      requires queue != muxQueue && queue.items == [] && muxQueue.items == []
      ensures this.queue == queue && this.muxQueue == muxQueue && Valid() && View() == Initial(bufferFrames, clock)
    {
      this.queue, this.muxQueue, this.bufferFrames, this.clock := queue, muxQueue, bufferFrames, clock;
      bufferComplete, numFrames, startDts, startPts, lastClock := false, 0, -1, -1, -1;
      phase, appended, released, seen, origin, fills := Idle, [], [], -1, false, 0;
    }

    /** After the wait for the queue to change: the buffer gate, and the head of the queue. */
    method WakeUp() returns (gate: bool, frame: Coded)
      requires Valid() && phase.Idle? && |queue.items| != numFrames && queue.items != []
      modifies this
      ensures Valid() && View() == Apply(old(View()), Wake)
      ensures gate == phase.Holding? && (gate ==> phase.frame == frame)
    {
      frame := queue.items[0];
      numFrames := |queue.items|;
      if !bufferComplete {
        if numFrames < bufferFrames {
          return false, frame;
        }
        bufferComplete := true;
        startDts := -1;
        fills := fills + 1;
      }
      phase := Holding(frame);
      gate := true;
    }

    /** The look at the clock: whether to wait for a tick, and whether that tick sets the origin. */
    method LookAtClock(frame: Coded) returns (wait: bool, first: bool)
      requires Valid() && phase == Holding(frame)
      modifies this
      ensures Valid() && View() == Apply(old(View()), Look)
      ensures wait == !phase.Ready? && first == phase.AwaitingStart?
    {
      lastClock := clock;
      wait, first := false, false;
      if startDts == -1 {
        startDts := frame.realDts;
        wait, first := true, true;
        origin := true;
        phase := AwaitingStart(frame);
      } else {
        seen, origin := clock, false;
        if frame.realDts - startDts > clock - startPts {
          wait := true;
          phase := AwaitingTick(frame);
        } else {
          phase := Ready(frame);
        }
      }
    }

    /** After the wait for the clock to change. */
    method AfterTick(frame: Coded, first: bool)
      requires Valid() && clock != lastClock && phase == if first then AwaitingStart(frame) else AwaitingTick(frame)
      modifies this
      ensures Valid() && View() == Apply(old(View()), SeeTick)
    {
      if first {
        startPts := clock;
      }
      seen := clock;
      phase := Ready(frame);
    }

    method PassFrameOn(frame: Coded)
      requires Valid() && phase == Ready(frame)
      modifies this, muxQueue
      ensures Valid() && View() == Apply(old(View()), PassOn) && muxQueue.items == old(muxQueue.items) + [frame]
    {
      muxQueue.Add(frame);
      released := released + [ReleaseNow(View())];
      phase := Popping(frame);
    }

    method PopHead()
      requires Valid() && phase.Popping? && queue.items != []
      modifies this, queue
      ensures Valid() && View() == Apply(old(View()), Pop)
    {
      queue.RemoveFirst();
      numFrames := 0;
      phase := Idle;
    }
  }

  // ----- what holds in every reachable state

  /** First in, first out: the released frames and the queue make up what was appended. While a frame
      is being popped it is in both. */
  ghost predicate Fifo(s: State) {
    s.appended == Frames(s.released) + if s.phase.Popping? && s.queue != [] then s.queue[1..] else s.queue
  }

  /** The smoother never holds a frame that is not at the head of the queue, and it never wakes up to
      an empty queue. */
  ghost predicate HeadInv(s: State) {
    match s.phase
    case Idle => 0 <= s.known <= |s.queue|
    case Popping(f) => s.queue != [] && s.queue[0] == f && s.released != [] && s.released[|s.released| - 1].frame == f
    case _ => s.queue != [] && s.queue[0] == s.phase.frame
  }

  /** Nothing is taken before the buffer has been filled once. */
  ghost predicate Gate(s: State) {
    s.complete || !s.phase.Idle? || s.released != [] ==> |s.appended| >= s.bufferFrames
  }

  /** Since the origin the clock has advanced by at least as much as the frames have. */
  predicate Due(f: Coded, clock: int, startDts: int, startPts: int) {
    f.realDts - startDts <= clock - startPts
  }

  ghost predicate OnTime(r: Release) {
    Due(r.frame, r.clock, r.startDts, r.startPts)
  }

  /** The pacing origin is set and some frame went out under it, no earlier than it was due at `clock`. */
  ghost predicate Paced(s: State, clock: int) {
    s.startDts != -1 ==>
      s.released != [] && s.released[|s.released| - 1].frame.realDts - s.startDts <= clock - s.startPts
  }

  ghost predicate PaceInv(s: State, tick: int) {
    && (forall i :: 0 <= i < |s.released| ==> OnTime(s.released[i]))
    && match s.phase
       case Idle => Paced(s, s.clock)
       case Holding(_) => Paced(s, s.clock)
       case AwaitingStart(f) => s.startDts == f.realDts
       case AwaitingTick(_) =>
         s.startDts != -1 && Paced(s, s.lastClock) && (s.clock == s.lastClock || s.clock >= s.lastClock + tick)
       case Ready(f) => Due(f, s.clock, s.startDts, s.startPts)
       case Popping(f) => Due(f, s.clock, s.startDts, s.startPts)
  }

  /** Frames are appended with decoding times at most `gap` apart. */
  ghost predicate GapInv(s: State, gap: int) {
    forall i {:trigger s.appended[i]} :: 0 < i < |s.appended| ==>
      s.appended[i].realDts - s.appended[i - 1].realDts <= gap
  }

  ghost predicate Basic(s: State) {
    Fifo(s) && HeadInv(s) && Gate(s)
  }

  // ----- runs

  datatype Run = Ran(state: State) | Disabled | ReadEmptyQueue

  function Exec(bufferFrames: int, clock: int, steps: seq<Step>): Run {
    if steps == [] then Ran(Initial(bufferFrames, clock))
    else
      var step := steps[|steps| - 1];
      match Exec(bufferFrames, clock, steps[..|steps| - 1])
      case Ran(s) =>
        if !Enabled(s, step) then Disabled
        else if step.Wake? && s.queue == [] then ReadEmptyQueue
        else Ran(Apply(s, step))
      case other => other
  }

  lemma StepKeepsBasic(s: State, step: Step)
    requires Basic(s) && Enabled(s, step)
    ensures step.Wake? ==> s.queue != []
    ensures Basic(Apply(s, step))
  {
    if step.PassOn? {
      var t := Apply(s, step);
      assert Frames(t.released) == Frames(s.released) + [s.phase.frame];
      assert s.queue == [s.queue[0]] + s.queue[1..];
    }
  }

  /** In every interleaving release is first in, first out, nothing is read from an empty queue, and
      nothing leaves before the buffer has been filled. */
  lemma {:induction false} RunBasic(bufferFrames: int, clock: int, steps: seq<Step>)
    ensures !Exec(bufferFrames, clock, steps).ReadEmptyQueue?
    ensures Exec(bufferFrames, clock, steps).Ran? ==> Basic(Exec(bufferFrames, clock, steps).state)
  {
    if steps != [] {
      var init := steps[..|steps| - 1];
      RunBasic(bufferFrames, clock, init);
      var r := Exec(bufferFrames, clock, init);
      if r.Ran? && Enabled(r.state, steps[|steps| - 1]) {
        StepKeepsBasic(r.state, steps[|steps| - 1]);
      }
    }
  }

  /** Every tick that moves the clock moves it by at least `tick`, and consecutive frames are at most
      `gap` apart. */
  ghost predicate Allowed(s: State, step: Step, tick: int, gap: int) {
    match step
    case Tick(v) => v == s.clock || v >= s.clock + tick
    case Append(f) => s.appended != [] ==> f.realDts - s.appended[|s.appended| - 1].realDts <= gap
    case _ => true
  }

  ghost predicate AllAllowed(bufferFrames: int, clock: int, steps: seq<Step>, tick: int, gap: int) {
    steps != [] ==>
      var init := steps[..|steps| - 1];
      AllAllowed(bufferFrames, clock, init, tick, gap)
      && (Exec(bufferFrames, clock, init).Ran? ==>
            Allowed(Exec(bufferFrames, clock, init).state, steps[|steps| - 1], tick, gap))
  }

  /** The frame at the head was appended right after the one released last. */
  lemma NextFrame(s: State, gap: int)
    requires Fifo(s) && GapInv(s, gap) && !s.phase.Popping? && s.queue != [] && s.released != []
    ensures s.queue[0].realDts - s.released[|s.released| - 1].frame.realDts <= gap
  {
    var n := |s.released|;
    assert s.appended[n] == s.queue[0] && s.appended[n - 1] == Frames(s.released)[n - 1];
  }

  lemma StepKeepsGap(s: State, step: Step, tick: int, gap: int)
    requires GapInv(s, gap) && Enabled(s, step) && Allowed(s, step, tick, gap) && (step.Wake? ==> s.queue != [])
    ensures GapInv(Apply(s, step), gap)
  {
    if step.Append? {
      assert forall i :: 0 <= i < |s.appended| ==> (s.appended + [step.frame])[i] == s.appended[i];
    }
  }

  lemma StepKeepsPace(s: State, step: Step, tick: int, gap: int)
    requires Basic(s) && GapInv(s, gap) && PaceInv(s, tick) && gap <= tick
    requires Enabled(s, step) && Allowed(s, step, tick, gap) && (step.Wake? ==> s.queue != [])
    ensures PaceInv(Apply(s, step), tick)
  {
    if step.SeeTick? {
      TickKeepsPace(s, tick, gap);
    } else if step.PassOn? {
      PassOnKeepsPace(s, tick);
    } else {
      OtherKeepsPace(s, step, tick);
    }
  }

  lemma PassOnKeepsPace(s: State, tick: int)
    requires PaceInv(s, tick) && Enabled(s, PassOn)
    ensures PaceInv(Apply(s, PassOn), tick)
  {
  }

  lemma OtherKeepsPace(s: State, step: Step, tick: int)
    requires HeadInv(s) && PaceInv(s, tick) && Enabled(s, step) && !step.SeeTick? && !step.PassOn?
    requires step.Wake? ==> s.queue != []
    requires step.Tick? ==> step.value == s.clock || step.value >= s.clock + tick
    ensures PaceInv(Apply(s, step), tick)
  {
  }

  /** One tick is enough to wait for: it covers the gap to the next frame. */
  lemma TickKeepsPace(s: State, tick: int, gap: int)
    requires Basic(s) && GapInv(s, gap) && PaceInv(s, tick) && gap <= tick && Enabled(s, SeeTick)
    ensures PaceInv(Apply(s, SeeTick), tick)
  {
    if s.phase.AwaitingTick? {
      NextFrame(s, gap);
    }
  }

  /** Never early: when ticks are no finer than the frames, in every interleaving of ticks, appends,
      resets and wake-ups, each frame leaves only when the clock has advanced since the pacing origin by
      at least as much as the frames have. */
  lemma {:induction false} NeverEarly(bufferFrames: int, clock: int, steps: seq<Step>, tick: int, gap: int)
    requires gap <= tick && AllAllowed(bufferFrames, clock, steps, tick, gap) && Exec(bufferFrames, clock, steps).Ran?
    ensures GapInv(Exec(bufferFrames, clock, steps).state, gap) && PaceInv(Exec(bufferFrames, clock, steps).state, tick)
  {
    if steps != [] {
      var init := steps[..|steps| - 1];
      NeverEarly(bufferFrames, clock, init, tick, gap);
      RunBasic(bufferFrames, clock, init);
      StepKeepsGap(Exec(bufferFrames, clock, init).state, steps[|steps| - 1], tick, gap);
      StepKeepsPace(Exec(bufferFrames, clock, init).state, steps[|steps| - 1], tick, gap);
    }
  }

  // ----- the condition is exact

  ghost predicate AlwaysOnTime(tick: int, gap: int) {
    forall bufferFrames, clock, steps ::
      AllAllowed(bufferFrames, clock, steps, tick, gap) && Exec(bufferFrames, clock, steps).Ran? ==>
        forall r :: r in Exec(bufferFrames, clock, steps).state.released ==> OnTime(r)
  }

  /** Every allowed run is on time if and only if the ticks are no finer than the frames. */
  lemma OnTimeIff(tick: int, gap: int)
    requires tick > 0
    ensures AlwaysOnTime(tick, gap) <==> gap <= tick
  {
    if gap <= tick {
      forall bufferFrames, clock, steps |
        AllAllowed(bufferFrames, clock, steps, tick, gap) && Exec(bufferFrames, clock, steps).Ran?
        ensures forall r :: r in Exec(bufferFrames, clock, steps).state.released ==> OnTime(r)
      {
        NeverEarly(bufferFrames, clock, steps, tick, gap);
      }
    } else {
      var steps := FinerTicks(tick, gap);
      assert !AlwaysOnTime(tick, gap);
    }
  }

  /** As soon as ticks may be finer than the frames, a second frame can leave after one tick. */
  lemma FinerTicks(t: int, g: int) returns (steps: seq<Step>)
    requires 0 < t < g
    ensures AllAllowed(0, 0, steps, t, g) && Exec(0, 0, steps).Ran?
    ensures exists r :: r in Exec(0, 0, steps).state.released && !OnTime(r)
  {
    var f0, f1 := Coded(0, 0), Coded(1, g);
    var r0, r := Release(f0, 0, t, t, 0, t, true, 1), Release(f1, t, 2 * t, 2 * t, 0, t, false, 1);
    var s0 := State([], t, 0, true, 0, 0, t, 0, Idle, [f0], [r0], t, true, 1);
    steps := FirstFrame(f0, t, g);
    var s1 := s0.(queue := [f1], appended := [f0, f1]);
    var s2 := s1.(known := 1, phase := Holding(f1));
    var s3 := s2.(lastClock := t, seen := t, origin := false, phase := AwaitingTick(f1));
    var s4 := s3.(clock := 2 * t);
    var s5 := s4.(seen := 2 * t, phase := Ready(f1));
    steps := ExecStep(steps, s0, Append(f1), s1, t, g);
    steps := ExecStep(steps, s1, Wake, s2, t, g);
    steps := ExecStep(steps, s2, Look, s3, t, g);
    steps := ExecStep(steps, s3, Tick(2 * t), s4, t, g);
    steps := ExecStep(steps, s4, SeeTick, s5, t, g);
    steps := ExecStep(steps, s5, PassOn, Apply(s5, PassOn), t, g);
    assert Exec(0, 0, steps).state.released == [r0] + [r];
    assert r in Exec(0, 0, steps).state.released && !OnTime(r);
  }

  /** One more step of an allowed run. */
  lemma ExecStep(before: seq<Step>, s: State, step: Step, t: State, tick: int, gap: int) returns (steps: seq<Step>)
    requires Exec(0, 0, before) == Ran(s) && AllAllowed(0, 0, before, tick, gap)
    requires Enabled(s, step) && (step.Wake? ==> s.queue != []) && t == Apply(s, step) && Allowed(s, step, tick, gap)
    ensures Exec(0, 0, steps) == Ran(t) && AllAllowed(0, 0, steps, tick, gap)
  {
    steps := before + [step];
    assert steps[..|before|] == before;
  }

  lemma FirstFrame(f0: Coded, t: int, g: int) returns (steps: seq<Step>)
    requires f0.realDts == 0 && t > 0
    ensures var r0 := Release(f0, 0, t, t, 0, t, true, 1);
            Exec(0, 0, steps) == Ran(State([], t, 0, true, 0, 0, t, 0, Idle, [f0], [r0], t, true, 1))
    ensures AllAllowed(0, 0, steps, t, g)
  {
    var s0 := Initial(0, 0);
    var s1 := s0.(queue := [f0], appended := [f0]);
    var s2 := s1.(known := 1, complete := true, fills := 1, phase := Holding(f0));
    var s3 := s2.(lastClock := 0, startDts := 0, origin := true, phase := AwaitingStart(f0));
    var s4 := s3.(clock := t);
    var s5 := s4.(startPts := t, seen := t, phase := Ready(f0));
    var s6 := s5.(released := [Release(f0, 0, t, t, 0, t, true, 1)], phase := Popping(f0));
    steps := ExecStep([], s0, Append(f0), s1, t, g);
    steps := ExecStep(steps, s1, Wake, s2, t, g);
    steps := ExecStep(steps, s2, Look, s3, t, g);
    steps := ExecStep(steps, s3, Tick(t), s4, t, g);
    steps := ExecStep(steps, s4, SeeTick, s5, t, g);
    steps := ExecStep(steps, s5, PassOn, s6, t, g);
    steps := ExecStep(steps, s6, Pop, Apply(s6, Pop), t, g);
  }
}
