/** When the encoder smoother waits, and when not: every release of every run, its pacing origin, and the gate
    before the buffer is filled. */
module EncoderSmoothingTimes {
  import opened EncoderSmoothing

  // ----- the releases of a run

  /** The frame that sets the origin waits for a tick and takes the clock from it. Any other frame waits for a
      tick exactly if it was early at the clock of the look. */
  predicate WaitsRight(r: Release) {
    && r.look <= r.seen <= r.clock
    && if r.origin then r.seen != r.look && r.startDts == r.frame.realDts && r.startPts == r.seen
       else r.seen != r.look <==> r.frame.realDts - r.startDts > r.look - r.startPts
  }

  /** After these releases, and with the buffer filled so often, the next frame sets the origin. */
  predicate OriginNext(rs: seq<Release>, fills: nat) {
    rs == [] || rs[|rs| - 1].fill != fills || rs[|rs| - 1].startDts == -1
  }

  /** The pacing origin is that of the last release. */
  predicate SameOrigin(rs: seq<Release>, startDts: int, startPts: int) {
    rs != [] && rs[|rs| - 1].startDts == startDts && rs[|rs| - 1].startPts == startPts
  }

  /** The first frame released after the buffer has been filled sets the origin, and no other does, unless the
      one before it has set the decoding time -1, which is taken for "not set". The others keep the origin. */
  predicate OriginRight(rs: seq<Release>, i: nat)
    requires i < |rs|
  {
    && (rs[i].origin <==> OriginNext(rs[..i], rs[i].fill))
    && (!rs[i].origin ==> SameOrigin(rs[..i], rs[i].startDts, rs[i].startPts))
  }

  ghost predicate AllRight(rs: seq<Release>) {
    forall i :: 0 <= i < |rs| ==> WaitsRight(rs[i]) && OriginRight(rs, i)
  }

  ghost predicate PhaseInv(s: State) {
    && (s.released != [] ==> s.released[|s.released| - 1].fill <= s.fills)
    && match s.phase
       case Idle => Between(s)
       case Holding(_) => Between(s)
       case AwaitingStart(f) => OriginKnown(s) && s.origin && s.startDts == f.realDts && s.lastClock <= s.clock
       case AwaitingTick(f) =>
         OriginKnown(s) && !s.origin && s.lastClock <= s.clock && f.realDts - s.startDts > s.lastClock - s.startPts
       case Ready(f) => OriginKnown(s) && s.seen <= s.clock && WaitsRight(ReleaseNow(s))
       case Popping(_) => SameOrigin(s.released, s.startDts, s.startPts) && s.released[|s.released| - 1].fill == s.fills
  }

  ghost predicate Between(s: State) {
    if OriginNext(s.released, s.fills) then s.startDts == -1 else SameOrigin(s.released, s.startDts, s.startPts)
  }

  ghost predicate OriginKnown(s: State) {
    && (s.origin <==> OriginNext(s.released, s.fills))
    && (!s.origin ==> SameOrigin(s.released, s.startDts, s.startPts))
  }

  lemma RightMore(rs: seq<Release>, r: Release)
    requires AllRight(rs) && WaitsRight(r)
    requires r.origin <==> OriginNext(rs, r.fill)
    requires !r.origin ==> SameOrigin(rs, r.startDts, r.startPts)
    ensures AllRight(rs + [r])
  {
    forall i | 0 <= i < |rs + [r]|
      ensures WaitsRight((rs + [r])[i]) && OriginRight(rs + [r], i)
    {
      if i < |rs| {
        assert (rs + [r])[..i] == rs[..i] && OriginRight(rs, i);
      } else {
        assert (rs + [r])[..i] == rs;
      }
    }
  }

  lemma StepKeepsRight(s: State, step: Step)
    requires AllRight(s.released) && PhaseInv(s) && Enabled(s, step) && (step.Wake? ==> s.queue != [])
    ensures AllRight(Apply(s, step).released) && PhaseInv(Apply(s, step))
  {
    hide AllRight;
    if step.PassOn? {
      RightMore(s.released, ReleaseNow(s));
    }
  }

  /** Over all runs every release waited exactly if it had to, under the origin it should have. */
  lemma {:induction false} ReleasesRight(bufferFrames: int, clock: int, steps: seq<Step>)
    requires Exec(bufferFrames, clock, steps).Ran?
    ensures var s := Exec(bufferFrames, clock, steps).state; AllRight(s.released) && PhaseInv(s)
  {
    if steps != [] {
      var init := steps[..|steps| - 1];
      ReleasesRight(bufferFrames, clock, init);
      StepKeepsRight(Exec(bufferFrames, clock, init).state, steps[|steps| - 1]);
    }
  }

  /** With decoding times other than -1, each filling of the buffer has one origin, its first frame's. */
  lemma {:induction false} OriginOfFill(bufferFrames: int, clock: int, steps: seq<Step>, i: nat)
    requires Exec(bufferFrames, clock, steps).Ran? && i < |Exec(bufferFrames, clock, steps).state.released|
    requires forall r :: r in Exec(bufferFrames, clock, steps).state.released ==> r.frame.realDts != -1
    ensures var rs := Exec(bufferFrames, clock, steps).state.released;
            && rs[i].startDts != -1
            && (rs[i].origin <==> i == 0 || rs[i].fill != rs[i - 1].fill)
            && (rs[i].origin ==> rs[i].startDts == rs[i].frame.realDts)
  {
    var rs := Exec(bufferFrames, clock, steps).state.released;
    ReleasesRight(bufferFrames, clock, steps);
    OriginSet(rs, i);
  }

  lemma {:induction false} OriginSet(rs: seq<Release>, i: nat)
    requires AllRight(rs) && i < |rs| && forall r :: r in rs ==> r.frame.realDts != -1
    ensures rs[i].startDts != -1
    ensures rs[i].origin <==> i == 0 || rs[i].fill != rs[i - 1].fill
  {
    assert WaitsRight(rs[i]) && OriginRight(rs, i) && rs[i] in rs;
    if i > 0 {
      OriginSet(rs, i - 1);
    }
  }

  // ----- the gate

  /** At step k the smoother wakes up to a full buffer. */
  ghost predicate Fills(bufferFrames: int, clock: int, steps: seq<Step>, k: nat)
    requires k < |steps|
  {
    && Exec(bufferFrames, clock, steps[..k]).Ran? && steps[k] == Wake
    && |Exec(bufferFrames, clock, steps[..k]).state.queue| >= bufferFrames
  }

  ghost predicate NoResetFrom(steps: seq<Step>, k: nat) {
    forall j :: k <= j < |steps| ==> steps[j] != Reset
  }

  /** The smoother has woken up to a full buffer and the encoders have not reset it since. */
  ghost predicate Filled(bufferFrames: int, clock: int, steps: seq<Step>) {
    exists k :: 0 <= k < |steps| && Fills(bufferFrames, clock, steps, k) && NoResetFrom(steps, k)
  }

  lemma {:induction false} CompleteIff(bufferFrames: int, clock: int, steps: seq<Step>)
    requires Exec(bufferFrames, clock, steps).Ran?
    ensures Exec(bufferFrames, clock, steps).state.bufferFrames == bufferFrames
    ensures Exec(bufferFrames, clock, steps).state.complete <==> Filled(bufferFrames, clock, steps)
  {
    if steps != [] {
      var init, step := steps[..|steps| - 1], steps[|steps| - 1];
      CompleteIff(bufferFrames, clock, init);
      var s := Exec(bufferFrames, clock, init).state;
      if step == Reset {
        assert !NoResetFrom(steps, |init|);
        assert !Filled(bufferFrames, clock, steps);
      } else if step == Wake && |s.queue| >= bufferFrames {
        assert Fills(bufferFrames, clock, steps, |init|) && NoResetFrom(steps, |init|);
      } else {
        assert init + [step] == steps;
        FilledSnoc(bufferFrames, clock, init, step);
      }
    }
  }

  lemma FilledSnoc(bufferFrames: int, clock: int, init: seq<Step>, step: Step)
    requires step != Reset && Exec(bufferFrames, clock, init).Ran?
    requires !(step == Wake && |Exec(bufferFrames, clock, init).state.queue| >= bufferFrames)
    ensures Filled(bufferFrames, clock, init + [step]) <==> Filled(bufferFrames, clock, init)
  {
    var steps := init + [step];
    assert steps[..|init|] == init;
    if Filled(bufferFrames, clock, init) {
      var k :| 0 <= k < |init| && Fills(bufferFrames, clock, init, k) && NoResetFrom(init, k);
      assert steps[..k] == init[..k];
      assert Fills(bufferFrames, clock, steps, k) && NoResetFrom(steps, k);
    }
    if Filled(bufferFrames, clock, steps) {
      var k :| 0 <= k < |steps| && Fills(bufferFrames, clock, steps, k) && NoResetFrom(steps, k);
      assert steps[..k] == init[..k];
      assert Fills(bufferFrames, clock, init, k);
      assert forall j :: k <= j < |init| ==> init[j] == steps[j];
      assert NoResetFrom(init, k);
    }
  }

  /** A wake-up takes the head of the queue exactly if the buffer is full now, or has been since the last
      reset; otherwise the smoother goes back to waiting. */
  lemma WakeExact(bufferFrames: int, clock: int, steps: seq<Step>)
    requires Exec(bufferFrames, clock, steps).Ran? && Enabled(Exec(bufferFrames, clock, steps).state, Wake)
    ensures Exec(bufferFrames, clock, steps + [Wake]).Ran?
    ensures var s, t := Exec(bufferFrames, clock, steps).state, Exec(bufferFrames, clock, steps + [Wake]).state;
            && s.queue != [] && t.queue == s.queue && t.released == s.released
            && t.phase == (if |s.queue| >= bufferFrames || Filled(bufferFrames, clock, steps)
                           then Holding(s.queue[0]) else Idle)
  {
    RunBasic(bufferFrames, clock, steps);
    RunBasic(bufferFrames, clock, steps + [Wake]);
    CompleteIff(bufferFrames, clock, steps);
    assert (steps + [Wake])[..|steps|] == steps;
  }

  /** The number of fillings grows exactly when a wake-up finds the buffer full that has not been full since
      the last reset. */
  lemma FillsCounted(bufferFrames: int, clock: int, steps: seq<Step>, step: Step)
    requires Exec(bufferFrames, clock, steps).Ran? && Exec(bufferFrames, clock, steps + [step]).Ran?
    ensures var s, t := Exec(bufferFrames, clock, steps).state, Exec(bufferFrames, clock, steps + [step]).state;
            t.fills == s.fills + if step == Wake && |s.queue| >= bufferFrames && !Filled(bufferFrames, clock, steps)
                                 then 1 else 0
  {
    CompleteIff(bufferFrames, clock, steps);
    assert (steps + [step])[..|steps|] == steps;
  }

  ghost predicate KnownInv(s: State) {
    s.phase.Idle? ==> s.known == 0 || (s.known < s.bufferFrames && !s.complete)
  }

  lemma {:induction false} RunKeepsKnown(bufferFrames: int, clock: int, steps: seq<Step>)
    requires Exec(bufferFrames, clock, steps).Ran?
    ensures KnownInv(Exec(bufferFrames, clock, steps).state)
  {
    if steps != [] {
      RunKeepsKnown(bufferFrames, clock, steps[..|steps| - 1]);
    }
  }

  /** No wake-up is lost: the smoother does not sleep while a frame that may be taken is queued. */
  lemma NoLostWakeUp(bufferFrames: int, clock: int, steps: seq<Step>)
    requires Exec(bufferFrames, clock, steps).Ran? && Exec(bufferFrames, clock, steps).state.phase.Idle?
    requires var q := Exec(bufferFrames, clock, steps).state.queue;
             q != [] && (|q| >= bufferFrames || Filled(bufferFrames, clock, steps))
    ensures Enabled(Exec(bufferFrames, clock, steps).state, Wake)
  {
    CompleteIff(bufferFrames, clock, steps);
    RunKeepsKnown(bufferFrames, clock, steps);
  }
}
