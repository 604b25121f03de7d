/** When the VapourSynth filter requests frames: over every run, in order, and one second after they arrived. */
module ReorderRequests {
  import opened Reorder

  // ----- every number once, in order

  /** The requests are those of the numbers from the first one on. */
  ghost predicate LogInv(s: State) {
    if !s.ctx.loaded then s.log == []
    else
      && |s.log| == Requests(s.ctx) - s.ctx.startNum
      && forall i :: 0 <= i < |s.log| ==> s.log[i].number == s.ctx.startNum + i
  }

  lemma StepKeepsLog(s: State, step: Step)
    requires Inv(s) && LogInv(s) && Enabled(s, step)
    ensures LogInv(Apply(s, step))
  {
    match step
    case Submitting(f, script) =>
    case Advancing =>
    case Callback(n, ok) =>
      if s.ctx.loaded { DoneKeeps(s.ctx, s.accepted, n, ok); }
  }

  /** Whatever scripts are loaded on the way, each number is requested once, in order, from the first on. */
  lemma {:induction false} RequestsInOrder(steps: seq<Step>)
    requires Exec(steps).Ran?
    ensures LogInv(Exec(steps).state)
  {
    if steps != [] {
      var init := steps[..|steps| - 1];
      RequestsInOrder(init);
      RunKeepsInv(init);
      StepKeepsLog(Exec(init).state, steps[|steps| - 1]);
    }
  }

  // ----- one second late, and no later

  /** Every script that is looked at has the same number of frames a second. */
  predicate SameFps(steps: seq<Step>, fps: int) {
    forall i :: 0 <= i < |steps| && steps[i].Submitting? && !steps[i].script.Unchanged? ==> steps[i].script.fps == fps
  }

  function Max(a: int, b: int): int {
    if a > b then a else b
  }

  ghost predicate DelayInv(s: State, fps: int) {
    s.ctx.loaded ==>
      && s.ctx.fps == fps
      && |s.log| == Max(0, |s.accepted| - 1 - fps)
      && forall i :: 0 <= i < |s.log| ==> s.log[i].at == s.ctx.startNum + i + fps + 1
  }

  lemma StepKeepsDelay(s: State, step: Step, fps: int)
    requires Inv(s) && LogInv(s) && DelayInv(s, fps) && Enabled(s, step) && fps >= 0
    requires step.Submitting? && !step.script.Unchanged? ==> step.script.fps == fps
    ensures DelayInv(Apply(s, step), fps)
  {
    match step
    case Submitting(f, script) =>
    case Advancing =>
    case Callback(n, ok) =>
      if s.ctx.loaded { DoneKeeps(s.ctx, s.accepted, n, ok); }
  }

  lemma {:induction false} RunKeepsDelay(steps: seq<Step>, fps: int)
    requires Exec(steps).Ran? && SameFps(steps, fps) && fps >= 0
    ensures DelayInv(Exec(steps).state, fps)
  {
    if steps != [] {
      var init := steps[..|steps| - 1];
      assert forall i :: 0 <= i < |init| ==> init[i] == steps[i];
      RunKeepsDelay(init, fps);
      RunKeepsInv(init);
      RequestsInOrder(init);
      StepKeepsDelay(Exec(init).state, steps[|steps| - 1], fps);
    }
  }

  /** With one frame rate, the frame numbered i after the first is requested when the one fps + 1 after it
      arrives, and no other request is made; between two calls as many frames have been requested as have
      arrived, less one and the frames of one second. */
  lemma RequestsExact(steps: seq<Step>, fps: int)
    requires Exec(steps).Ran? && SameFps(steps, fps) && fps >= 0 && Exec(steps).state.ctx.loaded
    ensures var s := Exec(steps).state;
            && |s.log| == (if |s.accepted| > fps + 1 then |s.accepted| - fps - 1 else 0)
            && (forall i :: 0 <= i < |s.log| ==>
                  s.log[i].number == s.ctx.startNum + i && s.log[i].at == s.log[i].number + fps + 1)
            && (!s.ctx.midway ==> s.ctx.outNum - s.ctx.startNum == |s.log|)
  {
    RunKeepsDelay(steps, fps);
    RequestsInOrder(steps);
  }

  // ----- every run

  /** The frame rate of the script looked at last. */
  function LastFps(steps: seq<Step>): int {
    if steps == [] then 0
    else
      var last := steps[|steps| - 1];
      if last.Submitting? && !last.script.Unchanged? then last.script.fps else LastFps(steps[..|steps| - 1])
  }

  lemma {:induction false} FpsIsLast(steps: seq<Step>)
    requires Exec(steps).Ran?
    ensures Exec(steps).state.ctx.fps == LastFps(steps)
  {
    if steps != [] {
      var init, step := steps[..|steps| - 1], steps[|steps| - 1];
      FpsIsLast(init);
      RunKeepsInv(init);
      if step.Callback? && Exec(init).state.ctx.loaded {
        DoneKeeps(Exec(init).state.ctx, Exec(init).state.accepted, step.n, step.ok);
      }
    }
  }

  /** In any run, whether the script looked at last could be loaded or not, a frame that arrives makes a request
      exactly if more than a second of frames has been accepted with it; the next number is requested. */
  lemma {:induction false} RequestIff(steps: seq<Step>, f: Frame, script: Script)
    requires var all := steps + [Submitting(f, script)];
             Exec(steps).Ran? && Exec(all).Ran? && Exec(all).state.ctx.loaded
    ensures var all := steps + [Submitting(f, script)];
            var s, t := Exec(steps).state, Exec(all).state;
            && t.accepted == s.accepted + [f] && t.ctx.frameNum == s.ctx.frameNum + 1
            && t.log == if |t.accepted| > LastFps(all) + 1
                        then s.log + [Request(t.ctx.startNum + |s.log|, t.ctx.frameNum)] else s.log
  {
    hide Inv, LogInv, LastFps, Exec, Apply;
    var all := steps + [Submitting(f, script)];
    ExecMore(steps, Submitting(f, script));
    RunKeepsInv(steps);
    RequestsInOrder(steps);
    FpsIsLast(all);
    LogGrows(Exec(steps).state, f, script);
  }

  lemma ExecMore(steps: seq<Step>, step: Step)
    requires Exec(steps + [step]).Ran?
    ensures Exec(steps).Ran? && Enabled(Exec(steps).state, step)
    ensures Exec(steps + [step]).state == Apply(Exec(steps).state, step)
  {
    assert (steps + [step])[..|steps|] == steps;
  }

  lemma LogGrows(s: State, f: Frame, script: Script)
    requires Inv(s) && LogInv(s) && Enabled(s, Submitting(f, script)) && Apply(s, Submitting(f, script)).ctx.loaded
    ensures var t := Apply(s, Submitting(f, script));
            && t.accepted == s.accepted + [f] && t.ctx.frameNum == s.ctx.frameNum + 1
            && t.log == if |t.accepted| > t.ctx.fps + 1
                        then s.log + [Request(t.ctx.startNum + |s.log|, t.ctx.frameNum)] else s.log
  {
  }
}
