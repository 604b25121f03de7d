/** The frame bookkeeping of the VapourSynth filter: `filter_vapoursynth_process`, the first part of
    `create_filterchain` that touches the counters, and `vs_frame_done_callback` of
    filters/video/vapoursynth_vf.cpp. Frames go in in order, are filtered out of order, and come out in
    order again. */
module Reorder {

  /** A raw frame; `id` stands for its address. */
  datatype Frame = Frame(id: nat)

  /** What a call finds when it looks at the script file: nothing new, a script that loads, or one that
      does not, which may or may not have reached its evaluation. */
  datatype Script = Unchanged | Loads(fps: int) | Fails(fps: int, evaluated: bool)

  /** The counters and maps of the filter context. `loaded` says that a filter chain exists, `midway`
      that a frame has been requested whose number is still `outNum`. */
  datatype Context = Context(loaded: bool, fps: int, startNum: int, frameNum: int, outNum: int, encNum: int,
                             lastFetch: int,
                             inImages: map<int, Frame>, outImages: map<int, Frame>, midway: bool, encoded: seq<Frame>)

  const INITIAL := Context(false, 0, 0, -1, 0, 0, -1, map[], map[], false, [])

  // ----- the steps

  function LoadScript(c: Context, script: Script): Context {
    match script
    case Unchanged => c
    case Loads(fps) =>
      var d := c.(loaded := true, fps := fps, lastFetch := -1);
      if c.loaded then d else d.(startNum := c.frameNum, encNum := c.frameNum, outNum := c.frameNum)
    case Fails(fps, evaluated) => c.(fps := fps, lastFetch := if evaluated then -1 else c.lastFetch)
  }

  /** A frame of a supported format arrives: number it, keep it, and after one second of frames request
      the next one. Without a filter chain the caller keeps the frame. */
  function Submit(c: Context, frame: Frame, script: Script): Context {
    var d := LoadScript(c.(frameNum := c.frameNum + 1), script);
    if !d.loaded then d
    else
      var e := d.(inImages := d.inImages[d.frameNum := frame]);
      if e.frameNum - e.startNum <= e.fps then e
      else if e.lastFetch != e.outNum then e.(lastFetch := e.outNum, midway := true)
      else e.(outNum := e.outNum + 1)
  }

  /** The increment after the request; the callback may come before it. */
  function Advance(c: Context): Context {
    c.(outNum := c.outNum + 1, midway := false)
  }

  /** Pass on held frames for as long as the next number is among them. */
  function Release(c: Context): Context
    decreases c.outNum - c.encNum
  {
    if c.encNum <= c.outNum && c.encNum in c.outImages then
      Release(ReleaseOne(c))
    else c
  }

  /** Pass on the held frame with the next number. */
  function ReleaseOne(c: Context): Context
    requires c.encNum in c.outImages
  {
    c.(encoded := c.encoded + [c.outImages[c.encNum]], outImages := c.outImages - {c.encNum}, encNum := c.encNum + 1)
  }

  /** The frame with number n is held until the ones before it have been passed on. */
  function Held(c: Context, n: int): Context
    requires n in c.inImages
  {
    c.(inImages := c.inImages - {n}, outImages := c.outImages[n := c.inImages[n]])
  }

  /** A requested frame is done: pass it on if it is the next one, otherwise hold it and pass on what
      can go. A failed frame, or one that is not waiting, changes nothing. */
  function Done(c: Context, n: int, ok: bool): Context {
    if !ok || n !in c.inImages then c
    else if n == c.encNum then
      c.(inImages := c.inImages - {n}, encoded := c.encoded + [c.inImages[n]], encNum := c.encNum + 1)
    else
      Release(Held(c, n))
  }

  // ----- the filter

  class Filter {
    var ctx: Context

    constructor ()
      ensures ctx == INITIAL
    {
      ctx := INITIAL;
    }

    /** `filter_vapoursynth_process` for a supported format and a nonzero width; the result is the
        source's return value, `requested` the number asked for. */
    method Process(frame: Frame, script: Script) returns (notTaken: bool, requested: int)
      requires !ctx.midway
      modifies this
      ensures var d := Submit(old(ctx), frame, script);
              && ctx == (if d.midway then Advance(d) else d) && notTaken == !ctx.loaded
              && (d.midway ==> requested == d.outNum)
    {
      requested := -1;
      ctx := ctx.(frameNum := ctx.frameNum + 1);
      ctx := LoadScript(ctx, script);
      if !ctx.loaded {
        return true, requested;
      }
      ctx := ctx.(inImages := ctx.inImages[ctx.frameNum := frame]);
      if ctx.frameNum - ctx.startNum <= ctx.fps {
        return false, requested;
      }
      if ctx.lastFetch != ctx.outNum {
        requested := ctx.outNum;
        ctx := ctx.(lastFetch := ctx.outNum, midway := true);
      }
      ctx := ctx.(outNum := ctx.outNum + 1, midway := false);
      return false, requested;
    }

    /** `vs_frame_done_callback`. */
    method FrameDone(n: int, ok: bool)
      modifies this
      ensures ctx == Done(old(ctx), n, ok)
    {
      if !ok || n !in ctx.inImages {
        return;
      }
      var rawFrame := ctx.inImages[n];
      ctx := ctx.(inImages := ctx.inImages - {n});
      if n == ctx.encNum {
        ctx := ctx.(encoded := ctx.encoded + [rawFrame], encNum := ctx.encNum + 1);
        return;
      }
      ctx := ctx.(outImages := ctx.outImages[n := rawFrame]);
      ghost var held := ctx;
      var encN := ctx.encNum;
      while encN <= ctx.outNum
        invariant encN == ctx.encNum && Release(ctx) == Release(held)
        decreases ctx.outNum - encN
      {
        if encN !in ctx.outImages {
          break;
        }
        var image := ctx.outImages[encN];
        ctx := ctx.(outImages := ctx.outImages - {encN}, encoded := ctx.encoded + [image], encNum := ctx.encNum + 1);
        encN := encN + 1;
      }
    }
  }

  // ----- runs

  datatype Step = Submitting(frame: Frame, script: Script) | Advancing | Callback(n: int, ok: bool)

  /** A request for the frame with a number, made when frame `at` arrived. */
  datatype Request = Request(number: int, at: int)

  /** A run's state: the context, the frames accepted since the filter chain was first loaded, the numbers
      requested so far, and the requests in order. */
  datatype State = State(ctx: Context, accepted: seq<Frame>, requested: set<int>, log: seq<Request>)

  predicate Enabled(s: State, step: Step) {
    match step
    case Submitting(_, script) => !s.ctx.midway && (script.Unchanged? || script.fps >= 0)
    case Advancing => s.ctx.midway
    case Callback(n, _) => n in s.requested
  }

  function Apply(s: State, step: Step): State
    requires Enabled(s, step)
  {
    match step
    case Submitting(f, script) =>
      var d := Submit(s.ctx, f, script);
      State(d, if d.loaded then s.accepted + [f] else s.accepted,
            if d.midway then s.requested + {d.outNum} else s.requested,
            if d.midway then s.log + [Request(d.outNum, d.frameNum)] else s.log)
    case Advancing => s.(ctx := Advance(s.ctx))
    case Callback(n, ok) => s.(ctx := Done(s.ctx, n, ok))
  }

  datatype Run = Ran(state: State) | Disabled

  function Exec(steps: seq<Step>): Run {
    if steps == [] then Ran(State(INITIAL, [], {}, []))
    else
      match Exec(steps[..|steps| - 1])
      case Ran(s) => if Enabled(s, steps[|steps| - 1]) then Ran(Apply(s, steps[|steps| - 1])) else Disabled
      case Disabled => Disabled
  }

  // ----- what holds in every reachable state

  /** One past the last number requested. */
  function Requests(c: Context): int {
    if c.midway then c.outNum + 1 else c.outNum
  }

  ghost predicate Fresh(s: State) {
    && s.ctx.inImages == map[] && s.ctx.outImages == map[] && s.ctx.encoded == [] && !s.ctx.midway
    && s.accepted == [] && s.requested == {} && s.ctx.frameNum >= -1 && s.ctx.lastFetch == -1
  }

  ghost predicate Counters(s: State) {
    && 0 <= s.ctx.startNum <= s.ctx.encNum <= Requests(s.ctx) <= s.ctx.frameNum
    && (if s.ctx.midway then s.ctx.lastFetch <= s.ctx.outNum else s.ctx.lastFetch < s.ctx.outNum)
    && |s.accepted| == s.ctx.frameNum - s.ctx.startNum + 1
    && (forall n :: n in s.requested <==> s.ctx.startNum <= n < Requests(s.ctx))
  }

  /** Every accepted frame is in exactly one place: passed on, waiting to be filtered, or held. */
  ghost predicate Places(c: Context, accepted: seq<Frame>) {
    && 0 <= c.startNum <= c.encNum <= Requests(c) <= c.frameNum && |accepted| == c.frameNum - c.startNum + 1
    && c.encoded == accepted[..c.encNum - c.startNum]
    && (forall n :: n in c.inImages ==> c.encNum <= n <= c.frameNum && c.inImages[n] == accepted[n - c.startNum])
    && (forall n :: n in c.outImages ==> c.encNum <= n < Requests(c) && c.outImages[n] == accepted[n - c.startNum])
    && (forall n :: c.encNum <= n <= c.frameNum ==> (n in c.inImages) == (n !in c.outImages))
  }

  ghost predicate Inv(s: State) {
    if s.ctx.loaded then Counters(s) && Places(s.ctx, s.accepted) else Fresh(s)
  }

  /** Passing on held frames keeps every frame in its place, and leaves the next number not held. */
  lemma {:induction false} ReleaseKeeps(c: Context, accepted: seq<Frame>)
    requires Places(c, accepted)
    ensures var d := Release(c);
            Places(d, accepted) && d.encNum !in d.outImages
            && d == c.(encNum := d.encNum, outImages := d.outImages, encoded := d.encoded)
    decreases c.outNum - c.encNum
  {
    if c.encNum <= c.outNum && c.encNum in c.outImages {
      ReleaseOneKeeps(c, accepted);
      ReleaseKeeps(ReleaseOne(c), accepted);
    } else if c.encNum > c.outNum {
      NextNotHeld(c, accepted);
    }
  }

  lemma ReleaseOneKeeps(c: Context, accepted: seq<Frame>)
    requires Places(c, accepted) && c.encNum in c.outImages
    ensures Places(ReleaseOne(c), accepted)
  {
    var k := c.encNum - c.startNum;
    assert accepted[..k + 1] == accepted[..k] + [accepted[k]];
  }

  lemma NextNotHeld(c: Context, accepted: seq<Frame>)
    requires Places(c, accepted) && c.encNum > c.outNum
    ensures c.encNum !in c.outImages
  {
  }

  lemma PassKeeps(c: Context, accepted: seq<Frame>, n: int)
    requires Places(c, accepted) && n < Requests(c) && n in c.inImages && n == c.encNum
    ensures Places(Done(c, n, true), accepted)
  {
    assert accepted[..n + 1 - c.startNum] == accepted[..n - c.startNum] + [accepted[n - c.startNum]];
  }

  lemma HoldKeeps(c: Context, accepted: seq<Frame>, n: int)
    requires Places(c, accepted) && n < Requests(c) && n in c.inImages && n != c.encNum
    ensures Places(Held(c, n), accepted)
  {
  }

  lemma DoneKeeps(c: Context, accepted: seq<Frame>, n: int, ok: bool)
    requires Places(c, accepted) && n < Requests(c)
    ensures Places(Done(c, n, ok), accepted)
    ensures var d := Done(c, n, ok);
            d == c.(encNum := d.encNum, inImages := d.inImages, outImages := d.outImages, encoded := d.encoded)
  {
    if ok && n in c.inImages {
      if n == c.encNum {
        PassKeeps(c, accepted, n);
      } else {
        HoldKeeps(c, accepted, n);
        ReleaseKeeps(Held(c, n), accepted);
      }
    }
  }

  lemma StepKeepsInv(s: State, step: Step)
    requires Inv(s) && Enabled(s, step)
    ensures Inv(Apply(s, step))
  {
    match step
    case Submitting(f, script) => SubmitKeeps(s, f, script);
    case Advancing =>
    case Callback(n, ok) =>
      if s.ctx.loaded {
        DoneKeeps(s.ctx, s.accepted, n, ok);
      }
  }

  lemma SubmitKeeps(s: State, f: Frame, script: Script)
    requires Inv(s) && Enabled(s, Submitting(f, script))
    ensures Inv(Apply(s, Submitting(f, script)))
  {
    var d := LoadScript(s.ctx.(frameNum := s.ctx.frameNum + 1), script);
    if d.loaded {
      SubmitMoves(s, f, script);
      SubmitCounts(s, f, script);
    }
  }

  lemma SubmitMoves(s: State, f: Frame, script: Script)
    requires Inv(s) && Enabled(s, Submitting(f, script)) && Submit(s.ctx, f, script).loaded
    ensures Places(Submit(s.ctx, f, script), s.accepted + [f])
  {
    hide Inv, Places, Numbered;
    var d := LoadScript(s.ctx.(frameNum := s.ctx.frameNum + 1), script);
    LoadNumbers(s, script);
    SubmitPlaces(d, s.accepted, f);
    var e := d.(inImages := d.inImages[d.frameNum := f]);
    if e.frameNum - e.startNum > e.fps {
      RequestPlaces(e, s.accepted + [f]);
    }
  }

  /** The context with the new frame's number but without the frame. */
  ghost predicate Numbered(d: Context, accepted: seq<Frame>) {
    && 0 <= d.startNum <= d.encNum <= d.outNum <= d.frameNum
    && |accepted| == d.frameNum - d.startNum
    && d.encoded == accepted[..d.encNum - d.startNum]
    && (forall n :: n in d.inImages ==> d.encNum <= n < d.frameNum && d.inImages[n] == accepted[n - d.startNum])
    && (forall n :: n in d.outImages ==> d.encNum <= n < d.outNum && d.outImages[n] == accepted[n - d.startNum])
    && (forall n :: d.encNum <= n < d.frameNum ==> (n in d.inImages) == (n !in d.outImages))
  }

  lemma LoadNumbers(s: State, script: Script)
    requires Inv(s) && !s.ctx.midway && (script.Unchanged? || script.fps >= 0)
    requires LoadScript(s.ctx.(frameNum := s.ctx.frameNum + 1), script).loaded
    ensures var d := LoadScript(s.ctx.(frameNum := s.ctx.frameNum + 1), script);
            !d.midway && d.lastFetch != d.outNum && d.outNum <= d.frameNum && Numbered(d, s.accepted)
            && (d.frameNum - d.startNum > d.fps ==> d.outNum < d.frameNum)
  {
  }

  lemma SubmitCounts(s: State, f: Frame, script: Script)
    requires Inv(s) && Enabled(s, Submitting(f, script)) && Submit(s.ctx, f, script).loaded
    ensures Counters(Apply(s, Submitting(f, script)))
  {
    hide Places;
  }

  /** Requesting a frame moves no frame. */
  lemma RequestPlaces(e: Context, accepted: seq<Frame>)
    requires Places(e, accepted) && !e.midway && e.outNum < e.frameNum
    ensures Places(e.(lastFetch := e.outNum, midway := true), accepted)
  {
  }

  /** A loaded chain numbers the new frame one past the last. */
  lemma SubmitPlaces(d: Context, accepted: seq<Frame>, f: Frame)
    requires d.loaded && !d.midway && Numbered(d, accepted)
    ensures Places(d.(inImages := d.inImages[d.frameNum := f]), accepted + [f])
  {
    assert (accepted + [f])[..d.encNum - d.startNum] == accepted[..d.encNum - d.startNum];
  }

  lemma {:induction false} RunKeepsInv(steps: seq<Step>)
    requires Exec(steps).Ran?
    ensures Inv(Exec(steps).state)
  {
    if steps != [] {
      RunKeepsInv(steps[..|steps| - 1]);
      StepKeepsInv(Exec(steps[..|steps| - 1]).state, steps[|steps| - 1]);
    }
  }

  // ----- theorems

  /** In order: the encode queue holds exactly the accepted frames numbered from the first on, without
      gap or duplicate, whatever the order of completion and however often a callback fails or repeats. */
  lemma PassedOnInOrder(steps: seq<Step>)
    requires Exec(steps).Ran? && Exec(steps).state.ctx.loaded
    ensures var s := Exec(steps).state;
            0 <= s.ctx.encNum - s.ctx.startNum <= |s.accepted|
            && s.ctx.encoded == s.accepted[..s.ctx.encNum - s.ctx.startNum]
  {
    RunKeepsInv(steps);
  }

  /** After a completion that had to wait, the next number is not held back. */
  lemma SlowPathDrains(s: State, n: int)
    requires Inv(s) && n in s.requested && n in s.ctx.inImages && n != s.ctx.encNum
    ensures Done(s.ctx, n, true).encNum !in Done(s.ctx, n, true).outImages
  {
    HoldKeeps(s.ctx, s.accepted, n);
    ReleaseKeeps(Held(s.ctx, n), s.accepted);
  }

  /** After the completion of the next number itself, which does not look at the held frames, the new
      next number is held back exactly if it had completed before. */
  lemma FastPathHoldsBackIff(s: State)
    requires Inv(s) && s.ctx.encNum in s.requested && s.ctx.encNum in s.ctx.inImages
    ensures var d := Done(s.ctx, s.ctx.encNum, true);
            (d.encNum in d.outImages <==> s.ctx.encNum + 1 in s.ctx.outImages)
            && (d.encNum in d.outImages <==> s.ctx.encNum + 1 < Requests(s.ctx) && s.ctx.encNum + 1 !in s.ctx.inImages)
  {
  }

  /** So two neighbours that complete in the wrong order leave the second one held, with nothing left
      to set it free but the completion of a later frame. */
  lemma SwappedPairIsHeld(s: State)
    requires Inv(s) && s.ctx.loaded && s.ctx.outImages == map[]
    requires s.ctx.encNum in s.requested && s.ctx.encNum + 1 in s.requested
    ensures s.ctx.encNum in s.ctx.inImages && s.ctx.encNum + 1 in s.ctx.inImages
    ensures var n := s.ctx.encNum;
            var d := Done(Done(s.ctx, n + 1, true), n, true);
            d.encNum == n + 1 && n + 1 in d.outImages && n !in d.inImages && n + 1 !in d.inImages
  {
  }

  /** A run that gets there: of three frames two are requested, and the second completes first. Then every
      requested frame has completed, and the second one is held. */
  function SwappedRun(f: Frame, g: Frame, h: Frame): seq<Step> {
    [Submitting(f, Loads(0)), Submitting(g, Unchanged), Advancing, Submitting(h, Unchanged), Advancing,
     Callback(1, true), Callback(0, true)]
  }

  lemma SwappedRunHolds(f: Frame, g: Frame, h: Frame)
    ensures Exec(SwappedRun(f, g, h)).Ran?
    ensures var s := Exec(SwappedRun(f, g, h)).state;
            && s.requested == {0, 1} && (forall n :: n in s.requested ==> n !in s.ctx.inImages)
            && s.accepted == [f, g, h] && s.ctx.encoded == [f] && s.ctx.encNum == 1 && s.ctx.outImages == map[1 := g]
  {
    hide Exec;
    var steps, s := TwoRequested(f, g, h);
    assert Held(s.ctx, 1).encNum == 0 && 0 !in Held(s.ctx, 1).outImages;
    steps, s := OneStep(steps, s, Callback(1, true));
    steps, s := OneStep(steps, s, Callback(0, true));
    assert steps == SwappedRun(f, g, h);
  }

  lemma TwoRequested(f: Frame, g: Frame, h: Frame) returns (steps: seq<Step>, s: State)
    ensures steps == SwappedRun(f, g, h)[..5] && Exec(steps) == Ran(s)
    ensures s.ctx == Context(true, 0, 0, 2, 2, 0, 1, map[0 := f, 1 := g, 2 := h], map[], false, [])
    ensures s.accepted == [f, g, h] && s.requested == {0, 1}
  {
    assert Exec([]) == Ran(State(INITIAL, [], {}, []));
    hide Exec;
    steps, s := OneStep([], State(INITIAL, [], {}, []), Submitting(f, Loads(0)));
    assert s.ctx == Context(true, 0, 0, 0, 0, 0, -1, map[0 := f], map[], false, []);
    steps, s := OneStep(steps, s, Submitting(g, Unchanged));
    steps, s := OneStep(steps, s, Advancing);
    steps, s := OneStep(steps, s, Submitting(h, Unchanged));
    steps, s := OneStep(steps, s, Advancing);
  }

  /** One more step of a run. */
  lemma OneStep(before: seq<Step>, s: State, step: Step) returns (steps: seq<Step>, t: State)
    requires Exec(before) == Ran(s) && Enabled(s, step)
    ensures steps == before + [step] && t == Apply(s, step) && Exec(steps) == Ran(t)
  {
    steps, t := before + [step], Apply(s, step);
    assert steps[..|before|] == before;
  }

  /** Once every requested frame has completed, all of them have been passed on if and only if the next
      number is not held back. */
  lemma AllCompleted(c: Context, accepted: seq<Frame>)
    requires Places(c, accepted) && forall n :: n in c.inImages ==> n >= Requests(c)
    ensures c.encNum !in c.outImages <==> c.encNum == Requests(c)
    ensures c.encNum == Requests(c) ==> c.outImages == map[]
  {
    if c.encNum == Requests(c) {
      assert forall n :: n !in c.outImages;
    }
  }

  /** The last outstanding completion passes on everything, unless its frame is the next one and is not
      the last requested: then the frames after it stay held. */
  lemma LastCompletionPassesAllIff(s: State, n: int)
    requires Inv(s) && s.ctx.loaded && n in s.requested && n in s.ctx.inImages
    requires forall m :: m in s.ctx.inImages && m in s.requested ==> m == n
    ensures var d := Done(s.ctx, n, true);
            d.encNum == Requests(s.ctx) <==> n != s.ctx.encNum || n + 1 == Requests(s.ctx)
  {
    var d := Done(s.ctx, n, true);
    DoneKeeps(s.ctx, s.accepted, n, true);
    if n != s.ctx.encNum {
      SlowPathDrains(s, n);
      OnlyOne(s, n);
      AllCompleted(d, s.accepted);
    }
  }

  lemma OnlyOne(s: State, n: int)
    requires Inv(s) && s.ctx.loaded && n in s.requested && n in s.ctx.inImages && n != s.ctx.encNum
    requires forall m :: m in s.ctx.inImages && m in s.requested ==> m == n
    ensures var d := Done(s.ctx, n, true);
            Requests(d) == Requests(s.ctx) && forall m :: m in d.inImages ==> m >= Requests(d)
  {
    HoldKeeps(s.ctx, s.accepted, n);
    var held := Held(s.ctx, n);
    ReleaseKeeps(held, s.accepted);
    assert Done(s.ctx, n, true).inImages == held.inImages;
  }

  /** A frame whose filtering never succeeds stops the output before its number for good: however the
      run goes on without its successful completion, it stays where it is and nothing passes it. */
  lemma {:induction false} FailureStalls(steps: seq<Step>, k: nat, n: int)
    requires k <= |steps| && Exec(steps).Ran? && Exec(steps[..k]).Ran?
    requires Exec(steps[..k]).state.ctx.loaded && n in Exec(steps[..k]).state.ctx.inImages
    requires forall i :: k <= i < |steps| ==> steps[i] != Callback(n, true)
    ensures var c := Exec(steps).state.ctx; c.loaded && n in c.inImages && c.encNum <= n
  {
    RunKeepsInv(steps);
    if k < |steps| {
      var init := steps[..|steps| - 1];
      assert init[..k] == steps[..k];
      FailureStalls(init, k, n);
      RunKeepsInv(init);
      StaysWaiting(Exec(init).state, steps[|steps| - 1], n);
    } else {
      assert steps[..k] == steps;
    }
  }

  lemma StaysWaiting(s: State, step: Step, n: int)
    requires Inv(s) && s.ctx.loaded && n in s.ctx.inImages && Enabled(s, step) && step != Callback(n, true)
    ensures Apply(s, step).ctx.loaded && n in Apply(s, step).ctx.inImages
  {
    if step.Callback? && step.ok && step.n in s.ctx.inImages && step.n != s.ctx.encNum {
      HoldKeeps(s.ctx, s.accepted, step.n);
      ReleaseKeeps(Held(s.ctx, step.n), s.accepted);
    }
  }
}
