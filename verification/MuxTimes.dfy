/** What the multiplexer selects, and the times it gives, in terms of the frames themselves: the selection of
    one round, and the 90 kHz times of every frame sent in any run. */
module MuxTimes {
  import opened Queues
  import opened Mux
  import opened MuxRuns

  // ----- one selection

  /** v is the first video frame of a queue. */
  predicate IsFirstVideo(q: seq<Frame>, v: Frame) {
    exists i :: 0 <= i < |q| && q[i] == v && v.video && forall j :: 0 <= j < i ==> !q[j].video
  }

  lemma {:induction false} FirstVideoIs(q: seq<Frame>, v: Frame)
    requires IsFirstVideo(q, v)
    ensures HasVideo(q) && FirstVideo(q) == v
  {
    var i :| 0 <= i < |q| && q[i] == v && v.video && forall j :: 0 <= j < i ==> !q[j].video;
    if i > 0 {
      assert q[1..][i - 1] == v && forall j :: 0 <= j < i - 1 ==> q[1..][j] == q[j + 1];
      FirstVideoIs(q[1..], v);
    }
  }

  lemma {:induction false} FirstVideoFound(q: seq<Frame>)
    requires HasVideo(q)
    ensures IsFirstVideo(q, FirstVideo(q))
  {
    if q[0].video {
      assert q[0] == FirstVideo(q);
    } else {
      var i :| 0 <= i < |q| && q[i].video;
      assert q[1..][i - 1].video;
      FirstVideoFound(q[1..]);
      var v := FirstVideo(q[1..]);
      var k :| 0 <= k < |q[1..]| && q[1..][k] == v && v.video && forall j :: 0 <= j < k ==> !q[1..][j].video;
      forall j | 0 <= j < k + 1
        ensures !q[j].video
      {
        if j > 0 { assert q[j] == q[1..][j - 1]; }
      }
      assert q[k + 1] == v;
    }
  }

  /** The first time, the clock is the first video frame's, and the other frames before it in time go; every
      time, what is due by that frame's decoding time is selected, video by its own and other frames by their
      time from the clock's. */
  lemma SelectionMeans(c: Clock, q: seq<Frame>, v: Frame)
    requires IsFirstVideo(q, v)
    ensures HasVideo(q) && FirstVideo(q) == v
    ensures Tuned(c, q) == if c.firstPts == -1 then Clock(v.pts, v.realPts) else c
    ensures forall f :: f in Purged(c, q) <==> f in q && c.firstPts == -1 && !f.video && f.pts < v.pts
    ensures forall f :: f in Kept(c, q) <==> f in q && (c.firstPts != -1 || f.video || f.pts >= v.pts)
    ensures var t := Tuned(c, q);
            forall f :: f in Batch(c, q) <==>
              f in Kept(c, q) && (if f.video then f.realDts else f.pts - t.firstPts + t.firstRealPts) <= v.realDts
  {
    FirstVideoIs(q, v);
    FilterMembers(q, Early(v.pts));
    FilterMembers(q, NotEarly(v.pts));
    FilterMembers(Kept(c, q), InTime(Tuned(c, q), v.realDts));
  }

  // ----- the times of a run

  /** t is x 27 MHz ticks in 90 kHz ticks, cut off towards zero. */
  predicate InTicks(x: int, t: int) {
    if x >= 0 then 300 * t <= x < 300 * t + 300 else 300 * t - 300 < x <= 300 * t
  }

  /** Video is sent with its own times, other frames with one time, counted from a video frame's. */
  ghost predicate TimedBy(fs: seq<Frame>, e: Sent) {
    if e.frame.video then InTicks(e.frame.realDts, e.dts) && InTicks(e.frame.realPts, e.pts)
    else e.pts == e.dts && exists v :: v in fs && CountedFrom(v, e)
  }

  predicate CountedFrom(v: Frame, e: Sent) {
    v.video && InTicks(e.frame.pts - v.pts + v.realPts, e.dts)
  }

  ghost predicate ClockFrom(fs: seq<Frame>, c: Clock) {
    exists v :: v in fs && v.video && c == Clock(v.pts, v.realPts)
  }

  ghost predicate TimesInv(s: State) {
    && (forall f :: f in s.queue ==> f in s.appended)
    && (s.clock != UNSET || s.phase.Sending? ==> ClockFrom(s.appended, s.clock))
    && (forall i :: 0 <= i < |s.sent| ==> TimedBy(s.appended, s.sent[i]))
  }

  lemma StampedTimes(fs: seq<Frame>, c: Clock, batch: seq<Frame>, i: nat)
    requires ClockFrom(fs, c) && i < |batch|
    ensures TimedBy(fs, Stamped(c, batch)[i])
  {
    var e := Stamped(c, batch)[i];
    var v :| v in fs && v.video && c == Clock(v.pts, v.realPts);
    if !e.frame.video {
      assert CountedFrom(v, e);
    }
  }

  lemma TimedMore(fs: seq<Frame>, f: Frame, e: Sent)
    requires TimedBy(fs, e)
    ensures TimedBy(fs + [f], e)
  {
    if !e.frame.video {
      var v :| v in fs && CountedFrom(v, e);
      assert v in fs + [f] && CountedFrom(v, e);
    }
  }

  lemma {:induction false} WithoutMembers(q: seq<Frame>, x: Frame, f: Frame)
    requires f in Without(q, x)
    ensures f in q
  {
    if q[0] != x && f != q[0] {
      WithoutMembers(q[1..], x, f);
    }
  }

  lemma AppendTimes(s: State, f: Frame)
    requires TimesInv(s)
    ensures TimesInv(Apply(s, Append(f)))
  {
    var t := Apply(s, Append(f));
    forall i | 0 <= i < |t.sent|
      ensures TimedBy(t.appended, t.sent[i])
    {
      TimedMore(s.appended, f, s.sent[i]);
    }
    if ClockFrom(s.appended, s.clock) {
      var v :| v in s.appended && v.video && s.clock == Clock(v.pts, v.realPts);
      assert v in t.appended;
    }
  }

  lemma SelectTimes(s: State)
    requires TimesInv(s) && Enabled(s, Select)
    ensures TimesInv(Apply(s, Select))
  {
    var v := FirstVideo(s.queue);
    FirstVideoFound(s.queue);
    SelectionMeans(s.clock, s.queue, v);
    assert v in s.appended;
  }

  lemma SendTimes(s: State)
    requires TimesInv(s) && Enabled(s, Send)
    ensures TimesInv(Apply(s, Send))
  {
    var t := Apply(s, Send);
    forall i | 0 <= i < |t.sent|
      ensures TimedBy(t.appended, t.sent[i])
    {
      if i >= |s.sent| {
        StampedTimes(s.appended, s.clock, s.phase.batch, i - |s.sent|);
      }
    }
  }

  lemma RemoveTimes(s: State)
    requires TimesInv(s) && Enabled(s, Remove)
    ensures TimesInv(Apply(s, Remove))
  {
    forall f | f in Apply(s, Remove).queue
      ensures f in s.appended
    {
      WithoutMembers(s.queue, s.phase.batch[s.phase.next], f);
    }
  }

  /** In every run, whatever the frames and their stamps, each frame sent carries its times in 90 kHz ticks:
      video its own decoding and presentation times, any other frame one time for both, the time since some
      video frame's input stamp added to that frame's presentation time. */
  lemma {:induction false} SentTimes(steps: seq<Step>)
    requires Exec(steps).Ran?
    ensures TimesInv(Exec(steps).state)
  {
    if steps != [] {
      var init, step := steps[..|steps| - 1], steps[|steps| - 1];
      SentTimes(init);
      match step
      case Append(f) => AppendTimes(Exec(init).state, f);
      case Select => SelectTimes(Exec(init).state);
      case Send => SendTimes(Exec(init).state);
      case Remove => RemoveTimes(Exec(init).state);
    }
  }

  // ----- the one clock of a run

  /** Unless the first video frame of all is stamped -1, the clock of a run is that frame's. */
  lemma {:induction false} ClockIsFirst(steps: seq<Step>)
    requires Exec(steps).Ran? && FirstStamped(Exec(steps).state.appended)
    ensures var s := Exec(steps).state;
            s.clock == UNSET || (HasVideo(s.appended)
                                 && s.clock == Clock(FirstVideo(s.appended).pts, FirstVideo(s.appended).realPts))
  {
    if steps != [] {
      var init, step := steps[..|steps| - 1], steps[|steps| - 1];
      var s, t := Exec(init).state, Exec(steps).state;
      AppendedGrows(steps, |init|);
      if HasVideo(s.appended) { FirstVideoPrefix(s.appended, t.appended); }
      ClockIsFirst(init);
      RunKeepsClock(init);
    }
  }

  /** So every frame that is not video is timed from the first video frame of the run. */
  lemma SentFromFirst(steps: seq<Step>, v: Frame, i: nat)
    requires Exec(steps).Ran? && IsFirstVideo(Exec(steps).state.appended, v) && v.pts != -1
    requires i < |Exec(steps).state.sent| && !Exec(steps).state.sent[i].frame.video
    ensures CountedFrom(v, Exec(steps).state.sent[i])
  {
    FirstVideoIs(Exec(steps).state.appended, v);
    ClockIsFirst(steps);
    RunKeepsClock(steps);
  }
}
