/** The frame selection of the transport stream multiplexer: the main loop of `open_muxer` in
    mux/ts/ts.c, with `remove_early_frames` of obe/obe.c, run beside the threads that fill its queue. */
module Mux {
  import opened Queues

  /** A coded frame; `id` stands for its address, which no two live frames share. */
  datatype Frame = Frame(id: nat, stream: nat, video: bool, pts: int, realDts: int, realPts: int)

  /** A frame handed to `ts_write_frames`, with the 90 kHz decoding and presentation times it was given. */
  datatype Sent = Sent(frame: Frame, dts: int, pts: int)

  /** `first_video_pts`, with its initial -1, and `first_video_real_pts`. */
  datatype Clock = Clock(firstPts: int, firstRealPts: int)

  const UNSET := Clock(-1, -1)

  // ----- the selection

  /** C division of a signed 64-bit integer by 300. */
  function Ticks90k(t: int): int {
    if t >= 0 then t / 300 else -((-t) / 300)
  }

  function Rescaled(c: Clock, f: Frame): int {
    if f.video then f.realDts else f.pts - c.firstPts + c.firstRealPts
  }

  /** The presentation time of video is its own; other frames are presented when they are decoded. */
  function Presented(c: Clock, f: Frame): int {
    if f.video then f.realPts else Rescaled(c, f)
  }

  function InTime(c: Clock, bound: int): Frame -> bool {
    (f: Frame) => Rescaled(c, f) <= bound
  }

  function TooLate(c: Clock, bound: int): Frame -> bool {
    (f: Frame) => Rescaled(c, f) > bound
  }

  function Early(pts: int): Frame -> bool {
    (f: Frame) => !f.video && f.pts < pts
  }

  function NotEarly(pts: int): Frame -> bool {
    (f: Frame) => f.video || f.pts >= pts
  }

  predicate HasVideo(q: seq<Frame>) {
    exists i :: 0 <= i < |q| && q[i].video
  }

  /** The first queued video frame. */
  function FirstVideo(q: seq<Frame>): (v: Frame)
    requires HasVideo(q)
    ensures v in q && v.video
  {
    if q[0].video then q[0]
    else
      assert exists i :: 0 <= i < |q[1..]| && q[1..][i].video by {
        var i :| 0 <= i < |q| && q[i].video;
        assert q[1..][i - 1].video;
      }
      FirstVideo(q[1..])
  }

  /** The clock is set by the first video frame the multiplexer meets. */
  function Tuned(c: Clock, q: seq<Frame>): Clock
    requires HasVideo(q)
  {
    if c.firstPts == -1 then Clock(FirstVideo(q).pts, FirstVideo(q).realPts) else c
  }

  /** What the queue loses when the clock is set. */
  function Purged(c: Clock, q: seq<Frame>): seq<Frame>
    requires HasVideo(q)
  {
    if c.firstPts == -1 then Filter(q, Early(FirstVideo(q).pts)) else []
  }

  function Kept(c: Clock, q: seq<Frame>): seq<Frame>
    requires HasVideo(q)
  {
    if c.firstPts == -1 then Filter(q, NotEarly(FirstVideo(q).pts)) else q
  }

  function Batch(c: Clock, q: seq<Frame>): seq<Frame>
    requires HasVideo(q)
  {
    Filter(Kept(c, q), InTime(Tuned(c, q), FirstVideo(q).realDts))
  }

  function Stamped(c: Clock, fs: seq<Frame>): (s: seq<Sent>)
    ensures |s| == |fs|
  {
    seq(|fs|, i requires 0 <= i < |fs| => Sent(fs[i], Ticks90k(Rescaled(c, fs[i])), Ticks90k(Presented(c, fs[i]))))
  }

  function Frames(s: seq<Sent>): (fs: seq<Frame>)
    ensures |fs| == |s|
  {
    seq(|s|, i requires 0 <= i < |s| => s[i].frame)
  }

  /** Every batch holds the first queued video frame and exactly the kept frames whose time has
      come by then. */
  lemma BatchExact(c: Clock, q: seq<Frame>)
    requires HasVideo(q)
    ensures FirstVideo(q) in Batch(c, q)
    ensures forall f :: f in Batch(c, q) <==> f in Kept(c, q) && Rescaled(Tuned(c, q), f) <= FirstVideo(q).realDts
    ensures forall f :: f in q <==> f in Kept(c, q) || f in Purged(c, q)
    ensures forall f :: f in Purged(c, q) ==> c.firstPts == -1 && !f.video && f.pts < FirstVideo(q).pts
  {
    var v := FirstVideo(q);
    FilterMembers(q, Early(v.pts));
    FilterMembers(q, NotEarly(v.pts));
    FilterMembers(Kept(c, q), InTime(Tuned(c, q), v.realDts));
  }

  // ----- the thread

  class MuxThread {
    const queue: ObeQueue<Frame>
    var clock: Clock
    var videoDts: int

    constructor (queue: ObeQueue<Frame>)
      ensures this.queue == queue && clock == UNSET
    {
      this.queue := queue;
      clock, videoDts := UNSET, 0;
    }

    /** `remove_early_frames`. */
    method RemoveEarlyFrames(pts: int)
      modifies queue
      ensures queue.items == Filter(old(queue.items), NotEarly(pts))
    {
      ghost var orig, kept, k := queue.items, [], 0;
      var i := 0;
      while i < |queue.items|
        invariant k <= |orig| && i == |kept| && kept == Filter(orig[..k], NotEarly(pts))
        invariant queue.items == kept + orig[k..]
        decreases |orig| - k
      {
        var frame := queue.items[i];
        FilterInPlace(orig, k, NotEarly(pts));
        if !frame.video && frame.pts < pts {
          queue.items := queue.items[..i] + queue.items[i + 1..];
          i := i - 1;
        } else {
          kept := kept + [frame];
        }
        k := k + 1;
        i := i + 1;
      }
      assert orig[..k] == orig && orig[k..] == [];
    }

    /** The section under the queue's lock, once the queue holds a video frame: set the clock on the
        first one, then collect every frame whose time has come. */
    method SelectBatch() returns (batch: seq<Frame>, stamped: seq<Sent>)
      requires HasVideo(queue.items)
      modifies this, queue
      ensures clock == Tuned(old(clock), old(queue.items))
      ensures queue.items == Kept(old(clock), old(queue.items))
      ensures batch == Batch(old(clock), old(queue.items))
      ensures stamped == Stamped(clock, batch)
      ensures videoDts == FirstVideo(old(queue.items)).realDts
    {
      FindVideo();
      batch, stamped := [], [];
      var i := 0;
      assert queue.items[..0] == [];
      while i < |queue.items|
        invariant i <= |queue.items|
        invariant batch == Filter(queue.items[..i], InTime(clock, videoDts)) && stamped == Stamped(clock, batch)
      {
        var frame := queue.items[i];
        assert queue.items[..i + 1][..i] == queue.items[..i];
        var rescaled := frame.pts - clock.firstPts + clock.firstRealPts;
        if frame.video {
          rescaled := frame.realDts;
        }
        if rescaled <= videoDts {
          var dts, pts := frame.realDts, frame.realPts;
          if !frame.video {
            dts := frame.pts - clock.firstPts + clock.firstRealPts;
            pts := frame.pts - clock.firstPts + clock.firstRealPts;
          }
          stamped := stamped + [Sent(frame, Ticks90k(dts), Ticks90k(pts))];
          batch := batch + [frame];
        }
        i := i + 1;
      }
      assert queue.items[..i] == queue.items;
    }

    /** The scan for the first video frame, which sets the clock the first time. */
    method FindVideo()
      requires HasVideo(queue.items)
      modifies this, queue
      ensures clock == Tuned(old(clock), old(queue.items))
      ensures queue.items == Kept(old(clock), old(queue.items))
      ensures videoDts == FirstVideo(old(queue.items)).realDts
    {
      var i := 0;
      ghost var orig := queue.items;
      assert orig[0..] == orig;
      while !queue.items[i].video
        invariant i < |queue.items| && queue.items == orig && clock == old(clock)
        invariant HasVideo(orig[i..]) && FirstVideo(orig[i..]) == FirstVideo(orig)
        decreases |queue.items| - i
      {
        assert orig[i..][1..] == orig[i + 1..];
        i := i + 1;
      }
      var frame := queue.items[i];
      videoDts := frame.realDts;
      if clock.firstPts == -1 {
        clock := Clock(frame.pts, frame.realPts);
        RemoveEarlyFrames(clock.firstPts);
      }
    }

    /** The loop after `ts_write_frames` takes each frame of the batch out of the queue, which may
        have grown meanwhile. */
    method RemoveFrame(frame: Frame)
      modifies queue
      ensures queue.items == Without(old(queue.items), frame)
    {
      queue.RemoveItem(frame);
    }
  }
}
