/** Whole runs of the multiplexer beside its producers, as interleavings of atomic steps: a producer
    appends, the multiplexer selects under the lock, sends, and takes the batch out frame by frame. */
module MuxRuns {
  import opened Queues
  import opened Mux
  import opened Sequences

  /** Where the multiplexer thread is. `seen` is the queue it selected `batch` from. */
  datatype Phase =
    | Waiting
    | Sending(batch: seq<Frame>, seen: seq<Frame>, bound: int)
    | Removing(batch: seq<Frame>, next: nat)

  datatype State = State(queue: seq<Frame>, clock: Clock, phase: Phase,
                         appended: seq<Frame>, dropped: seq<Frame>, sent: seq<Sent>)

  datatype Step = Append(frame: Frame) | Select | Send | Remove

  const INITIAL := State([], UNSET, Waiting, [], [], [])

  predicate Enabled(s: State, step: Step) {
    match step
    case Append(_) => true
    case Select => s.phase.Waiting? && HasVideo(s.queue)
    case Send => s.phase.Sending?
    case Remove => s.phase.Removing? && s.phase.next < |s.phase.batch|
  }

  function Apply(s: State, step: Step): State
    requires Enabled(s, step)
  {
    match step
    case Append(f) => s.(queue := s.queue + [f], appended := s.appended + [f])
    case Select =>
      s.(queue := Kept(s.clock, s.queue), clock := Tuned(s.clock, s.queue),
         phase := Sending(Batch(s.clock, s.queue), Kept(s.clock, s.queue), FirstVideo(s.queue).realDts),
         dropped := s.dropped + Purged(s.clock, s.queue))
    case Send => s.(phase := Removing(s.phase.batch, 0), sent := s.sent + Stamped(s.clock, s.phase.batch))
    case Remove =>
      s.(queue := Without(s.queue, s.phase.batch[s.phase.next]),
         phase := if s.phase.next + 1 == |s.phase.batch| then Waiting else Removing(s.phase.batch, s.phase.next + 1))
  }

  datatype Run = Ran(state: State) | Stuck

  /** The state after a sequence of steps, each of which must be enabled where it is taken. */
  function Exec(steps: seq<Step>): Run {
    if steps == [] then Ran(INITIAL)
    else
      match Exec(steps[..|steps| - 1])
      case Ran(s) => if Enabled(s, steps[|steps| - 1]) then Ran(Apply(s, steps[|steps| - 1])) else Stuck
      case Stuck => Stuck
  }

  // ----- what the producers promise

  /** The time a stream's frames are queued by. */
  function Order(f: Frame): int {
    if f.video then f.realDts else f.pts
  }

  predicate InOrder(f: Frame, g: Frame) {
    f.stream == g.stream ==> f.video == g.video && Order(f) <= Order(g)
  }

  predicate Ordered(q: seq<Frame>) {
    forall i, j :: 0 <= i < j < |q| ==> InOrder(q[i], q[j])
  }

  /** The first video frame of all, which is the one that sets the clock, does not have the time stamp
      -1, which the multiplexer takes for "clock not set". */
  predicate FirstStamped(fs: seq<Frame>) {
    HasVideo(fs) ==> FirstVideo(fs).pts != -1
  }

  /** Frames are distinct, those of one stream are queued by time, and the clock can be set. */
  ghost predicate GoodInput(fs: seq<Frame>) {
    Distinct(fs) && Ordered(fs) && FirstStamped(fs)
  }

  function InStream(k: nat): Frame -> bool {
    (f: Frame) => f.stream == k
  }

  /** The frames of one stream, in order. */
  function Of(fs: seq<Frame>, k: nat): seq<Frame> {
    Filter(fs, InStream(k))
  }

  // ----- the invariant

  function NotIn(fs: seq<Frame>): Frame -> bool {
    (f: Frame) => f !in fs
  }

  /** The frames of the batch still to be taken out of the queue. */
  function Pending(s: State): seq<Frame> {
    if s.phase.Removing? && s.phase.next <= |s.phase.batch| then s.phase.batch[s.phase.next..] else []
  }

  /** The queued frames that have not been sent. */
  function Unsent(s: State): seq<Frame> {
    Filter(s.queue, NotIn(Pending(s)))
  }

  /** Each stream's frames left in the order they came: first the dropped ones, then the sent ones,
      then those still queued. */
  ghost predicate StreamKept(s: State, k: nat) {
    Of(s.appended, k) == Of(s.dropped, k) + Of(Frames(s.sent), k) + Of(Unsent(s), k)
  }

  ghost predicate StreamsKept(s: State) {
    forall k :: StreamKept(s, k)
  }

  /** No frame is lost or duplicated. */
  ghost predicate Conserved(s: State) {
    multiset(s.appended) == multiset(s.dropped) + multiset(Frames(s.sent)) + multiset(Unsent(s))
  }

  ghost predicate PhaseInv(s: State) {
    match s.phase
    case Waiting => true
    case Sending(batch, seen, bound) =>
      seen <= s.queue && batch == Filter(seen, InTime(s.clock, bound)) && batch != []
    case Removing(batch, next) =>
      next < |batch| && Distinct(batch) && forall f :: f in batch[next..] ==> f in s.queue
  }

  /** No frame is lost, duplicated or taken out by mistake. */
  ghost predicate ConservationInv(s: State) {
    && Distinct(s.queue)
    && (forall f :: f in s.queue ==> f in s.appended)
    && Conserved(s)
    && PhaseInv(s)
  }

  /** Until the clock is set nothing has left the queue, and the times given to frames that were sent
      are those of the one clock. */
  ghost predicate ClockInv(s: State) {
    && (s.clock.firstPts == -1 ==> s.sent == [] && s.dropped == [] && s.phase.Waiting? && s.queue == s.appended)
    && (forall i :: 0 <= i < |s.sent| ==> s.sent[i].dts == Ticks90k(Rescaled(s.clock, s.sent[i].frame)))
  }

  ghost predicate OrderInv(s: State) {
    Ordered(s.queue) && StreamsKept(s)
  }

  // ----- a threshold cuts every stream in one place

  predicate Splits(q: seq<Frame>, p: Frame -> bool, r: Frame -> bool) {
    && (forall i :: 0 <= i < |q| ==> p(q[i]) == !r(q[i]))
    && (forall i, j :: 0 <= i < j < |q| && q[i].stream == q[j].stream && p(q[j]) ==> p(q[i]))
  }

  /** What passes the threshold is a prefix of each stream, what does not is the rest. */
  lemma {:induction false} StreamSplit(q: seq<Frame>, p: Frame -> bool, r: Frame -> bool, k: nat)
    requires Splits(q, p, r)
    ensures Of(q, k) == Of(Filter(q, p), k) + Of(Filter(q, r), k)
  {
    if q != [] {
      var init, f := q[..|q| - 1], q[|q| - 1];
      assert init + [f] == q;
      StreamSplit(init, p, r, k);
      FilterSnoc(init, f, p);
      FilterSnoc(init, f, r);
      FilterSnoc(init, f, InStream(k));
      if p(f) {
        FilterSnoc(Filter(init, p), f, InStream(k));
        PassingLast(init, p, r, f, k);
      } else {
        FilterSnoc(Filter(init, r), f, InStream(k));
        AppendAssoc(Of(Filter(init, p), k), Of(Filter(init, r), k), if f.stream == k then [f] else []);
      }
    }
  }

  lemma PassingLast(init: seq<Frame>, p: Frame -> bool, r: Frame -> bool, f: Frame, k: nat)
    requires Splits(init + [f], p, r) && p(f)
    ensures f.stream == k ==>
              Of(Filter(init, p), k) + Of(Filter(init, r), k) + [f]
              == Of(Filter(init, p), k) + [f] + Of(Filter(init, r), k)
  {
    if f.stream == k {
      NothingLate(init, p, r, f);
    }
  }

  /** Once a frame of a stream passes, no earlier one of it was held back. */
  lemma NothingLate(init: seq<Frame>, p: Frame -> bool, r: Frame -> bool, f: Frame)
    requires Splits(init + [f], p, r) && p(f)
    ensures Of(Filter(init, r), f.stream) == []
  {
    var q := init + [f];
    FilterMembers(init, r);
    forall g | g in Filter(init, r)
      ensures g.stream != f.stream
    {
      var i :| 0 <= i < |init| && init[i] == g;
      assert q[i] == g && q[|init|] == f;
    }
    FilterNone(Filter(init, r), InStream(f.stream));
  }

  lemma {:induction false} FilterOrdered(q: seq<Frame>, p: Frame -> bool)
    requires Ordered(q)
    ensures Ordered(Filter(q, p))
  {
    if q != [] {
      var init, f := q[..|q| - 1], q[|q| - 1];
      FilterOrdered(init, p);
      FilterMembers(init, p);
      var r := Filter(init, p);
      forall i | 0 <= i < |r|
        ensures InOrder(r[i], f)
      {
        assert r[i] in init;
        var a :| 0 <= a < |init| && init[a] == r[i];
        assert q[a] == r[i] && q[|q| - 1] == f;
      }
    }
  }

  // ----- every step keeps the invariant

  lemma AppendConserves(s: State, f: Frame)
    requires ConservationInv(s) && Distinct(s.appended + [f])
    ensures ConservationInv(Apply(s, Append(f)))
  {
    NewFrame(s, f);
    AppendUnsent(s, f);
  }

  lemma AppendKeepsOrder(s: State, f: Frame)
    requires ConservationInv(s) && OrderInv(s) && Distinct(s.appended + [f]) && Ordered(s.appended + [f])
    ensures OrderInv(Apply(s, Append(f)))
  {
    NewFrame(s, f);
    LastFrame(s, f);
    forall k
      ensures StreamKept(Apply(s, Append(f)), k)
    {
      AppendStream(s, f, k);
    }
  }

  lemma AppendUnsent(s: State, f: Frame)
    requires f !in Pending(s)
    ensures Unsent(Apply(s, Append(f))) == Unsent(s) + [f]
  {
    FilterSnoc(s.queue, f, NotIn(Pending(s)));
  }

  lemma AppendStream(s: State, f: Frame, k: nat)
    requires StreamKept(s, k) && f !in Pending(s)
    ensures StreamKept(Apply(s, Append(f)), k)
  {
    AppendUnsent(s, f);
    FilterSnoc(s.appended, f, InStream(k));
    FilterSnoc(Unsent(s), f, InStream(k));
  }

  lemma NewFrame(s: State, f: Frame)
    requires ConservationInv(s) && Distinct(s.appended + [f])
    ensures f !in s.queue && f !in Pending(s) && Distinct(s.queue + [f])
  {
    var a := s.appended + [f];
    forall i | 0 <= i < |s.queue|
      ensures s.queue[i] != f
    {
      assert s.queue[i] in s.appended;
      var j :| 0 <= j < |s.appended| && s.appended[j] == s.queue[i];
      assert a[j] == s.queue[i] && a[|s.appended|] == f;
    }
  }

  lemma LastFrame(s: State, f: Frame)
    requires (forall g :: g in s.queue ==> g in s.appended) && Ordered(s.queue) && Ordered(s.appended + [f])
    ensures Ordered(s.queue + [f])
  {
    var a := s.appended + [f];
    forall i | 0 <= i < |s.queue|
      ensures InOrder(s.queue[i], f)
    {
      assert s.queue[i] in s.appended;
      var j :| 0 <= j < |s.appended| && s.appended[j] == s.queue[i];
      assert a[j] == s.queue[i] && a[|s.appended|] == f;
    }
  }

  lemma NothingPending(s: State)
    requires !s.phase.Removing?
    ensures Unsent(s) == s.queue
  {
    FilterAll(s.queue, NotIn(Pending(s)));
  }

  lemma EarlySplits(q: seq<Frame>, pts: int)
    requires Ordered(q)
    ensures Splits(q, Early(pts), NotEarly(pts))
  {
    forall i, j | 0 <= i < j < |q| && q[i].stream == q[j].stream && Early(pts)(q[j])
      ensures Early(pts)(q[i])
    {
      assert InOrder(q[i], q[j]);
    }
  }

  lemma InTimeSplits(q: seq<Frame>, c: Clock, bound: int)
    requires Ordered(q)
    ensures Splits(q, InTime(c, bound), TooLate(c, bound))
  {
    forall i, j | 0 <= i < j < |q| && q[i].stream == q[j].stream && InTime(c, bound)(q[j])
      ensures InTime(c, bound)(q[i])
    {
      assert InOrder(q[i], q[j]);
    }
  }

  /** What the purge takes and what it leaves. */
  lemma PurgeParts(c: Clock, q: seq<Frame>)
    requires HasVideo(q) && Distinct(q)
    ensures Distinct(Kept(c, q)) && forall f :: f in Kept(c, q) ==> f in q
    ensures multiset(q) == multiset(Purged(c, q)) + multiset(Kept(c, q))
  {
    if c.firstPts == -1 {
      var pts := FirstVideo(q).pts;
      FilterDistinct(q, NotEarly(pts));
      FilterMembers(q, NotEarly(pts));
      FilterPartition(q, Early(pts), NotEarly(pts));
    }
  }

  lemma PurgeStream(c: Clock, q: seq<Frame>, k: nat)
    requires HasVideo(q) && Ordered(q)
    ensures Of(q, k) == Of(Purged(c, q), k) + Of(Kept(c, q), k)
  {
    if c.firstPts == -1 {
      EarlySplits(q, FirstVideo(q).pts);
      StreamSplit(q, Early(FirstVideo(q).pts), NotEarly(FirstVideo(q).pts), k);
    } else {
      assert Of([], k) == [];
    }
  }

  lemma SelectConserves(s: State)
    requires ConservationInv(s) && Enabled(s, Select)
    ensures ConservationInv(Apply(s, Select))
  {
    PurgeParts(s.clock, s.queue);
    BatchExact(s.clock, s.queue);
    SelectCounts(s);
  }

  lemma SelectCounts(s: State)
    requires Conserved(s) && Distinct(s.queue) && Enabled(s, Select)
    ensures Conserved(Apply(s, Select))
  {
    NothingPending(s);
    NothingPending(Apply(s, Select));
    PurgeParts(s.clock, s.queue);
  }

  lemma SelectKeepsOrder(s: State)
    requires ClockInv(s) && OrderInv(s) && Enabled(s, Select)
    ensures OrderInv(Apply(s, Select))
  {
    if s.clock.firstPts == -1 {
      FilterOrdered(s.queue, NotEarly(FirstVideo(s.queue).pts));
    }
    forall k
      ensures StreamKept(Apply(s, Select), k)
    {
      assert StreamKept(s, k);
      SelectStream(s, k);
    }
  }

  /** Before the purge nothing has been dropped or sent; after it nothing is dropped any more. */
  lemma DroppedNow(s: State)
    requires Enabled(s, Select) && ClockInv(s)
    ensures s.clock.firstPts == -1 ==> s.sent == [] && Apply(s, Select).dropped == Purged(s.clock, s.queue)
    ensures s.clock.firstPts != -1 ==> Apply(s, Select).dropped == s.dropped && Kept(s.clock, s.queue) == s.queue
  {
  }

  lemma SelectStream(s: State, k: nat)
    requires Enabled(s, Select) && StreamKept(s, k) && ClockInv(s) && Ordered(s.queue)
    ensures StreamKept(Apply(s, Select), k)
  {
    NothingPending(s);
    NothingPending(Apply(s, Select));
    PurgeStream(s.clock, s.queue, k);
    DroppedNow(s);
    assert Of([], k) == [];
    if s.clock.firstPts == -1 {
      assert s.dropped == [] && Frames(s.sent) == [];
    }
  }

  /** What sending takes from the queue, and what stays: the frames held back and the newcomers. */
  lemma SendParts(s: State)
    requires PhaseInv(s) && s.phase.Sending? && Distinct(s.queue)
    ensures Distinct(s.phase.batch)
    ensures Filter(s.queue, NotIn(s.phase.batch))
         == Filter(s.phase.seen, TooLate(s.clock, s.phase.bound)) + s.queue[|s.phase.seen|..]
    ensures forall f :: f in s.phase.batch ==> f in s.queue
  {
    var batch, seen, bound := s.phase.batch, s.phase.seen, s.phase.bound;
    var later := s.queue[|seen|..];
    assert s.queue == seen + later;
    assert forall i :: 0 <= i < |seen| ==> seen[i] == s.queue[i];
    FilterDistinct(seen, InTime(s.clock, bound));
    FilterMembers(seen, InTime(s.clock, bound));
    FilterConcat(seen, later, NotIn(batch));
    FilterSame(seen, NotIn(batch), TooLate(s.clock, bound));
    NewcomersNotSeen(s.queue, seen);
    FilterAll(later, NotIn(batch));
  }

  lemma SendStreamParts(s: State, k: nat)
    requires PhaseInv(s) && s.phase.Sending? && Distinct(s.queue) && Ordered(s.queue)
    ensures Of(s.queue, k) == Of(s.phase.batch, k) + Of(Filter(s.queue, NotIn(s.phase.batch)), k)
  {
    var seen, bound := s.phase.seen, s.phase.bound;
    var later := s.queue[|seen|..];
    SendParts(s);
    assert s.queue == seen + later;
    PrefixOrdered(seen, s.queue);
    InTimeSplits(seen, s.clock, bound);
    StreamSplit(seen, InTime(s.clock, bound), TooLate(s.clock, bound), k);
    FilterConcat(seen, later, InStream(k));
    FilterConcat(Filter(seen, TooLate(s.clock, bound)), later, InStream(k));
  }

  lemma SendCounts(s: State)
    requires PhaseInv(s) && s.phase.Sending? && Distinct(s.queue)
    ensures multiset(s.queue) == multiset(s.phase.batch) + multiset(Filter(s.queue, NotIn(s.phase.batch)))
  {
    var seen, bound := s.phase.seen, s.phase.bound;
    SendParts(s);
    assert s.queue == seen + s.queue[|seen|..];
    FilterPartition(seen, InTime(s.clock, bound), TooLate(s.clock, bound));
  }

  lemma NewcomersNotSeen(q: seq<Frame>, seen: seq<Frame>)
    requires seen <= q && Distinct(q)
    ensures forall f :: f in q[|seen|..] ==> f !in seen
  {
    forall f | f in q[|seen|..]
      ensures f !in seen
    {
      var j :| 0 <= j < |q| - |seen| && q[|seen|..][j] == f;
      assert q[|seen| + j] == f;
      forall i | 0 <= i < |seen|
        ensures seen[i] != f
      {
        assert seen[i] == q[i];
      }
    }
  }

  lemma SendConserves(s: State)
    requires ConservationInv(s) && Enabled(s, Send)
    ensures ConservationInv(Apply(s, Send))
  {
    SendParts(s);
    AllPending(s);
    NothingPending(s);
    SendCounts(s);
  }

  lemma SendKeepsOrder(s: State)
    requires ConservationInv(s) && OrderInv(s) && Enabled(s, Send)
    ensures OrderInv(Apply(s, Send))
  {
    forall k
      ensures StreamKept(Apply(s, Send), k)
    {
      assert StreamKept(s, k);
      SendStream(s, k);
    }
  }

  lemma AllPending(s: State)
    requires s.phase.Sending?
    ensures s.phase.batch[0..] == s.phase.batch
    ensures Unsent(Apply(s, Send)) == Filter(s.queue, NotIn(s.phase.batch))
    ensures Frames(Apply(s, Send).sent) == Frames(s.sent) + s.phase.batch
  {
    assert s.phase.batch[0..] == s.phase.batch;
  }

  lemma SendStream(s: State, k: nat)
    requires PhaseInv(s) && s.phase.Sending? && Distinct(s.queue) && Ordered(s.queue) && StreamKept(s, k)
    ensures StreamKept(Apply(s, Send), k)
  {
    AllPending(s);
    NothingPending(s);
    SendStreamParts(s, k);
    FilterConcat(Frames(s.sent), s.phase.batch, InStream(k));
    Regroup(Of(s.dropped, k), Of(Frames(s.sent), k), Of(s.phase.batch, k), Of(Unsent(Apply(s, Send)), k));
  }

  lemma Regroup<T>(a: seq<T>, b: seq<T>, c: seq<T>, d: seq<T>)
    ensures a + b + (c + d) == a + (b + c) + d
  {
  }

  lemma RemoveConserves(s: State)
    requires ConservationInv(s) && Enabled(s, Remove)
    ensures ConservationInv(Apply(s, Remove))
  {
    var batch, next := s.phase.batch, s.phase.next;
    var others := Other(batch[next]);
    WithoutIsFilter(s.queue, batch[next]);
    FilterDistinct(s.queue, others);
    FilterMembers(s.queue, others);
    LaterOnes(batch, next);
    RemoveUnsent(s);
  }

  lemma RemoveKeepsOrder(s: State)
    requires ConservationInv(s) && OrderInv(s) && Enabled(s, Remove)
    ensures OrderInv(Apply(s, Remove))
  {
    var t := Apply(s, Remove);
    WithoutIsFilter(s.queue, s.phase.batch[s.phase.next]);
    FilterOrdered(s.queue, Other(s.phase.batch[s.phase.next]));
    RemoveUnsent(s);
    forall k
      ensures StreamKept(t, k)
    {
      assert StreamKept(s, k);
    }
  }

  lemma LaterOnes(batch: seq<Frame>, next: nat)
    requires Distinct(batch) && next < |batch|
    ensures forall f :: f in batch[next + 1..] ==> f in batch[next..] && f != batch[next]
  {
    forall f | f in batch[next + 1..]
      ensures f in batch[next..] && f != batch[next]
    {
      var j :| 0 <= j < |batch| - next - 1 && batch[next + 1..][j] == f;
      assert batch[next..][j + 1] == f && batch[next + 1 + j] == f;
    }
  }

  lemma RemoveUnsent(s: State)
    requires Distinct(s.queue) && PhaseInv(s) && Enabled(s, Remove)
    ensures Unsent(Apply(s, Remove)) == Unsent(s)
  {
    var t := Apply(s, Remove);
    var batch, next := s.phase.batch, s.phase.next;
    var others := Other(batch[next]);
    WithoutIsFilter(s.queue, batch[next]);
    assert batch[next..] == [batch[next]] + batch[next + 1..];
    assert Pending(t) == batch[next + 1..];
    FilterTwice(s.queue, others, NotIn(Pending(t)), NotIn(Pending(s)));
  }

  // ----- theorems over whole runs

  lemma {:induction false} AppendedGrows(steps: seq<Step>, n: nat)
    requires n <= |steps| && Exec(steps).Ran?
    ensures Exec(steps[..n]).Ran? && Exec(steps[..n]).state.appended <= Exec(steps).state.appended
  {
    if n < |steps| {
      var init := steps[..|steps| - 1];
      AppendedGrows(init, n);
      assert init[..n] == steps[..n];
    } else {
      assert steps[..n] == steps;
    }
  }

  /** Conservation holds in every state any interleaving reaches, whatever the frames' times. */
  lemma {:induction false} RunConserves(steps: seq<Step>)
    requires Exec(steps).Ran? && Distinct(Exec(steps).state.appended)
    ensures ConservationInv(Exec(steps).state)
  {
    if steps != [] {
      var init, step := steps[..|steps| - 1], steps[|steps| - 1];
      AppendedGrows(steps, |init|);
      PrefixDistinct(Exec(init).state.appended, Exec(steps).state.appended);
      RunConserves(init);
      match step
      case Append(f) => AppendConserves(Exec(init).state, f);
      case Select => SelectConserves(Exec(init).state);
      case Send => SendConserves(Exec(init).state);
      case Remove => RemoveConserves(Exec(init).state);
    }
  }

  lemma PrefixDistinct(fs: seq<Frame>, gs: seq<Frame>)
    requires fs <= gs && Distinct(gs)
    ensures Distinct(fs)
  {
    assert forall i :: 0 <= i < |fs| ==> fs[i] == gs[i];
  }

  lemma {:induction false} FirstVideoPrefix(fs: seq<Frame>, gs: seq<Frame>)
    requires fs <= gs && HasVideo(fs)
    ensures HasVideo(gs) && FirstVideo(gs) == FirstVideo(fs)
  {
    var i :| 0 <= i < |fs| && fs[i].video;
    assert gs[i].video && fs[0] == gs[0];
    if !fs[0].video {
      assert fs[1..][i - 1].video;
      assert fs[1..] <= gs[1..];
      FirstVideoPrefix(fs[1..], gs[1..]);
    }
  }

  /** While the clock is unset the first queued video frame is the first of all. */
  lemma {:induction false} RunKeepsClock(steps: seq<Step>)
    requires Exec(steps).Ran? && FirstStamped(Exec(steps).state.appended)
    ensures ClockInv(Exec(steps).state)
  {
    if steps != [] {
      var init := steps[..|steps| - 1];
      var s, t := Exec(init).state, Exec(steps).state;
      AppendedGrows(steps, |init|);
      if HasVideo(s.appended) { FirstVideoPrefix(s.appended, t.appended); }
      RunKeepsClock(init);
      StepKeepsClock(s, steps[|steps| - 1]);
    }
  }

  lemma StepKeepsClock(s: State, step: Step)
    requires ClockInv(s) && Enabled(s, step) && FirstStamped(s.appended)
    ensures ClockInv(Apply(s, step))
  {
  }

  /** So does the order of every stream, for input queued by time. */
  lemma {:induction false} RunKeepsOrder(steps: seq<Step>)
    requires Exec(steps).Ran? && GoodInput(Exec(steps).state.appended)
    ensures OrderInv(Exec(steps).state)
  {
    if steps == [] {
      assert forall k :: StreamKept(INITIAL, k);
    } else {
      var init, step := steps[..|steps| - 1], steps[|steps| - 1];
      var s := Exec(init).state;
      AppendedGrows(steps, |init|);
      GoodPrefix(s.appended, Exec(steps).state.appended);
      RunConserves(init);
      RunKeepsClock(init);
      RunKeepsOrder(init);
      match step
      case Append(f) => AppendKeepsOrder(s, f);
      case Select => SelectKeepsOrder(s);
      case Send => SendKeepsOrder(s);
      case Remove => RemoveKeepsOrder(s);
    }
  }

  lemma GoodPrefix(fs: seq<Frame>, gs: seq<Frame>)
    requires fs <= gs && GoodInput(gs)
    ensures GoodInput(fs)
  {
    PrefixDistinct(fs, gs);
    PrefixOrdered(fs, gs);
    if HasVideo(fs) { FirstVideoPrefix(fs, gs); }
  }

  /** Streams keep their order: what was queued on a stream is, in order, what the purge dropped,
      then what has been sent, then what is still to be sent. */
  lemma {:induction false} StreamsInOrder(steps: seq<Step>, k: nat)
    requires Exec(steps).Ran? && GoodInput(Exec(steps).state.appended)
    ensures var s := Exec(steps).state;
            Of(s.appended, k) == Of(s.dropped, k) + Of(Frames(s.sent), k) + Of(Unsent(s), k)
  {
    RunKeepsOrder(steps);
    assert StreamKept(Exec(steps).state, k);
  }

  /** Within a stream the 90 kHz times never go back, over the whole run. */
  lemma TimesNondecreasing(steps: seq<Step>, i: nat, j: nat)
    requires Exec(steps).Ran? && GoodInput(Exec(steps).state.appended)
    requires i < j < |Exec(steps).state.sent|
    requires Exec(steps).state.sent[i].frame.stream == Exec(steps).state.sent[j].frame.stream
    ensures Exec(steps).state.sent[i].dts <= Exec(steps).state.sent[j].dts
  {
    var s := Exec(steps).state;
    var fs, k := Frames(s.sent), s.sent[i].frame.stream;
    RunKeepsClock(steps);
    StreamsInOrder(steps, k);
    FilterOrdered(s.appended, InStream(k));
    MiddleOrdered(Of(s.dropped, k), Of(fs, k), Of(Unsent(s), k));
    OrderedInStream(fs, k, i, j);
    TimesFollowOrder(s.clock, fs[i], fs[j]);
  }

  lemma MiddleOrdered(a: seq<Frame>, b: seq<Frame>, c: seq<Frame>)
    requires Ordered(a + b + c)
    ensures Ordered(b)
  {
    forall i, j | 0 <= i < j < |b|
      ensures InOrder(b[i], b[j])
    {
      assert (a + b + c)[|a| + i] == b[i] && (a + b + c)[|a| + j] == b[j];
    }
  }

  lemma PrefixOrdered(p: seq<Frame>, q: seq<Frame>)
    requires p <= q && Ordered(q)
    ensures Ordered(p)
  {
    assert forall i :: 0 <= i < |p| ==> p[i] == q[i];
  }

  lemma {:induction false} OrderedInStream(q: seq<Frame>, k: nat, i: nat, j: nat)
    requires i < j < |q| && q[i].stream == q[j].stream == k && Ordered(Of(q, k))
    ensures InOrder(q[i], q[j])
  {
    var init, f := q[..|q| - 1], q[|q| - 1];
    assert q == init + [f];
    FilterSnoc(init, f, InStream(k));
    if j < |init| {
      PrefixOrdered(Of(init, k), Of(q, k));
      OrderedInStream(init, k, i, j);
    } else {
      BeforeLast(init, f, k, q[i]);
    }
  }

  lemma BeforeLast(init: seq<Frame>, f: Frame, k: nat, g: Frame)
    requires g in init && g.stream == k && Ordered(Of(init, k) + [f])
    ensures InOrder(g, f)
  {
    var r := Of(init, k);
    FilterMembers(init, InStream(k));
    var a :| 0 <= a < |r| && r[a] == g;
    assert (r + [f])[a] == g && (r + [f])[|r|] == f;
  }

  lemma TimesFollowOrder(c: Clock, f: Frame, g: Frame)
    requires f.stream == g.stream && InOrder(f, g)
    ensures Ticks90k(Rescaled(c, f)) <= Ticks90k(Rescaled(c, g))
  {
  }

  /** Every frame ever queued is in exactly one place: dropped, sent once, or still waiting. */
  lemma ExactlyOnePlace(steps: seq<Step>, f: Frame)
    requires Exec(steps).Ran? && Distinct(Exec(steps).state.appended) && f in Exec(steps).state.appended
    ensures var s := Exec(steps).state;
            multiset(s.dropped)[f] + multiset(Frames(s.sent))[f] + multiset(Unsent(s))[f] == 1
    ensures Exec(steps).state.phase.Waiting? ==> Unsent(Exec(steps).state) == Exec(steps).state.queue
  {
    var s := Exec(steps).state;
    RunConserves(steps);
    CountOfDistinct(s.appended, f);
    assert multiset(s.appended)[f] == (multiset(s.dropped) + multiset(Frames(s.sent)) + multiset(Unsent(s)))[f];
    if s.phase.Waiting? {
      NothingPending(s);
    }
  }

  lemma {:induction false} CountOfDistinct(q: seq<Frame>, f: Frame)
    requires Distinct(q)
    ensures multiset(q)[f] == if f in q then 1 else 0
  {
    if q != [] {
      var init := q[..|q| - 1];
      CountOfDistinct(init, f);
      assert q == init + [q[|q| - 1]];
    }
  }

  /** Frames are dropped at one moment only: once the clock is set nothing is dropped any more, and
      the clock stays. */
  lemma {:induction false} PurgeOnce(steps: seq<Step>, n: nat)
    requires n <= |steps| && Exec(steps).Ran?
    requires Exec(steps[..n]).Ran? && Exec(steps[..n]).state.clock.firstPts != -1
    ensures Exec(steps).state.clock == Exec(steps[..n]).state.clock
    ensures Exec(steps).state.dropped == Exec(steps[..n]).state.dropped
  {
    if n < |steps| {
      var init := steps[..|steps| - 1];
      assert init[..n] == steps[..n];
      PurgeOnce(init, n);
      var s := Exec(init).state;
      assert s.dropped + [] == s.dropped;
    } else {
      assert steps[..n] == steps;
    }
  }

  // ----- the condition is exact

  /** Whatever is queued later, no selection after one that meets the clock unset purges anything if and
      only if the first video frame's time stamp is not -1. */
  lemma ClockSetIff(c: Clock, q: seq<Frame>)
    requires HasVideo(q) && c.firstPts == -1
    ensures (forall r :: HasVideo(r) ==> Purged(Tuned(c, q), r) == []) <==> FirstVideo(q).pts != -1
  {
    if FirstVideo(q).pts == -1 {
      var a, w := Frame(0, 0, false, 0, 0, 0), Frame(1, 1, true, 1, 0, 0);
      VideoSecond(a, w);
      FilterPair(a, w, Early(1));
      assert Purged(Tuned(c, q), [a, w]) == [a];
    }
  }

  lemma VideoSecond(a: Frame, w: Frame)
    requires !a.video && w.video
    ensures HasVideo([a, w]) && FirstVideo([a, w]) == w
  {
    assert [a, w][1].video;
    assert [a, w][1..] == [w];
  }

  lemma FilterPair(a: Frame, b: Frame, p: Frame -> bool)
    ensures Filter([a, b], p) == (if p(a) then [a] else []) + if p(b) then [b] else []
  {
    assert [a, b] == [a] + [b] && [a] == [] + [a];
    FilterSnoc([], a, p);
    FilterSnoc([a], b, p);
  }

  /** A run of distinct frames queued by time, the first video frame of which is v. */
  ghost predicate StartsWith(steps: seq<Step>, v: Frame) {
    Exec(steps).Ran? && var fs := Exec(steps).state.appended;
    Distinct(fs) && Ordered(fs) && HasVideo(fs) && FirstVideo(fs) == v
  }

  /** Something was purged, and later something else. */
  ghost predicate PurgesAgain(steps: seq<Step>, n: nat)
    requires n <= |steps| && Exec(steps).Ran? && Exec(steps[..n]).Ran?
  {
    Exec(steps[..n]).state.dropped != [] && Exec(steps).state.dropped != Exec(steps[..n]).state.dropped
  }

  ghost predicate OnePurge(v: Frame) {
    forall steps, n :: 0 <= n <= |steps| && StartsWith(steps, v) && Exec(steps[..n]).Ran? ==> !PurgesAgain(steps, n)
  }

  ghost predicate AlwaysInOrder(v: Frame) {
    forall steps :: StartsWith(steps, v) ==> StreamsKept(Exec(steps).state)
  }

  /** Within a stream the decoding times never go back. */
  predicate TimesKept(sent: seq<Sent>) {
    forall i, j :: 0 <= i < j < |sent| && sent[i].frame.stream == sent[j].frame.stream ==> sent[i].dts <= sent[j].dts
  }

  ghost predicate NeverBack(v: Frame) {
    forall steps :: StartsWith(steps, v) ==> TimesKept(Exec(steps).state.sent)
  }

  /** The times of every run never go back if and only if the first video frame's time stamp is not -1. */
  lemma NeverBackIff(v: Frame)
    requires v.video
    ensures NeverBack(v) <==> v.pts != -1
  {
    if v.pts != -1 {
      forall steps, i, j | StartsWith(steps, v) && 0 <= i < j < |Exec(steps).state.sent|
                           && Exec(steps).state.sent[i].frame.stream == Exec(steps).state.sent[j].frame.stream
        ensures Exec(steps).state.sent[i].dts <= Exec(steps).state.sent[j].dts
      {
        TimesNondecreasing(steps, i, j);
      }
    } else {
      var steps := TimesGoBack(v);
    }
  }

  /** With the time stamp -1 there is a run that sets its clock back after it has sent a frame. */
  lemma TimesGoBack(v: Frame) returns (steps: seq<Step>)
    requires v.video && v.pts == -1
    ensures StartsWith(steps, v) && !TimesKept(Exec(steps).state.sent)
  {
    hide Exec, Apply, Distinct, Ordered, HasVideo, FirstVideo, TimesKept, Stamped;
    var q, s, t, d := Later(v), INITIAL, INITIAL, v.realDts;
    var z := Frame(v.id + 6, v.stream, true, -1, d, d - 1000);
    steps, s := TwoRounds(v);
    steps, t := Offer(steps, s, q[2], z);
    SetBack(s.sent, t.clock, q[1], q[2], z, d);
    steps, t := Clear(steps, t);
    SixFrames(v, z);
    assert t.appended == [q[0], v, q[1], q[3], q[2], z];
  }

  lemma SetBack(sent: seq<Sent>, c: Clock, x: Frame, y: Frame, z: Frame, d: int)
    requires |sent| == 3 && sent[1] == Sent(x, Ticks90k(d), Ticks90k(d)) && c == Clock(-1, d - 1000)
    requires x.stream == y.stream && !y.video && y.pts == 0
    ensures !TimesKept(sent + Stamped(c, [y, z]))
  {
    var all := sent + Stamped(c, [y, z]);
    assert all[1] == Sent(x, Ticks90k(d), Ticks90k(d));
    assert all[3] == Sent(y, Ticks90k(d - 999), Ticks90k(d - 999));
  }

  /** Every run purges at most once, and every run keeps every stream in order, if and only if the first
      video frame's time stamp is not -1. */
  lemma OnePurgeIff(v: Frame)
    requires v.video
    ensures OnePurge(v) <==> v.pts != -1
    ensures AlwaysInOrder(v) <==> v.pts != -1
  {
    if v.pts != -1 {
      forall steps, n | 0 <= n <= |steps| && StartsWith(steps, v) && Exec(steps[..n]).Ran?
        ensures !PurgesAgain(steps, n)
      {
        PurgedBefore(steps, n);
      }
      forall steps | StartsWith(steps, v)
        ensures StreamsKept(Exec(steps).state)
      {
        RunKeepsOrder(steps);
      }
    } else {
      var steps, n := SentinelPurgesAgain(v);
    }
  }

  lemma PurgedBefore(steps: seq<Step>, n: nat)
    requires n <= |steps| && Exec(steps).Ran? && Exec(steps[..n]).Ran? && FirstStamped(Exec(steps).state.appended)
    ensures !PurgesAgain(steps, n)
  {
    var fs, gs := Exec(steps[..n]).state.appended, Exec(steps).state.appended;
    AppendedGrows(steps, n);
    if HasVideo(fs) { FirstVideoPrefix(fs, gs); }
    RunKeepsClock(steps[..n]);
    if Exec(steps[..n]).state.dropped != [] {
      PurgeOnce(steps, n);
    }
  }

  /** With the time stamp -1 there is a run that purges at its first selection and again at its third, the
      second time a frame that was queued after one of its stream that has been sent. */
  lemma SentinelPurgesAgain(v: Frame) returns (steps: seq<Step>, n: nat)
    requires v.video && v.pts == -1
    ensures StartsWith(steps, v) && n <= |steps| && Exec(steps[..n]).Ran? && PurgesAgain(steps, n)
    ensures !StreamKept(Exec(steps).state, v.stream + 1)
  {
    var q := Later(v);
    var s, t, again;
    steps, s := TwoRounds(v);
    n := |steps|;
    again, t := Offer(steps, s, q[2], q[4]);
    assert again[..n] == steps;
    SixFrames(v, q[4]);
    assert t.appended == [q[0], v, q[1], q[3], q[2], q[4]];
    MisplacedFrame(t, q[0], v, q[1], q[3], q[2], q[4]);
    steps := again;
  }

  /** Three frames of another stream and two more video frames, at the time of v. */
  function Later(v: Frame): seq<Frame> {
    var k, d := v.stream + 1, v.realDts;
    [Frame(v.id + 1, k, false, -2, 0, 0), Frame(v.id + 2, k, false, -1, 0, 0), Frame(v.id + 3, k, false, 0, 0, 0),
     Frame(v.id + 4, v.stream, true, -1, d, d), Frame(v.id + 5, v.stream, true, 10, d, d)]
  }

  lemma TwoRounds(v: Frame) returns (steps: seq<Step>, s: State)
    requires v.video && v.pts == -1
    ensures Exec(steps) == Ran(s) && s.phase.Waiting? && s.queue == [] && s.clock.firstPts == -1
    ensures var q := Later(v);
            && s.appended == [q[0], v, q[1], q[3]] && s.dropped == [q[0]] && Frames(s.sent) == [v, q[1], q[3]]
            && s.sent[1] == Sent(q[1], Ticks90k(v.realDts), Ticks90k(v.realDts))
  {
    var q := Later(v);
    steps, s := Offer([], INITIAL, q[0], v);
    steps, s := Clear(steps, s);
    steps, s := Offer(steps, s, q[1], q[3]);
    steps, s := Clear(steps, s);
  }

  lemma SixFrames(v: Frame, z: Frame)
    requires v.video && z.video && z.stream == v.stream && z.realDts == v.realDts && z.id > v.id + 4
    ensures var q := Later(v);
            var fs := [q[0], v, q[1], q[3], q[2], z];
            Distinct(fs) && Ordered(fs) && HasVideo(fs) && FirstVideo(fs) == v
  {
    var q := Later(v);
    var fs := [q[0], v, q[1], q[3], q[2], z];
    assert fs[1].video && fs[1..][0] == v;
  }

  /** The stream's frames are a, x and y, but y was dropped and x sent. */
  lemma MisplacedFrame(s: State, a: Frame, v: Frame, x: Frame, w: Frame, y: Frame, z: Frame)
    requires a.stream == x.stream == y.stream == v.stream + 1 && w.stream == z.stream == v.stream && x != y
    requires s.appended == [a, v, x, w, y, z] && s.dropped == [a, y] && Frames(s.sent) == [v, x, w]
    ensures !StreamKept(s, v.stream + 1)
  {
    var p := InStream(v.stream + 1);
    FilterPair(a, v, p);
    FilterPair(x, w, p);
    FilterPair(y, z, p);
    FilterConcat([a, v], [x, w], p);
    FilterConcat([a, v] + [x, w], [y, z], p);
    assert [a, v] + [x, w] + [y, z] == s.appended;
    FilterPair(a, y, p);
    assert Of(s.appended, v.stream + 1)[1] == x;
    assert (Of(s.dropped, v.stream + 1) + Of(Frames(s.sent), v.stream + 1) + Of(Unsent(s), v.stream + 1))[1] == y;
  }

  /** One more step of a run. */
  lemma OneStep(before: seq<Step>, s: State, step: Step) returns (steps: seq<Step>, t: State)
    requires Exec(before) == Ran(s) && Enabled(s, step)
    ensures steps == before + [step] && t == Apply(s, step) && Exec(steps) == Ran(t)
  {
    steps, t := before + [step], Apply(s, step);
    assert steps[..|before|] == before;
  }

  /** A frame and a video frame are queued, and the multiplexer selects while its clock is unset. */
  lemma Offer(before: seq<Step>, s: State, a: Frame, b: Frame) returns (steps: seq<Step>, t: State)
    requires Exec(before) == Ran(s) && s.phase.Waiting? && s.queue == [] && s.clock.firstPts == -1
    requires !a.video && b.video && (a.pts >= b.pts ==> a.pts - b.pts + b.realPts <= b.realDts)
    ensures before <= steps && Exec(steps) == Ran(t) && t.appended == s.appended + [a, b] && t.sent == s.sent
    ensures t.dropped == s.dropped + if a.pts < b.pts then [a] else []
    ensures t.clock == Clock(b.pts, b.realPts) && t.queue == if a.pts < b.pts then [b] else [a, b]
    ensures t.phase.Sending? && t.phase.batch == t.queue
  {
    steps, t := QueueTwo(before, s, a, b);
    SelectStep(t, a, b);
    steps, t := OneStep(steps, t, Select);
  }

  lemma QueueTwo(before: seq<Step>, s: State, a: Frame, b: Frame) returns (steps: seq<Step>, t: State)
    requires Exec(before) == Ran(s) && s.queue == []
    ensures before <= steps && Exec(steps) == Ran(t)
    ensures t == s.(queue := [a, b], appended := s.appended + [a, b])
  {
    steps, t := OneStep(before, s, Append(a));
    steps, t := OneStep(steps, t, Append(b));
    assert t.queue == [a, b] && t.appended == s.appended + [a, b];
  }

  lemma SelectStep(s: State, a: Frame, b: Frame)
    requires s.phase.Waiting? && s.queue == [a, b] && s.clock.firstPts == -1
    requires !a.video && b.video && (a.pts >= b.pts ==> a.pts - b.pts + b.realPts <= b.realDts)
    ensures Enabled(s, Select)
    ensures var left := if a.pts < b.pts then [b] else [a, b];
            Apply(s, Select) == s.(queue := left, clock := Clock(b.pts, b.realPts),
                                   phase := Sending(left, left, b.realDts),
                                   dropped := s.dropped + if a.pts < b.pts then [a] else [])
  {
    hide Tuned, Purged, Kept, Batch, HasVideo, FirstVideo;
    SelectPair(s.clock, s.queue, a, b);
  }

  lemma SelectPair(c: Clock, q: seq<Frame>, a: Frame, b: Frame)
    requires q == [a, b] && !a.video && b.video && c.firstPts == -1
    requires a.pts >= b.pts ==> a.pts - b.pts + b.realPts <= b.realDts
    ensures HasVideo(q) && FirstVideo(q) == b && Tuned(c, q) == Clock(b.pts, b.realPts)
    ensures Purged(c, q) == if a.pts < b.pts then [a] else []
    ensures Batch(c, q) == Kept(c, q) == if a.pts < b.pts then [b] else [a, b]
  {
    VideoSecond(a, b);
    FilterPair(a, b, Early(b.pts));
    FilterPair(a, b, NotEarly(b.pts));
    FilterAll(Kept(c, q), InTime(Tuned(c, q), b.realDts));
  }

  /** The batch is sent and taken out of a queue that holds nothing else. */
  lemma Clear(before: seq<Step>, s: State) returns (steps: seq<Step>, t: State)
    requires Exec(before) == Ran(s) && s.phase.Sending? && s.phase.batch == s.queue && s.queue != []
    ensures before <= steps && Exec(steps) == Ran(t) && t.phase.Waiting? && t.queue == []
    ensures t.appended == s.appended && t.dropped == s.dropped && t.clock == s.clock
    ensures t.sent == s.sent + Stamped(s.clock, s.phase.batch) && Frames(t.sent) == Frames(s.sent) + s.phase.batch
  {
    steps, t := OneStep(before, s, Send);
    AllPending(s);
    steps, t := TakeOut(steps, t);
  }

  lemma {:induction false} TakeOut(before: seq<Step>, s: State) returns (steps: seq<Step>, t: State)
    requires Exec(before) == Ran(s) && s.phase.Removing? && s.phase.next < |s.phase.batch|
    requires s.queue == s.phase.batch[s.phase.next..]
    ensures before <= steps && Exec(steps) == Ran(t) && t == s.(phase := Waiting, queue := [])
    decreases |s.queue|
  {
    assert Without(s.queue, s.phase.batch[s.phase.next]) == s.phase.batch[s.phase.next + 1..];
    steps, t := OneStep(before, s, Remove);
    if t.phase.Removing? {
      steps, t := TakeOut(steps, t);
    }
  }
}
