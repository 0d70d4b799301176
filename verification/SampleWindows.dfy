/** The sliding windows of lifetimes and idle times over whole manager runs. */
module SampleWindows {
  import opened Common
  import opened Session
  import opened Manager
  import R = Registry
  import Runs = ManagerRuns
  import X = Metrics

  /** Samples in the order in which they were taken. */
  datatype Samples = Samples(lifetimes: seq<nat>, idleTimes: seq<nat>)

  const NONE := Samples([], [])

  function Join(a: Samples, b: Samples): Samples {
    Samples(a.lifetimes + b.lifetimes, a.idleTimes + b.idleTimes)
  }

  // ----- What a run samples -----

  /** A discarded session gives its idle time, and its lifetime unless the clock has gone back behind its creation. */
  function OfDiscard(s: ManagerState, id: SessionId, now: Time): Samples {
    if id !in s.reg.sessions || id !in s.metrics.history then NONE else
      var born := s.metrics.history[id].createdAt;
      Samples(if now >= born then [now - born] else [], [s.reg.sessions[id].IdleTime(now)])
  }

  function OfExpiry(c: ManagerConfig, s: ManagerState, snapshot: R.Sessions, order: seq<SessionId>, now: Time): Samples
    decreases |order|
  {
    if order == [] then NONE
    else if order[0] in snapshot && ShouldExpire(c.lifecycle, snapshot[order[0]], now) then
      Join(OfDiscard(s, order[0], now), OfExpiry(c, Discard(c, s, order[0], now), snapshot, order[1..], now))
    else OfExpiry(c, s, snapshot, order[1..], now)
  }

  function OfStep(c: ManagerConfig, s: ManagerState, op: Runs.ManagerOp): Samples {
    match op
    case Close(id, now) => OfDiscard(UpdateSessionStatus(c, s, id, Closing, now).0, id, now)
    case Tick(order, _, now) => OfExpiry(c, s, s.reg.sessions, order, now)
    case _ => NONE
  }

  function OfRun(c: ManagerConfig, s: ManagerState, ops: seq<Runs.ManagerOp>): Samples
    decreases |ops|
  {
    if ops == [] then NONE else Join(OfStep(c, s, ops[0]), OfRun(c, Runs.Step(c, s, ops[0]), ops[1..]))
  }

  // ----- The windows follow -----

  /** The windows hold the latest of all the samples, the averages are those of the windows. */
  ghost predicate Windowed(x: X.MetricsState, all: Samples) {
    && x.lifetimeSamples == X.Latest(all.lifetimes, 1000)
    && x.idleTimeSamples == X.Latest(all.idleTimes, 1000)
    && x.avgSessionLifetime == X.Average(x.lifetimeSamples, 0)
    && x.avgIdleTime == X.Average(x.idleTimeSamples, 0)
  }

  ghost predicate SameWindows(x: X.MetricsState, y: X.MetricsState) {
    && y.lifetimeSamples == x.lifetimeSamples && y.idleTimeSamples == x.idleTimeSamples
    && y.avgSessionLifetime == x.avgSessionLifetime && y.avgIdleTime == x.avgIdleTime
  }

  lemma StatusKeepsWindows(c: ManagerConfig, s: ManagerState, id: SessionId, status: SessionStatus, now: Time)
    ensures SameWindows(s.metrics, UpdateSessionStatus(c, s, id, status, now).0.metrics)
  {
  }

  lemma UseKeepsWindows(c: ManagerConfig, s: ManagerState, id: SessionId, now: Time)
    ensures SameWindows(s.metrics, UseSession(c, s, id, now).0.metrics)
  {
    if id in s.reg.sessions {
      StatusKeepsWindows(c, Touch(c, s, id, now), id, Active, now);
    }
  }

  lemma JoinNothing(a: Samples)
    ensures Join(a, NONE) == a && Join(NONE, a) == a
  {
    assert a.lifetimes + [] == a.lifetimes && a.idleTimes + [] == a.idleTimes;
    assert [] + a.lifetimes == a.lifetimes && [] + a.idleTimes == a.idleTimes;
  }

  lemma JoinTwice(a: Samples, b: Samples, d: Samples)
    ensures Join(Join(a, b), d) == Join(a, Join(b, d))
  {
    assert a.lifetimes + b.lifetimes + d.lifetimes == a.lifetimes + (b.lifetimes + d.lifetimes);
    assert a.idleTimes + b.idleTimes + d.idleTimes == a.idleTimes + (b.idleTimes + d.idleTimes);
  }

  /** The windows after a closing record; `taken` is what it samples. */
  ghost predicate Slides(x: X.MetricsState, y: X.MetricsState, taken: Samples) {
    && |taken.lifetimes| <= 1 && |taken.idleTimes| <= 1
    && y.lifetimeSamples == (if taken.lifetimes == [] then x.lifetimeSamples
                             else X.AddSample(x.lifetimeSamples, taken.lifetimes[0], X.MAX_SAMPLES))
    && y.idleTimeSamples == (if taken.idleTimes == [] then x.idleTimeSamples
                             else X.AddSample(x.idleTimeSamples, taken.idleTimes[0], X.MAX_SAMPLES))
    && y.avgSessionLifetime == X.Average(y.lifetimeSamples, x.avgSessionLifetime)
    && y.avgIdleTime == X.Average(y.idleTimeSamples, x.avgIdleTime)
  }

  lemma ClosureSlides(x: X.MetricsState, m: SessionMetadata, now: Time, taken: Samples)
    requires if m.id !in x.history then taken == NONE else
               taken == Samples(if now >= x.history[m.id].createdAt then [now - x.history[m.id].createdAt] else [],
                                [m.IdleTime(now)])
    ensures Slides(x, X.RecordClosed(x, m, now), taken)
  {
    var left := X.Leave(X.CountClosed(x), m.status);
    assert left.history == x.history && SameWindows(x, left);
  }

  lemma OneMoreSample(before: seq<nat>, taken: seq<nat>)
    requires |taken| <= 1
    ensures X.Latest(before + taken, X.MAX_SAMPLES)
         == if taken == [] then X.Latest(before, X.MAX_SAMPLES)
            else X.AddSample(X.Latest(before, X.MAX_SAMPLES), taken[0], X.MAX_SAMPLES)
  {
    if taken == [] {
      assert before + taken == before;
    } else {
      assert taken == [taken[0]];
      X.LatestSlides(before, taken[0], X.MAX_SAMPLES);
    }
  }

  lemma SlidingStaysWindowed(x: X.MetricsState, y: X.MetricsState, all: Samples, taken: Samples)
    requires Windowed(x, all) && Slides(x, y, taken)
    ensures Windowed(y, Join(all, taken))
  {
    OneMoreSample(all.lifetimes, taken.lifetimes);
    OneMoreSample(all.idleTimes, taken.idleTimes);
  }

  /** A registered session is filed under its own id and is in the history. */
  ghost predicate Known(s: ManagerState, id: SessionId) {
    id in s.reg.sessions ==> s.reg.sessions[id].id == id && id in s.metrics.history
  }

  lemma AllAreKnown(c: ManagerConfig, s: ManagerState, id: SessionId)
    requires Inv(c, s) && c.enableMetrics
    ensures Known(s, id)
  {
  }

  lemma DiscardStaysWindowed(c: ManagerConfig, s: ManagerState, id: SessionId, now: Time, all: Samples)
    requires Known(s, id) && c.enableMetrics && Windowed(s.metrics, all)
    ensures Windowed(Discard(c, s, id, now).metrics, Join(all, OfDiscard(s, id, now)))
    ensures |OfDiscard(s, id, now).idleTimes|
         == Discard(c, s, id, now).metrics.sessionsClosed - s.metrics.sessionsClosed
  {
    if id in s.reg.sessions {
      var m := s.reg.sessions[id];
      ClosureSlides(s.metrics, m, now, OfDiscard(s, id, now));
      SlidingStaysWindowed(s.metrics, X.RecordClosed(s.metrics, m, now), all, OfDiscard(s, id, now));
      X.ClosedCounts(s.metrics, m, now);
    } else {
      JoinNothing(all);
    }
  }

  lemma {:induction false} ExpiryStaysWindowed(c: ManagerConfig, s: ManagerState, snapshot: R.Sessions,
                                               order: seq<SessionId>,
                                               now: Time, all: Samples)
    requires Inv(c, s) && c.enableMetrics && Windowed(s.metrics, all)
    ensures Windowed(ExpireAll(c, s, snapshot, order, now).metrics, Join(all, OfExpiry(c, s, snapshot, order, now)))
    ensures |OfExpiry(c, s, snapshot, order, now).idleTimes|
         == ExpireAll(c, s, snapshot, order, now).metrics.sessionsClosed - s.metrics.sessionsClosed
    decreases |order|
  {
    if order == [] {
      JoinNothing(all);
    } else if order[0] in snapshot && ShouldExpire(c.lifecycle, snapshot[order[0]], now) {
      var id, taken := order[0], OfDiscard(s, order[0], now);
      var after := Discard(c, s, id, now);
      AllAreKnown(c, s, id);
      DiscardStaysWindowed(c, s, id, now, all);
      DiscardKeepsInv(c, s, id, now);
      ExpiryStaysWindowed(c, after, snapshot, order[1..], now, Join(all, taken));
      JoinTwice(all, taken, OfExpiry(c, after, snapshot, order[1..], now));
    } else {
      ExpiryStaysWindowed(c, s, snapshot, order[1..], now, all);
    }
  }

  lemma ClosingKnows(c: ManagerConfig, s: ManagerState, id: SessionId, now: Time)
    requires Inv(c, s) && c.enableMetrics
    ensures var closing := UpdateSessionStatus(c, s, id, Closing, now).0;
            Known(closing, id) && closing.metrics.sessionsClosed == s.metrics.sessionsClosed
  {
    StatusKeepsInv(c, s, id, Closing, now);
    AllAreKnown(c, UpdateSessionStatus(c, s, id, Closing, now).0, id);
    if id in s.reg.sessions {
      StatusChangeMovesGauges(s.metrics, s.reg.sessions[id].status, Closing);
    }
  }

  lemma CloseStaysWindowed(c: ManagerConfig, s: ManagerState, id: SessionId, now: Time, all: Samples)
    requires Inv(c, s) && c.enableMetrics && Windowed(s.metrics, all)
    ensures Windowed(CloseSession(c, s, id, now).0.metrics, Join(all, OfStep(c, s, Runs.Close(id, now))))
    ensures |OfStep(c, s, Runs.Close(id, now)).idleTimes|
         == CloseSession(c, s, id, now).0.metrics.sessionsClosed - s.metrics.sessionsClosed
  {
    StatusKeepsWindows(c, s, id, Closing, now);
    ClosingKnows(c, s, id, now);
    DiscardStaysWindowed(c, UpdateSessionStatus(c, s, id, Closing, now).0, id, now, all);
  }

  lemma OthersKeepWindows(c: ManagerConfig, s: ManagerState, op: Runs.ManagerOp)
    requires !op.Close? && !op.Tick?
    ensures SameWindows(s.metrics, Runs.Step(c, s, op).metrics)
    ensures Runs.Step(c, s, op).metrics.sessionsClosed == s.metrics.sessionsClosed
  {
    match op
    case Create(_) =>
    case SetStatus(id, status, now) => StatusKeepsWindows(c, s, id, status, now);
    case Use(id, now) => UseKeepsWindows(c, s, id, now);
    case Connect(m, now) =>
      var found := FindReusable(c, s, m.Key(), now);
      if found.Some? { UseKeepsWindows(c, s, found.value, now); }
  }

  lemma StepStaysWindowed(c: ManagerConfig, s: ManagerState, op: Runs.ManagerOp, all: Samples)
    requires Inv(c, s) && c.enableMetrics && Windowed(s.metrics, all)
    ensures Windowed(Runs.Step(c, s, op).metrics, Join(all, OfStep(c, s, op)))
    ensures |OfStep(c, s, op).idleTimes| == Runs.Step(c, s, op).metrics.sessionsClosed - s.metrics.sessionsClosed
  {
    if op.Close? {
      CloseStaysWindowed(c, s, op.id, op.now, all);
    } else if op.Tick? {
      ExpiryStaysWindowed(c, s, s.reg.sessions, op.order, op.now, all);
    } else {
      OthersKeepWindows(c, s, op);
      JoinNothing(all);
    }
  }

  lemma {:induction false} RunStaysWindowed(c: ManagerConfig, s: ManagerState, ops: seq<Runs.ManagerOp>, all: Samples)
    requires Inv(c, s) && Runs.ProperRun(c, s, ops) && c.enableMetrics && Windowed(s.metrics, all)
    ensures Windowed(Runs.Run(c, s, ops).metrics, Join(all, OfRun(c, s, ops)))
    ensures |OfRun(c, s, ops).idleTimes| == Runs.Run(c, s, ops).metrics.sessionsClosed - s.metrics.sessionsClosed
    decreases |ops|
  {
    if ops == [] {
      JoinNothing(all);
    } else {
      var next, taken := Runs.Step(c, s, ops[0]), OfStep(c, s, ops[0]);
      StepStaysWindowed(c, s, ops[0], all);
      Runs.StepKeepsInv(c, s, ops[0]);
      RunStaysWindowed(c, next, ops[1..], Join(all, taken));
      JoinTwice(all, taken, OfRun(c, next, ops[1..]));
    }
  }

  /** Main result: in every run each session closed or expired is sampled once, the windows hold the latest samples,
      oldest first, and the averages are those of the windows. */
  lemma WindowsHoldLatest(c: ManagerConfig, ops: seq<Runs.ManagerOp>)
    requires c.enableMetrics && Runs.ProperRun(c, EMPTY, ops)
    ensures var x := Runs.Run(c, EMPTY, ops).metrics;
            Windowed(x, OfRun(c, EMPTY, ops)) && |OfRun(c, EMPTY, ops).idleTimes| == x.sessionsClosed
  {
    Runs.EmptyIsInv(c);
    assert Windowed(EMPTY.metrics, NONE);
    RunStaysWindowed(c, EMPTY, ops, NONE);
    JoinNothing(OfRun(c, EMPTY, ops));
  }
}
