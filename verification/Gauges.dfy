/** The status gauges of the metrics: no decrement is ever clipped, and when the peak gauge is the peak. */
module Gauges {
  import opened Common
  import opened Session
  import opened Manager
  import H = Handler
  import R = Registry
  import Runs = ManagerRuns
  import X = Metrics

  // ----- The gauges with plain subtraction -----

  datatype Plain = Plain(active: int, idle: int, failed: int)

  function PlainOf(x: X.MetricsState): Plain {
    Plain(x.activeSessions, x.idleSessions, x.failedSessions)
  }

  function Minus(g: Plain, status: SessionStatus): Plain {
    Plain(g.active - CountIf(status == Active), g.idle - CountIf(status == Idle), g.failed - CountIf(status == Failed))
  }

  function Plus(g: Plain, status: SessionStatus): Plain {
    Plain(g.active + CountIf(status == Active), g.idle + CountIf(status == Idle), g.failed + CountIf(status == Failed))
  }

  function PlainStatus(s: ManagerState, id: SessionId, to: SessionStatus, g: Plain): Plain {
    if id in s.reg.sessions then Plus(Minus(g, s.reg.sessions[id].status), to) else g
  }

  function PlainUse(s: ManagerState, id: SessionId, g: Plain): Plain {
    if id in s.reg.sessions && s.reg.sessions[id].status == Idle then Plus(Minus(g, Idle), Active) else g
  }

  function PlainDiscard(s: ManagerState, id: SessionId, g: Plain): Plain {
    if id in s.reg.sessions then Minus(g, s.reg.sessions[id].status) else g
  }

  function PlainExpire(c: ManagerConfig, s: ManagerState, snapshot: R.Sessions, order: seq<SessionId>, now: Time,
                       g: Plain)
    : Plain
    decreases |order|
  {
    if order == [] then g
    else if order[0] in snapshot && ShouldExpire(c.lifecycle, snapshot[order[0]], now) then
      PlainExpire(c, Discard(c, s, order[0], now), snapshot, order[1..], now, PlainDiscard(s, order[0], g))
    else PlainExpire(c, s, snapshot, order[1..], now, g)
  }

  /** What one operation does to the gauges, every decrement a plain one. */
  function PlainStep(c: ManagerConfig, s: ManagerState, op: Runs.ManagerOp, g: Plain): Plain {
    match op
    case Create(_) => g
    case SetStatus(id, status, _) => PlainStatus(s, id, status, g)
    case Use(id, _) => PlainUse(s, id, g)
    case Close(id, now) =>
      PlainDiscard(UpdateSessionStatus(c, s, id, Closing, now).0, id, PlainStatus(s, id, Closing, g))
    case Connect(m, now) =>
      var found := FindReusable(c, s, m.Key(), now);
      if found.Some? then PlainUse(s, found.value, g) else g
    case Tick(order, _, now) => PlainExpire(c, s, s.reg.sessions, order, now, g)
  }

  function PlainRun(c: ManagerConfig, s: ManagerState, ops: seq<Runs.ManagerOp>, g: Plain): Plain
    decreases |ops|
  {
    if ops == [] then g else PlainRun(c, Runs.Step(c, s, ops[0]), ops[1..], PlainStep(c, s, ops[0], g))
  }

  /** A decrement for this status is not clipped. */
  predicate Counts(x: X.MetricsState, status: SessionStatus) {
    match status
    case Active => x.activeSessions > 0
    case Idle => x.idleSessions > 0
    case Failed => x.failedSessions > 0
    case _ => true
  }

  lemma CountedOnce(x: X.MetricsState, sessions: R.Sessions, id: SessionId)
    requires GaugesExact(x, sessions) && id in sessions
    ensures Counts(x, sessions[id].status)
  {
    assert id in WithStatus(sessions, sessions[id].status);
  }

  lemma StatusChangeIsPlain(x: X.MetricsState, from: SessionStatus, to: SessionStatus)
    requires Counts(x, from)
    ensures PlainOf(X.RecordConnection(X.RecordStatusChange(x, from, to), from, to))
         == Plus(Minus(PlainOf(x), from), to)
  {
    StatusChangeMovesGauges(x, from, to);
  }

  lemma ClosureIsPlain(x: X.MetricsState, m: SessionMetadata, now: Time)
    requires Counts(x, m.status)
    ensures PlainOf(X.RecordClosed(x, m, now)) == Minus(PlainOf(x), m.status)
  {
    X.ClosedLowersGauges(x, m, now);
  }

  lemma StatusIsPlain(c: ManagerConfig, s: ManagerState, id: SessionId, to: SessionStatus, now: Time)
    requires Inv(c, s) && c.enableMetrics
    ensures PlainOf(UpdateSessionStatus(c, s, id, to, now).0.metrics) == PlainStatus(s, id, to, PlainOf(s.metrics))
  {
    if id in s.reg.sessions {
      var from := s.reg.sessions[id].status;
      CountedOnce(s.metrics, s.reg.sessions, id);
      StatusChangeIsPlain(s.metrics, from, to);
    }
  }

  lemma UseIsPlain(c: ManagerConfig, s: ManagerState, id: SessionId, now: Time)
    requires Inv(c, s) && c.enableMetrics
    ensures PlainOf(UseSession(c, s, id, now).0.metrics) == PlainUse(s, id, PlainOf(s.metrics))
  {
    if id in s.reg.sessions {
      var touched := Touch(c, s, id, now);
      assert PlainOf(touched.metrics) == PlainOf(s.metrics);
      TouchKeepsInv(c, s, id, now);
      if touched.reg.sessions[id].status == Idle { StatusIsPlain(c, touched, id, Active, now); }
    }
  }

  lemma DiscardIsPlain(c: ManagerConfig, s: ManagerState, id: SessionId, now: Time)
    requires Inv(c, s) && c.enableMetrics
    ensures PlainOf(Discard(c, s, id, now).metrics) == PlainDiscard(s, id, PlainOf(s.metrics))
  {
    if id in s.reg.sessions {
      var m := s.reg.sessions[id];
      CountedOnce(s.metrics, s.reg.sessions, id);
      ClosureIsPlain(s.metrics, m, now);
    }
  }

  lemma {:induction false} ExpireIsPlain(c: ManagerConfig, s: ManagerState, snapshot: R.Sessions,
                                         order: seq<SessionId>, now: Time)
    requires Inv(c, s) && c.enableMetrics
    ensures PlainOf(ExpireAll(c, s, snapshot, order, now).metrics)
         == PlainExpire(c, s, snapshot, order, now, PlainOf(s.metrics))
    decreases |order|
  {
    if order == [] {
    } else if order[0] in snapshot && ShouldExpire(c.lifecycle, snapshot[order[0]], now) {
      DiscardIsPlain(c, s, order[0], now);
      DiscardKeepsInv(c, s, order[0], now);
      ExpireIsPlain(c, Discard(c, s, order[0], now), snapshot, order[1..], now);
    } else {
      ExpireIsPlain(c, s, snapshot, order[1..], now);
    }
  }

  lemma CloseIsPlain(c: ManagerConfig, s: ManagerState, id: SessionId, now: Time)
    requires Inv(c, s) && c.enableMetrics
    ensures PlainOf(CloseSession(c, s, id, now).0.metrics)
         == PlainDiscard(UpdateSessionStatus(c, s, id, Closing, now).0, id,
                         PlainStatus(s, id, Closing, PlainOf(s.metrics)))
  {
    StatusIsPlain(c, s, id, Closing, now);
    StatusKeepsInv(c, s, id, Closing, now);
    DiscardIsPlain(c, UpdateSessionStatus(c, s, id, Closing, now).0, id, now);
  }

  lemma StepIsPlain(c: ManagerConfig, s: ManagerState, op: Runs.ManagerOp)
    requires Inv(c, s) && c.enableMetrics
    ensures PlainOf(Runs.Step(c, s, op).metrics) == PlainStep(c, s, op, PlainOf(s.metrics))
  {
    if op.SetStatus? {
      StatusIsPlain(c, s, op.id, op.status, op.now);
    } else if op.Tick? {
      ExpireIsPlain(c, s, s.reg.sessions, op.order, op.now);
    } else {
      OtherStepIsPlain(c, s, op);
    }
  }

  lemma OtherStepIsPlain(c: ManagerConfig, s: ManagerState, op: Runs.ManagerOp)
    requires Inv(c, s) && c.enableMetrics && !op.SetStatus? && !op.Tick?
    ensures PlainOf(Runs.Step(c, s, op).metrics) == PlainStep(c, s, op, PlainOf(s.metrics))
  {
    if op.Use? {
      UseIsPlain(c, s, op.id, op.now);
    } else if op.Close? {
      CloseIsPlain(c, s, op.id, op.now);
    } else if op.Connect? && FindReusable(c, s, op.m.Key(), op.now).Some? {
      UseIsPlain(c, s, FindReusable(c, s, op.m.Key(), op.now).value, op.now);
    }
  }

  lemma {:induction false} RunIsPlain(c: ManagerConfig, s: ManagerState, ops: seq<Runs.ManagerOp>)
    requires Inv(c, s) && Runs.ProperRun(c, s, ops) && c.enableMetrics
    ensures PlainOf(Runs.Run(c, s, ops).metrics) == PlainRun(c, s, ops, PlainOf(s.metrics))
    decreases |ops|
  {
    if ops == [] {
    } else {
      StepIsPlain(c, s, ops[0]);
      Runs.StepKeepsInv(c, s, ops[0]);
      RunIsPlain(c, Runs.Step(c, s, ops[0]), ops[1..]);
    }
  }

  /** Main result: in every run the gauges are what plain subtraction gives, so no saturating decrement ever clips. */
  lemma NoDecrementClips(c: ManagerConfig, ops: seq<Runs.ManagerOp>)
    requires c.enableMetrics && Runs.ProperRun(c, EMPTY, ops)
    ensures PlainOf(Runs.Run(c, EMPTY, ops).metrics) == PlainRun(c, EMPTY, ops, Plain(0, 0, 0))
  {
    Runs.EmptyIsInv(c);
    RunIsPlain(c, EMPTY, ops);
  }

  // ----- The peak gauge -----

  ghost function Load(x: X.MetricsState): nat {
    x.activeSessions + x.idleSessions
  }

  /** From `x` to `y` the peak has grown to the new load and no further. */
  ghost predicate PeakFollows(x: X.MetricsState, y: X.MetricsState) {
    y.peakConcurrentSessions == Max(x.peakConcurrentSessions, Load(y))
  }

  ghost predicate PeakCovers(x: X.MetricsState) {
    x.peakConcurrentSessions >= Load(x)
  }

  /** The operation makes a session idle that was neither active nor idle, at a moment when the load is at its peak. */
  ghost predicate SilentRaise(s: ManagerState, op: Runs.ManagerOp) {
    && op.SetStatus? && op.status == Idle && op.id in s.reg.sessions
    && s.reg.sessions[op.id].status != Active && s.reg.sessions[op.id].status != Idle
    && s.metrics.peakConcurrentSessions == Load(s.metrics)
  }

  lemma StatusMovesPeakIff(c: ManagerConfig, s: ManagerState, id: SessionId, to: SessionStatus, now: Time)
    requires Inv(c, s) && c.enableMetrics && PeakCovers(s.metrics)
    ensures PeakFollows(s.metrics, UpdateSessionStatus(c, s, id, to, now).0.metrics)
       <==> !SilentRaise(s, Runs.SetStatus(id, to, now))
  {
    if id in s.reg.sessions {
      var from := s.reg.sessions[id].status;
      StatusChangeMovesGauges(s.metrics, from, to);
      assert id in WithStatus(s.reg.sessions, from);
    }
  }

  lemma UseMovesPeak(c: ManagerConfig, s: ManagerState, id: SessionId, now: Time)
    requires Inv(c, s) && c.enableMetrics && PeakCovers(s.metrics)
    ensures PeakFollows(s.metrics, UseSession(c, s, id, now).0.metrics)
  {
    if id in s.reg.sessions {
      var touched := Touch(c, s, id, now);
      assert PeakFollows(s.metrics, touched.metrics) && PeakCovers(touched.metrics);
      TouchKeepsInv(c, s, id, now);
      StatusMovesPeakIff(c, touched, id, Active, now);
    }
  }

  lemma DiscardKeepsPeak(c: ManagerConfig, s: ManagerState, id: SessionId, now: Time)
    ensures Discard(c, s, id, now).metrics.peakConcurrentSessions == s.metrics.peakConcurrentSessions
    ensures Load(Discard(c, s, id, now).metrics) <= Load(s.metrics)
  {
    if id in s.reg.sessions && c.enableMetrics { X.ClosedLowersGauges(s.metrics, s.reg.sessions[id], now); }
  }

  lemma CloseMovesPeak(c: ManagerConfig, s: ManagerState, id: SessionId, now: Time)
    requires Inv(c, s) && c.enableMetrics && PeakCovers(s.metrics)
    ensures PeakFollows(s.metrics, CloseSession(c, s, id, now).0.metrics)
  {
    var closing := UpdateSessionStatus(c, s, id, Closing, now).0;
    if id in s.reg.sessions {
      StatusChangeMovesGauges(s.metrics, s.reg.sessions[id].status, Closing);
      DiscardKeepsPeak(c, closing, id, now);
    }
  }

  lemma {:induction false} ExpireKeepsPeak(c: ManagerConfig, s: ManagerState, snapshot: R.Sessions,
                                           order: seq<SessionId>, now: Time)
    ensures ExpireAll(c, s, snapshot, order, now).metrics.peakConcurrentSessions == s.metrics.peakConcurrentSessions
    ensures Load(ExpireAll(c, s, snapshot, order, now).metrics) <= Load(s.metrics)
    decreases |order|
  {
    if order == [] {
    } else {
      var id := order[0];
      DiscardKeepsPeak(c, s, id, now);
      if id in snapshot && ShouldExpire(c.lifecycle, snapshot[id], now) {
        ExpireKeepsPeak(c, Discard(c, s, id, now), snapshot, order[1..], now);
      } else {
        ExpireKeepsPeak(c, s, snapshot, order[1..], now);
      }
    }
  }

  /** The exact condition on one operation. */
  lemma StepMovesPeakIff(c: ManagerConfig, s: ManagerState, op: Runs.ManagerOp)
    requires Inv(c, s) && c.enableMetrics && PeakCovers(s.metrics)
    ensures PeakFollows(s.metrics, Runs.Step(c, s, op).metrics) <==> !SilentRaise(s, op)
  {
    if op.SetStatus? {
      StatusMovesPeakIff(c, s, op.id, op.status, op.now);
    } else if op.Tick? {
      ExpireKeepsPeak(c, s, s.reg.sessions, op.order, op.now);
    } else {
      OthersMovePeak(c, s, op);
    }
  }

  lemma OthersMovePeak(c: ManagerConfig, s: ManagerState, op: Runs.ManagerOp)
    requires Inv(c, s) && c.enableMetrics && PeakCovers(s.metrics) && !op.SetStatus? && !op.Tick?
    ensures PeakFollows(s.metrics, Runs.Step(c, s, op).metrics)
  {
    if op.Use? {
      UseMovesPeak(c, s, op.id, op.now);
    } else if op.Close? {
      CloseMovesPeak(c, s, op.id, op.now);
    } else if op.Connect? && FindReusable(c, s, op.m.Key(), op.now).Some? {
      UseMovesPeak(c, s, FindReusable(c, s, op.m.Key(), op.now).value, op.now);
    }
  }

  // ----- The peak over manager runs -----

  /** The state after the first `n` operations. */
  ghost function StateAt(c: ManagerConfig, ops: seq<Runs.ManagerOp>, n: nat): ManagerState
    requires n <= |ops|
  {
    Runs.Run(c, EMPTY, ops[..n])
  }

  /** The largest load over the first `n` + 1 states. */
  ghost function MaxLoadUpTo(c: ManagerConfig, ops: seq<Runs.ManagerOp>, n: nat): nat
    requires n <= |ops|
  {
    if n == 0 then Load(EMPTY.metrics) else Max(MaxLoadUpTo(c, ops, n - 1), Load(StateAt(c, ops, n).metrics))
  }

  lemma {:induction false} RunThenStep(c: ManagerConfig, s: ManagerState, ops: seq<Runs.ManagerOp>, n: nat)
    requires n < |ops| && Runs.ProperRun(c, s, ops)
    ensures Runs.Run(c, s, ops[..n + 1]) == Runs.Step(c, Runs.Run(c, s, ops[..n]), ops[n])
    ensures Runs.ProperRun(c, s, ops[..n])
    decreases n
  {
    if n == 0 {
      assert ops[..1][0] == ops[0] && ops[..1][1..] == [];
    } else {
      var rest, s' := ops[1..], Runs.Step(c, s, ops[0]);
      RunThenStep(c, s', rest, n - 1);
      assert ops[..n + 1][1..] == rest[..n] && ops[..n][1..] == rest[..n - 1];
      assert ops[..n + 1][0] == ops[0] && ops[..n][0] == ops[0] && rest[n - 1] == ops[n];
    }
  }

  /** After the first `n` operations the peak gauge is the largest load so far. */
  ghost predicate PeakExactAt(c: ManagerConfig, ops: seq<Runs.ManagerOp>, n: nat)
    requires n <= |ops|
  {
    StateAt(c, ops, n).metrics.peakConcurrentSessions == MaxLoadUpTo(c, ops, n)
  }

  ghost predicate RaisesSilently(c: ManagerConfig, ops: seq<Runs.ManagerOp>, n: nat)
    requires n < |ops|
  {
    SilentRaise(StateAt(c, ops, n), ops[n])
  }

  lemma PeakStepIff(c: ManagerConfig, ops: seq<Runs.ManagerOp>, n: nat)
    requires Runs.ProperRun(c, EMPTY, ops) && c.enableMetrics && n < |ops|
    requires PeakExactAt(c, ops, n)
    ensures PeakExactAt(c, ops, n + 1) <==> !RaisesSilently(c, ops, n)
  {
    RunThenStep(c, EMPTY, ops, n);
    Runs.EmptyIsInv(c);
    Runs.RunKeepsInv(c, EMPTY, ops[..n]);
    assert n == 0 ==> ops[..n] == [];
    StepMovesPeakIff(c, StateAt(c, ops, n), ops[n]);
  }

  lemma {:induction false} PeakStaysExact(c: ManagerConfig, ops: seq<Runs.ManagerOp>, n: nat)
    requires Runs.ProperRun(c, EMPTY, ops) && c.enableMetrics && n <= |ops|
    requires forall k :: 0 <= k < n ==> !RaisesSilently(c, ops, k)
    ensures PeakExactAt(c, ops, n)
  {
    if n == 0 {
      assert ops[..0] == [];
    } else {
      PeakStaysExact(c, ops, n - 1);
      PeakStepIff(c, ops, n - 1);
    }
  }

  /** Main result: in a run of manager operations the peak gauge is at every moment the largest number of active and
      idle sessions so far, exactly when no operation of the run raises the load silently. */
  lemma ManagerPeakIff(c: ManagerConfig, ops: seq<Runs.ManagerOp>)
    requires Runs.ProperRun(c, EMPTY, ops) && c.enableMetrics
    ensures (forall n :: 0 <= n <= |ops| ==> PeakExactAt(c, ops, n))
       <==> (forall n :: 0 <= n < |ops| ==> !RaisesSilently(c, ops, n))
  {
    if forall n :: 0 <= n <= |ops| ==> PeakExactAt(c, ops, n) {
      forall n | 0 <= n < |ops| ensures !RaisesSilently(c, ops, n) {
        assert PeakExactAt(c, ops, n) && PeakExactAt(c, ops, n + 1);
        PeakStepIff(c, ops, n);
      }
    }
    if forall n :: 0 <= n < |ops| ==> !RaisesSilently(c, ops, n) {
      forall n | 0 <= n <= |ops| ensures PeakExactAt(c, ops, n) {
        PeakStaysExact(c, ops, n);
      }
    }
  }

  // ----- The peak over handler runs -----

  /** The largest load over the states of a run, the first one included. */
  ghost function MaxLoad(c: ManagerConfig, h: H.HandlerState, qs: seq<H.Request>): nat
    decreases |qs|
  {
    if qs == [] then Load(h.mgr.metrics)
    else Max(Load(h.mgr.metrics), MaxLoad(c, H.Handle(c, h, qs[0]).0, qs[1..]))
  }

  lemma ConnectMovesPeak(c: ManagerConfig, h: H.HandlerState, id: SessionId, now: Time)
    requires Inv(c, h.mgr) && c.enableMetrics && PeakCovers(h.mgr.metrics)
    requires id in h.mgr.reg.sessions && h.mgr.reg.sessions[id].status == Connecting
    ensures PeakFollows(h.mgr.metrics, H.ConnectClient(c, h, id, now).0.mgr.metrics)
  {
    var connecting := UpdateSessionStatus(c, h.mgr, id, Connecting, now).0;
    StatusKeepsInv(c, h.mgr, id, Connecting, now);
    StatusMovesPeakIff(c, h.mgr, id, Connecting, now);
    StatusChangeMovesGauges(h.mgr.metrics, Connecting, Connecting);
    assert PeakCovers(connecting.metrics) && id in connecting.reg.sessions;
    StatusMovesPeakIff(c, connecting, id, Active, now);
  }

  lemma CreateMovesPeak(c: ManagerConfig, h: H.HandlerState, m: SessionMetadata, now: Time)
    requires Inv(c, h.mgr) && c.enableMetrics && PeakCovers(h.mgr.metrics)
    requires m.id !in h.mgr.reg.sessions && m.status == Creating && m.useCount == 0
    ensures PeakFollows(h.mgr.metrics, H.CreateAndConnect(c, h, m, now).0.mgr.metrics)
  {
    var (mgr, r) := CreateSession(c, h.mgr, m);
    CreateKeepsInv(c, h.mgr, m);
    if r.Ok? {
      H.ConnectClientSucceeds(c, h.(mgr := mgr), m.id, now);
      ConnectMovesPeak(c, h.(mgr := mgr), m.id, now);
    }
  }

  lemma StepMovesPeak(c: ManagerConfig, h: H.HandlerState, q: H.Request)
    requires H.HandlerInv(c, h) && H.Proper(h, q) && c.enableMetrics && PeakCovers(h.mgr.metrics)
    ensures PeakFollows(h.mgr.metrics, H.Handle(c, h, q).0.mgr.metrics)
  {
    match q
    case Create(m, now) => HandleCreateMovesPeak(c, h, m, now);
    case Connect(m, order, now) =>
      var found := H.FirstActive(h.mgr.reg.sessions, order, m.name);
      if found.Some? { UseMovesPeak(c, h.mgr, found.value, now); } else { HandleCreateMovesPeak(c, h, m, now); }
    case Disconnect(id, now) => if id in h.mgr.reg.sessions { StatusMovesPeakIff(c, h.mgr, id, Idle, now); }
    case Execute(id, now) => UseMovesPeak(c, h.mgr, id, now);
    case Tick(order, poolOrder, now) => ExpireKeepsPeak(c, h.mgr, h.mgr.reg.sessions, order, now);
  }

  lemma HandleCreateMovesPeak(c: ManagerConfig, h: H.HandlerState, m: SessionMetadata, now: Time)
    requires H.HandlerInv(c, h) && H.Proper(h, H.Create(m, now)) && c.enableMetrics && PeakCovers(h.mgr.metrics)
    ensures PeakFollows(h.mgr.metrics, H.HandleCreate(c, h, m, now).0.mgr.metrics)
  {
    var found := FindReusable(c, h.mgr, m.Key(), now);
    if found.Some? {
      H.FoundIsPooled(c, h.mgr, m.Key(), now);
      UseMovesPeak(c, h.mgr, found.value, now);
    } else {
      CreateMovesPeak(c, h, m, now);
    }
  }

  lemma {:induction false} RunTracksPeak(c: ManagerConfig, h: H.HandlerState, qs: seq<H.Request>)
    requires H.HandlerInv(c, h) && H.ProperRun(c, h, qs) && c.enableMetrics && PeakCovers(h.mgr.metrics)
    ensures H.Run(c, h, qs).mgr.metrics.peakConcurrentSessions
         == Max(h.mgr.metrics.peakConcurrentSessions, MaxLoad(c, h, qs))
    decreases |qs|
  {
    if qs == [] {
    } else {
      StepMovesPeak(c, h, qs[0]);
      H.StepKeepsHandlerInv(c, h, qs[0]);
      RunTracksPeak(c, H.Handle(c, h, qs[0]).0, qs[1..]);
    }
  }

  /** Main result: the peak gauge is the largest number of active and idle sessions there ever was. */
  lemma PeakIsMaxLoad(c: ManagerConfig, qs: seq<H.Request>)
    requires H.ProperRun(c, H.EMPTY, qs) && c.enableMetrics
    ensures H.Run(c, H.EMPTY, qs).mgr.metrics.peakConcurrentSessions == MaxLoad(c, H.EMPTY, qs)
  {
    Runs.EmptyIsInv(c);
    RunTracksPeak(c, H.EMPTY, qs);
  }

  /** Runs of bare manager operations can miss the peak: a session that goes idle without having been active. */
  lemma ManagerRunMissesPeak(c: ManagerConfig, m: SessionMetadata, now: Time)
    requires c.enableMetrics && c.registry.maxSessions > 0 && m.status == Creating && m.useCount == 0
    ensures Runs.ProperRun(c, EMPTY, [Runs.Create(m), Runs.SetStatus(m.id, Idle, now)])
    ensures var x := Runs.Run(c, EMPTY, [Runs.Create(m), Runs.SetStatus(m.id, Idle, now)]).metrics;
            x.peakConcurrentSessions == 0 && x.idleSessions == 1
  {
    var ops := [Runs.Create(m), Runs.SetStatus(m.id, Idle, now)];
    var s1 := CreateSession(c, EMPTY, m).0;
    assert ops[1..] == [Runs.SetStatus(m.id, Idle, now)] && ops[1..][1..] == [];
    assert s1.reg.sessions[m.id].status == Connecting;
    var s2 := UpdateSessionStatus(c, s1, m.id, Idle, now).0;
    StatusChangeMovesGauges(s1.metrics, Connecting, Idle);
    assert Runs.Run(c, EMPTY, ops) == Runs.Run(c, s1, ops[1..]) == Runs.Run(c, s2, []) == s2;
  }
}
