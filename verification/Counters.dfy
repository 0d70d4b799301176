/** The counters of the metrics as numbers of events of a run. */
module Counters {
  import opened Common
  import opened Transport
  import opened Session
  import opened Manager
  import H = Handler
  import R = Registry
  import Runs = ManagerRuns
  import X = Metrics

  // ----- Connection outcomes -----

  /** A session that was connecting, for the first time or again, gets this status. */
  predicate Concludes(s: ManagerState, op: Runs.ManagerOp, to: SessionStatus) {
    && op.SetStatus? && op.status == to && op.id in s.reg.sessions
    && WasConnecting(s.reg.sessions[op.id].status)
  }

  ghost function Conclusions(c: ManagerConfig, s: ManagerState, ops: seq<Runs.ManagerOp>, to: SessionStatus): nat
    decreases |ops|
  {
    if ops == [] then 0
    else CountIf(Concludes(s, ops[0], to)) + Conclusions(c, Runs.Step(c, s, ops[0]), ops[1..], to)
  }

  /** The connection counters of `y` are those of `x`. */
  ghost predicate SameOutcomes(x: X.MetricsState, y: X.MetricsState) {
    y.successfulConnections == x.successfulConnections && y.failedConnections == x.failedConnections
  }

  predicate WasConnecting(status: SessionStatus) {
    status == Connecting || status == Reconnecting
  }

  lemma LeaveAndEnterKeepOutcomes(x: X.MetricsState, from: SessionStatus, to: SessionStatus)
    ensures SameOutcomes(x, X.RecordStatusChange(x, from, to))
  {
  }

  lemma RecordCountsOutcome(x: X.MetricsState, from: SessionStatus, to: SessionStatus)
    ensures var y := X.RecordConnection(X.RecordStatusChange(x, from, to), from, to);
            && y.successfulConnections == x.successfulConnections + CountIf(WasConnecting(from) && to == Active)
            && y.failedConnections == x.failedConnections + CountIf(WasConnecting(from) && to == Failed)
  {
    LeaveAndEnterKeepOutcomes(x, from, to);
  }

  lemma StatusCountsOutcome(c: ManagerConfig, s: ManagerState, id: SessionId, status: SessionStatus, now: Time)
    requires c.enableMetrics
    ensures var op, y := Runs.SetStatus(id, status, now), UpdateSessionStatus(c, s, id, status, now).0.metrics;
            && y.successfulConnections == s.metrics.successfulConnections + CountIf(Concludes(s, op, Active))
            && y.failedConnections == s.metrics.failedConnections + CountIf(Concludes(s, op, Failed))
  {
    if id in s.reg.sessions {
      RecordCountsOutcome(s.metrics, s.reg.sessions[id].status, status);
    }
  }

  lemma UseKeepsOutcomes(c: ManagerConfig, s: ManagerState, id: SessionId, now: Time)
    requires c.enableMetrics
    ensures SameOutcomes(s.metrics, UseSession(c, s, id, now).0.metrics)
  {
    if id in s.reg.sessions {
      StatusCountsOutcome(c, Touch(c, s, id, now), id, Active, now);
    }
  }

  lemma DiscardKeepsOutcomes(c: ManagerConfig, s: ManagerState, id: SessionId, now: Time)
    ensures SameOutcomes(s.metrics, Discard(c, s, id, now).metrics)
  {
    if id in s.reg.sessions {
      X.ClosedKeepsOutcomes(s.metrics, s.reg.sessions[id], now);
    }
  }

  lemma {:induction false} ExpireKeepsOutcomes(c: ManagerConfig, s: ManagerState, snapshot: R.Sessions,
                                               order: seq<SessionId>, now: Time)
    ensures SameOutcomes(s.metrics, ExpireAll(c, s, snapshot, order, now).metrics)
    decreases |order|
  {
    if order == [] {
    } else if order[0] in snapshot && ShouldExpire(c.lifecycle, snapshot[order[0]], now) {
      DiscardKeepsOutcomes(c, s, order[0], now);
      ExpireKeepsOutcomes(c, Discard(c, s, order[0], now), snapshot, order[1..], now);
    } else {
      ExpireKeepsOutcomes(c, s, snapshot, order[1..], now);
    }
  }

  lemma CloseKeepsOutcomes(c: ManagerConfig, s: ManagerState, id: SessionId, now: Time)
    requires c.enableMetrics
    ensures SameOutcomes(s.metrics, CloseSession(c, s, id, now).0.metrics)
  {
    StatusCountsOutcome(c, s, id, Closing, now);
    DiscardKeepsOutcomes(c, UpdateSessionStatus(c, s, id, Closing, now).0, id, now);
  }

  lemma StepCountsOutcomes(c: ManagerConfig, s: ManagerState, op: Runs.ManagerOp)
    requires c.enableMetrics
    ensures var y := Runs.Step(c, s, op).metrics;
            && y.successfulConnections == s.metrics.successfulConnections + CountIf(Concludes(s, op, Active))
            && y.failedConnections == s.metrics.failedConnections + CountIf(Concludes(s, op, Failed))
  {
    if op.SetStatus? {
      StatusCountsOutcome(c, s, op.id, op.status, op.now);
    } else if op.Use? {
      UseKeepsOutcomes(c, s, op.id, op.now);
    } else if op.Close? {
      CloseKeepsOutcomes(c, s, op.id, op.now);
    } else if op.Tick? {
      ExpireKeepsOutcomes(c, s, s.reg.sessions, op.order, op.now);
    } else if op.Connect? && FindReusable(c, s, op.m.Key(), op.now).Some? {
      UseKeepsOutcomes(c, s, FindReusable(c, s, op.m.Key(), op.now).value, op.now);
    }
  }

  /** Main result: over a run, the successful connections are the changes of connecting sessions to Active, the failed
      ones those to Failed. */
  lemma {:induction false} OutcomesAreCounted(c: ManagerConfig, s: ManagerState, ops: seq<Runs.ManagerOp>)
    requires c.enableMetrics
    ensures var y := Runs.Run(c, s, ops).metrics;
            && y.successfulConnections == s.metrics.successfulConnections + Conclusions(c, s, ops, Active)
            && y.failedConnections == s.metrics.failedConnections + Conclusions(c, s, ops, Failed)
    decreases |ops|
  {
    if ops == [] {
    } else {
      StepCountsOutcomes(c, s, ops[0]);
      OutcomesAreCounted(c, Runs.Step(c, s, ops[0]), ops[1..]);
    }
  }

  // ----- Sessions by transport -----

  function Usage(x: X.MetricsState, kind: TransportType): nat {
    if kind in x.transportUsage then x.transportUsage[kind] else 0
  }

  /** The operation registers a session over this transport. */
  ghost predicate Registers(c: ManagerConfig, s: ManagerState, op: Runs.ManagerOp, kind: TransportType) {
    && (op.Create? || op.Connect?) && op.m.transport.transportType == kind
    && op.m.id !in s.reg.sessions && op.m.id in Runs.Step(c, s, op).reg.sessions
  }

  ghost function Registrations(c: ManagerConfig, s: ManagerState, ops: seq<Runs.ManagerOp>, kind: TransportType): nat
    decreases |ops|
  {
    if ops == [] then 0
    else CountIf(Registers(c, s, ops[0], kind)) + Registrations(c, Runs.Step(c, s, ops[0]), ops[1..], kind)
  }

  lemma CreateCountsUsage(c: ManagerConfig, s: ManagerState, m: SessionMetadata, kind: TransportType)
    requires c.enableMetrics && m.id !in s.reg.sessions
    ensures var s' := CreateSession(c, s, m).0;
            Usage(s'.metrics, kind)
            == Usage(s.metrics, kind) + CountIf(m.transport.transportType == kind && m.id in s'.reg.sessions)
  {
  }

  lemma UseKeepsUsage(c: ManagerConfig, s: ManagerState, id: SessionId, now: Time)
    ensures UseSession(c, s, id, now).0.metrics.transportUsage == s.metrics.transportUsage
    ensures UseSession(c, s, id, now).0.reg.sessions.Keys == s.reg.sessions.Keys
  {
  }

  lemma DiscardKeepsUsage(c: ManagerConfig, s: ManagerState, id: SessionId, now: Time)
    ensures Discard(c, s, id, now).metrics.transportUsage == s.metrics.transportUsage
  {
    if id in s.reg.sessions {
      X.ClosedCounts(s.metrics, s.reg.sessions[id], now);
    }
  }

  lemma {:induction false} ExpireKeepsUsage(c: ManagerConfig, s: ManagerState, snapshot: R.Sessions,
                                            order: seq<SessionId>, now: Time)
    ensures ExpireAll(c, s, snapshot, order, now).metrics.transportUsage == s.metrics.transportUsage
    decreases |order|
  {
    if order == [] {
    } else if order[0] in snapshot && ShouldExpire(c.lifecycle, snapshot[order[0]], now) {
      DiscardKeepsUsage(c, s, order[0], now);
      ExpireKeepsUsage(c, Discard(c, s, order[0], now), snapshot, order[1..], now);
    } else {
      ExpireKeepsUsage(c, s, snapshot, order[1..], now);
    }
  }

  lemma ConnectCountsUsage(c: ManagerConfig, s: ManagerState, m: SessionMetadata, now: Time, kind: TransportType)
    requires c.enableMetrics && m.id !in s.reg.sessions
    ensures var s' := ConnectOrCreate(c, s, m, now).0;
            Usage(s'.metrics, kind)
            == Usage(s.metrics, kind) + CountIf(m.transport.transportType == kind && m.id in s'.reg.sessions)
  {
    if FindReusable(c, s, m.Key(), now).Some? {
      UseKeepsUsage(c, s, FindReusable(c, s, m.Key(), now).value, now);
    } else {
      CreateCountsUsage(c, s, m, kind);
    }
  }

  lemma StepCountsUsage(c: ManagerConfig, s: ManagerState, op: Runs.ManagerOp, kind: TransportType)
    requires c.enableMetrics && Runs.Proper(s, op)
    ensures Usage(Runs.Step(c, s, op).metrics, kind) == Usage(s.metrics, kind) + CountIf(Registers(c, s, op, kind))
  {
    if op.Create? {
      CreateCountsUsage(c, s, op.m, kind);
    } else if op.Connect? {
      ConnectCountsUsage(c, s, op.m, op.now, kind);
    } else {
      OthersKeepUsage(c, s, op);
    }
  }

  lemma StatusKeepsUsage(c: ManagerConfig, s: ManagerState, id: SessionId, status: SessionStatus, now: Time)
    ensures UpdateSessionStatus(c, s, id, status, now).0.metrics.transportUsage == s.metrics.transportUsage
  {
    if id in s.reg.sessions {
      StatusChangeMovesGauges(s.metrics, s.reg.sessions[id].status, status);
    }
  }

  lemma OthersKeepUsage(c: ManagerConfig, s: ManagerState, op: Runs.ManagerOp)
    requires !op.Create? && !op.Connect?
    ensures Runs.Step(c, s, op).metrics.transportUsage == s.metrics.transportUsage
  {
    if op.Use? {
      UseKeepsUsage(c, s, op.id, op.now);
    } else if op.Tick? {
      ExpireKeepsUsage(c, s, s.reg.sessions, op.order, op.now);
    } else if op.SetStatus? {
      StatusKeepsUsage(c, s, op.id, op.status, op.now);
    } else {
      StatusKeepsUsage(c, s, op.id, Closing, op.now);
      DiscardKeepsUsage(c, UpdateSessionStatus(c, s, op.id, Closing, op.now).0, op.id, op.now);
    }
  }

  /** Main result: the usage of each transport is the number of sessions the run has registered over it. */
  lemma {:induction false} UsageIsCounted(c: ManagerConfig, s: ManagerState, ops: seq<Runs.ManagerOp>,
                                          kind: TransportType)
    requires c.enableMetrics && Runs.ProperRun(c, s, ops)
    ensures Usage(Runs.Run(c, s, ops).metrics, kind) == Usage(s.metrics, kind) + Registrations(c, s, ops, kind)
    decreases |ops|
  {
    if ops == [] {
    } else {
      StepCountsUsage(c, s, ops[0], kind);
      UsageIsCounted(c, Runs.Step(c, s, ops[0]), ops[1..], kind);
    }
  }

  // ----- One use -----

  lemma TouchIsCounted(c: ManagerConfig, s: ManagerState, id: SessionId, now: Time)
    requires id in s.reg.sessions && (c.enableMetrics ==> id in s.metrics.history)
    ensures var before, s' := s.reg.sessions, Touch(c, s, id, now);
            && s'.reg.sessions == before[id := before[id].(useCount := before[id].useCount + 1, lastUsed := now)]
            && s'.metrics.totalUsageCount == s.metrics.totalUsageCount + CountIf(c.enableMetrics)
            && (c.enableMetrics ==>
                  id in s'.metrics.history && s'.metrics.history[id].useCount == before[id].useCount + 1)
  {
  }

  lemma ActivationStamps(c: ManagerConfig, s: ManagerState, id: SessionId, now: Time)
    requires id in s.reg.sessions
    ensures var before, (s', e) := s.reg.sessions, UpdateSessionStatus(c, s, id, Active, now);
            && e.None?
            && s'.reg.sessions == before[id := before[id].(status := Active, lastUsed := now)]
            && s'.metrics.totalUsageCount == s.metrics.totalUsageCount && s'.metrics.history == s.metrics.history
  {
    if c.enableMetrics {
      StatusChangeMovesGauges(s.metrics, s.reg.sessions[id].status, Active);
    }
  }

  /** A use stamps and counts the one session, activates it if it was Idle, and is counted once in the metrics and in
      the session's history. */
  lemma UseIsCounted(c: ManagerConfig, s: ManagerState, id: SessionId, now: Time)
    requires id in s.reg.sessions && (c.enableMetrics ==> id in s.metrics.history)
    ensures var before, (s', e) := s.reg.sessions, UseSession(c, s, id, now);
            && e.None?
            && s'.reg.sessions.Keys == before.Keys
            && s'.reg.sessions[id]
               == before[id].(useCount := before[id].useCount + 1, lastUsed := now,
                              status := if before[id].status == Idle then Active else before[id].status)
            && (forall x :: x in before && x != id ==> s'.reg.sessions[x] == before[x])
            && s'.metrics.totalUsageCount == s.metrics.totalUsageCount + CountIf(c.enableMetrics)
            && (c.enableMetrics ==>
                  id in s'.metrics.history && s'.metrics.history[id].useCount == before[id].useCount + 1)
  {
    TouchIsCounted(c, s, id, now);
    if s.reg.sessions[id].status == Idle {
      ActivationStamps(c, Touch(c, s, id, now), id, now);
    }
  }

  /** A command of a connected client uses its session once. */
  lemma ExecuteUsesOnce(c: ManagerConfig, h: H.HandlerState, id: SessionId, now: Time)
    requires H.HandlerInv(c, h) && id in h.clients && id in h.mgr.reg.sessions
    ensures var (h', answer) := H.HandleExecute(c, h, id, now);
            var was := h.mgr.reg.sessions[id];
            && answer == H.CommandSuccess && h'.clients == h.clients
            && id in h'.mgr.reg.sessions
            && h'.mgr.reg.sessions[id] == was.(useCount := was.useCount + 1, lastUsed := now)
            && h'.mgr.metrics.totalUsageCount == h.mgr.metrics.totalUsageCount + CountIf(c.enableMetrics)
  {
    UseIsCounted(c, h.mgr, id, now);
  }

  /** So does a connect that finds an Active session of the name. */
  lemma ConnectUsesOnce(c: ManagerConfig, h: H.HandlerState, m: SessionMetadata, order: seq<SessionId>, now: Time)
    requires H.HandlerInv(c, h) && H.FirstActive(h.mgr.reg.sessions, order, m.name).Some?
    ensures var id := H.FirstActive(h.mgr.reg.sessions, order, m.name).value;
            var (h', answer) := H.HandleConnect(c, h, m, order, now);
            var was := h.mgr.reg.sessions[id];
            && answer == H.SessionCreated(id, true) && h'.clients == h.clients
            && id in h'.mgr.reg.sessions
            && h'.mgr.reg.sessions[id] == was.(useCount := was.useCount + 1, lastUsed := now)
            && h'.mgr.metrics.totalUsageCount == h.mgr.metrics.totalUsageCount + CountIf(c.enableMetrics)
  {
    UseIsCounted(c, h.mgr, H.FirstActive(h.mgr.reg.sessions, order, m.name).value, now);
  }

  // ----- What the history tells of each session -----

  /** A live session's entry has its creation time and transport, and a session counts as reused from its second use
      on. */
  ghost predicate Told(h: X.History, sessions: R.Sessions) {
    && (forall id :: id in sessions ==>
          id in h && h[id].createdAt == sessions[id].createdAt
          && h[id].transportType == sessions[id].transport.transportType)
    && (forall id :: id in h ==> (h[id].wasReused <==> h[id].useCount > 1))
  }

  lemma PutKeepsTold(h: X.History, sessions: R.Sessions, id: SessionId, entry: X.HistoryEntry, m: SessionMetadata)
    requires Told(h, sessions)
    requires entry.createdAt == m.createdAt && entry.transportType == m.transport.transportType
    requires entry.wasReused <==> entry.useCount > 1
    ensures Told(h[id := entry], sessions[id := m])
  {
  }

  lemma CreateTells(c: ManagerConfig, s: ManagerState, m: SessionMetadata)
    requires c.enableMetrics && Told(s.metrics.history, s.reg.sessions)
    ensures Told(CreateSession(c, s, m).0.metrics.history, CreateSession(c, s, m).0.reg.sessions)
  {
    var entry := X.HistoryEntry(m.createdAt, None, m.transport.transportType, 0, 0, false);
    PutKeepsTold(s.metrics.history, s.reg.sessions, m.id, entry, R.Admitted(m));
  }

  lemma StatusTells(c: ManagerConfig, s: ManagerState, id: SessionId, status: SessionStatus, now: Time)
    requires c.enableMetrics && Told(s.metrics.history, s.reg.sessions)
    ensures Told(UpdateSessionStatus(c, s, id, status, now).0.metrics.history,
                 UpdateSessionStatus(c, s, id, status, now).0.reg.sessions)
  {
    if id in s.reg.sessions {
      StatusChangeMovesGauges(s.metrics, s.reg.sessions[id].status, status);
      StatusStamps(c, s, id, status, now);
    }
  }

  lemma TouchTells(c: ManagerConfig, s: ManagerState, id: SessionId, now: Time)
    requires c.enableMetrics && Told(s.metrics.history, s.reg.sessions) && id in s.reg.sessions
    requires s.metrics.history[id].useCount == s.reg.sessions[id].useCount
    ensures Told(Touch(c, s, id, now).metrics.history, Touch(c, s, id, now).reg.sessions)
  {
    var h, m := s.metrics.history, s.reg.sessions[id].MarkUsed(now);
    PutKeepsTold(h, s.reg.sessions, id,
                 h[id].(useCount := m.useCount, wasReused := h[id].wasReused || m.useCount > 1), m);
  }

  lemma UseTells(c: ManagerConfig, s: ManagerState, id: SessionId, now: Time)
    requires Inv(c, s) && c.enableMetrics && Told(s.metrics.history, s.reg.sessions)
    ensures Told(UseSession(c, s, id, now).0.metrics.history, UseSession(c, s, id, now).0.reg.sessions)
  {
    if id in s.reg.sessions {
      TouchTells(c, s, id, now);
      StatusTells(c, Touch(c, s, id, now), id, Active, now);
    }
  }

  lemma DiscardTells(c: ManagerConfig, s: ManagerState, id: SessionId, now: Time)
    requires Inv(c, s) && c.enableMetrics && Told(s.metrics.history, s.reg.sessions)
    ensures Told(Discard(c, s, id, now).metrics.history, Discard(c, s, id, now).reg.sessions)
  {
    if id in s.reg.sessions {
      var h, m := s.metrics.history, s.reg.sessions[id];
      X.ClosedCounts(s.metrics, m, now);
      PutKeepsTold(h, s.reg.sessions, id, h[id].(closedAt := Some(now), totalIdleTime := m.IdleTime(now)), m);
    }
  }

  /** The closing record dates the entry and keeps what the session's last idle time was. */
  lemma DiscardDates(c: ManagerConfig, s: ManagerState, id: SessionId, now: Time)
    requires Inv(c, s) && c.enableMetrics && id in s.reg.sessions
    ensures var before, after := s.metrics.history, Discard(c, s, id, now).metrics.history;
            var lastUsed := s.reg.sessions[id].lastUsed;
            && after.Keys == before.Keys
            && after[id] == before[id].(closedAt := Some(now),
                                        totalIdleTime := if now >= lastUsed then now - lastUsed else 0)
            && forall x :: x in before && x != id ==> after[x] == before[x]
  {
    X.ClosedCounts(s.metrics, s.reg.sessions[id], now);
  }

  lemma {:induction false} ExpireTells(c: ManagerConfig, s: ManagerState, snapshot: R.Sessions,
                                       order: seq<SessionId>, now: Time)
    requires Inv(c, s) && c.enableMetrics && Told(s.metrics.history, s.reg.sessions)
    ensures Told(ExpireAll(c, s, snapshot, order, now).metrics.history,
                 ExpireAll(c, s, snapshot, order, now).reg.sessions)
    decreases |order|
  {
    if order == [] {
    } else if order[0] in snapshot && ShouldExpire(c.lifecycle, snapshot[order[0]], now) {
      DiscardTells(c, s, order[0], now);
      DiscardKeepsInv(c, s, order[0], now);
      ExpireTells(c, Discard(c, s, order[0], now), snapshot, order[1..], now);
    } else {
      ExpireTells(c, s, snapshot, order[1..], now);
    }
  }

  lemma TickTells(c: ManagerConfig, s: ManagerState, order: seq<SessionId>, poolOrder: seq<SessionId>, now: Time)
    requires Inv(c, s) && c.enableMetrics && Told(s.metrics.history, s.reg.sessions)
    ensures Told(Cleanup(c, s, order, poolOrder, now).metrics.history,
                 Cleanup(c, s, order, poolOrder, now).reg.sessions)
  {
    ExpireTells(c, s, s.reg.sessions, order, now);
    Runs.ExpireKeepsInv(c, s, s.reg.sessions, order, now);
    var expired := ExpireAll(c, s, s.reg.sessions, order, now);
    OpenIsKept(expired.metrics, expired.reg.sessions, now);
  }

  lemma OpenIsKept(x: X.MetricsState, sessions: R.Sessions, now: Time)
    requires HistoryFits(x.history, sessions) && Told(x.history, sessions)
    ensures Told(X.CleanupOldHistory(x, X.MAX_HISTORY_AGE, now).history, sessions)
  {
  }

  lemma StepTells(c: ManagerConfig, s: ManagerState, op: Runs.ManagerOp)
    requires Inv(c, s) && c.enableMetrics && Told(s.metrics.history, s.reg.sessions)
    ensures Told(Runs.Step(c, s, op).metrics.history, Runs.Step(c, s, op).reg.sessions)
  {
    if op.Create? {
      CreateTells(c, s, op.m);
    } else if op.Connect? {
      ConnectTells(c, s, op.m, op.now);
    } else if op.Tick? {
      TickTells(c, s, op.order, op.poolOrder, op.now);
    } else {
      ChangeTells(c, s, op);
    }
  }

  lemma ConnectTells(c: ManagerConfig, s: ManagerState, m: SessionMetadata, now: Time)
    requires Inv(c, s) && c.enableMetrics && Told(s.metrics.history, s.reg.sessions)
    ensures Told(ConnectOrCreate(c, s, m, now).0.metrics.history, ConnectOrCreate(c, s, m, now).0.reg.sessions)
  {
    if FindReusable(c, s, m.Key(), now).Some? {
      UseTells(c, s, FindReusable(c, s, m.Key(), now).value, now);
    } else {
      CreateTells(c, s, m);
    }
  }

  lemma ChangeTells(c: ManagerConfig, s: ManagerState, op: Runs.ManagerOp)
    requires Inv(c, s) && c.enableMetrics && Told(s.metrics.history, s.reg.sessions)
    requires op.SetStatus? || op.Use? || op.Close?
    ensures Told(Runs.Step(c, s, op).metrics.history, Runs.Step(c, s, op).reg.sessions)
  {
    if op.SetStatus? {
      StatusTells(c, s, op.id, op.status, op.now);
    } else if op.Use? {
      UseTells(c, s, op.id, op.now);
    } else {
      StatusTells(c, s, op.id, Closing, op.now);
      StatusKeepsInv(c, s, op.id, Closing, op.now);
      DiscardTells(c, UpdateSessionStatus(c, s, op.id, Closing, op.now).0, op.id, op.now);
    }
  }

  lemma {:induction false} RunTells(c: ManagerConfig, s: ManagerState, ops: seq<Runs.ManagerOp>)
    requires Inv(c, s) && Runs.ProperRun(c, s, ops) && c.enableMetrics && Told(s.metrics.history, s.reg.sessions)
    ensures Told(Runs.Run(c, s, ops).metrics.history, Runs.Run(c, s, ops).reg.sessions)
    decreases |ops|
  {
    if ops == [] {
    } else {
      StepTells(c, s, ops[0]);
      Runs.StepKeepsInv(c, s, ops[0]);
      RunTells(c, Runs.Step(c, s, ops[0]), ops[1..]);
    }
  }

  /** After any run the history tells of each live session when and over which transport it was created, and of every
      session, live or closed, that it was reused exactly if it was used more than once. */
  lemma HistoryIsTold(c: ManagerConfig, ops: seq<Runs.ManagerOp>)
    requires Runs.ProperRun(c, EMPTY, ops) && c.enableMetrics
    ensures Told(Runs.Run(c, EMPTY, ops).metrics.history, Runs.Run(c, EMPTY, ops).reg.sessions)
  {
    Runs.EmptyIsInv(c);
    RunTells(c, EMPTY, ops);
  }
}
