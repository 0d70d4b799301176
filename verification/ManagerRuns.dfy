/** What every run of manager operations and cleanup ticks keeps. */
module ManagerRuns {
  import opened Common
  import opened Session
  import opened Manager
  import R = Registry
  import P = Pool
  import X = Metrics

  datatype ManagerOp =
    | Create(m: SessionMetadata)
    | SetStatus(id: SessionId, status: SessionStatus, now: Time)
    | Use(id: SessionId, now: Time)
    | Close(id: SessionId, now: Time)
    | Connect(m: SessionMetadata, now: Time)
    | Tick(order: seq<SessionId>, poolOrder: seq<SessionId>, now: Time)

  function Step(c: ManagerConfig, s: ManagerState, op: ManagerOp): ManagerState {
    match op
    case Create(m) => CreateSession(c, s, m).0
    case SetStatus(id, status, now) => UpdateSessionStatus(c, s, id, status, now).0
    case Use(id, now) => UseSession(c, s, id, now).0
    case Close(id, now) => CloseSession(c, s, id, now).0
    case Connect(m, now) => ConnectOrCreate(c, s, m, now).0
    case Tick(order, poolOrder, now) => Cleanup(c, s, order, poolOrder, now)
  }

  function Run(c: ManagerConfig, s: ManagerState, ops: seq<ManagerOp>): ManagerState
    decreases |ops|
  {
    if ops == [] then s else Run(c, Step(c, s, ops[0]), ops[1..])
  }

  /** New sessions are unused metadata under an id that was never used. */
  ghost predicate Proper(s: ManagerState, op: ManagerOp) {
    op.Create? || op.Connect? ==> Fresh(s, op.m.id) && op.m.status == Creating && op.m.useCount == 0
  }

  ghost predicate ProperRun(c: ManagerConfig, s: ManagerState, ops: seq<ManagerOp>)
    decreases |ops|
  {
    ops == [] || (Proper(s, ops[0]) && ProperRun(c, Step(c, s, ops[0]), ops[1..]))
  }

  // ----- The invariant -----

  lemma UseKeepsInv(c: ManagerConfig, s: ManagerState, id: SessionId, now: Time)
    requires Inv(c, s)
    ensures Inv(c, UseSession(c, s, id, now).0)
  {
    if id in s.reg.sessions {
      TouchKeepsInv(c, s, id, now);
      StatusKeepsInv(c, Touch(c, s, id, now), id, Active, now);
    }
  }

  lemma CloseKeepsInv(c: ManagerConfig, s: ManagerState, id: SessionId, now: Time)
    requires Inv(c, s)
    ensures Inv(c, CloseSession(c, s, id, now).0)
  {
    StatusKeepsInv(c, s, id, Closing, now);
    DiscardKeepsInv(c, UpdateSessionStatus(c, s, id, Closing, now).0, id, now);
  }

  lemma {:induction false} ExpireKeepsInv(c: ManagerConfig, s: ManagerState, snapshot: R.Sessions,
                                          order: seq<SessionId>, now: Time)
    requires Inv(c, s)
    ensures Inv(c, ExpireAll(c, s, snapshot, order, now))
    decreases |order|
  {
    if order == [] {
    } else {
      var id := order[0];
      DiscardKeepsInv(c, s, id, now);
      var after := if id in snapshot && ShouldExpire(c.lifecycle, snapshot[id], now) then Discard(c, s, id, now) else s;
      ExpireKeepsInv(c, after, snapshot, order[1..], now);
    }
  }

  lemma PruneKeepsInv(c: ManagerConfig, s: ManagerState, poolOrder: seq<SessionId>, now: Time)
    requires Inv(c, s)
    ensures Inv(c, s.(pool := P.CleanupExpired(s.pool, poolOrder, c.lifecycle.maxIdleTime, now)))
  {
    var ids := P.Expired(s.pool.meta, poolOrder, c.lifecycle.maxIdleTime, now);
    P.RemoveAllErases(s.pool, ids);
    P.ErasesKeepsLimits(c.pool, s.pool, P.RemoveAll(s.pool, ids), Elements(ids));
  }

  lemma ForgettingKeepsInv(c: ManagerConfig, s: ManagerState, now: Time)
    requires Inv(c, s)
    ensures Inv(c, s.(metrics := X.CleanupOldHistory(s.metrics, X.MAX_HISTORY_AGE, now)))
  {
  }

  lemma CleanupKeepsInv(c: ManagerConfig, s: ManagerState, order: seq<SessionId>, poolOrder: seq<SessionId>, now: Time)
    requires Inv(c, s)
    ensures Inv(c, Cleanup(c, s, order, poolOrder, now))
  {
    ExpireKeepsInv(c, s, s.reg.sessions, order, now);
    var expired := ExpireAll(c, s, s.reg.sessions, order, now);
    PruneKeepsInv(c, expired, poolOrder, now);
    var pruned := expired.(pool := P.CleanupExpired(expired.pool, poolOrder, c.lifecycle.maxIdleTime, now));
    if c.enableMetrics { ForgettingKeepsInv(c, pruned, now); }
  }

  lemma ConnectKeepsInv(c: ManagerConfig, s: ManagerState, m: SessionMetadata, now: Time)
    requires Inv(c, s) && m.id !in s.reg.sessions && m.status == Creating && m.useCount == 0
    ensures Inv(c, ConnectOrCreate(c, s, m, now).0)
  {
    var found := FindReusable(c, s, m.Key(), now);
    if found.Some? {
      UseKeepsInv(c, s, found.value, now);
    } else {
      CreateKeepsInv(c, s, m);
    }
  }

  lemma StepKeepsInv(c: ManagerConfig, s: ManagerState, op: ManagerOp)
    requires Inv(c, s) && Proper(s, op)
    ensures Inv(c, Step(c, s, op))
  {
    if op.Create? || op.Connect? {
      CreationKeepsInv(c, s, op);
    } else if op.Tick? {
      CleanupKeepsInv(c, s, op.order, op.poolOrder, op.now);
    } else {
      ChangeKeepsInv(c, s, op);
    }
  }

  lemma CreationKeepsInv(c: ManagerConfig, s: ManagerState, op: ManagerOp)
    requires Inv(c, s) && Proper(s, op) && (op.Create? || op.Connect?)
    ensures Inv(c, Step(c, s, op))
  {
    if op.Create? {
      CreateKeepsInv(c, s, op.m);
    } else {
      ConnectKeepsInv(c, s, op.m, op.now);
    }
  }

  lemma ChangeKeepsInv(c: ManagerConfig, s: ManagerState, op: ManagerOp)
    requires Inv(c, s) && (op.SetStatus? || op.Use? || op.Close?)
    ensures Inv(c, Step(c, s, op))
  {
    if op.SetStatus? {
      StatusKeepsInv(c, s, op.id, op.status, op.now);
    } else if op.Use? {
      UseKeepsInv(c, s, op.id, op.now);
    } else {
      CloseKeepsInv(c, s, op.id, op.now);
    }
  }

  lemma EmptyIsInv(c: ManagerConfig)
    ensures Inv(c, EMPTY)
  {
    assert WithStatus(map[], Active) == {} && WithStatus(map[], Idle) == {} && WithStatus(map[], Failed) == {};
  }

  lemma {:induction false} RunKeepsInv(c: ManagerConfig, s: ManagerState, ops: seq<ManagerOp>)
    requires Inv(c, s) && ProperRun(c, s, ops)
    ensures Inv(c, Run(c, s, ops))
    decreases |ops|
  {
    if ops == [] {
    } else {
      StepKeepsInv(c, s, ops[0]);
      RunKeepsInv(c, Step(c, s, ops[0]), ops[1..]);
    }
  }

  /** Main result: from an empty manager, after any run, the indexes agree, the pool mirrors itself, stays within its
      limits and holds only registered sessions, the gauges are the registry's counts, and no session is lost. */
  lemma EveryRunIsSound(c: ManagerConfig, ops: seq<ManagerOp>)
    requires ProperRun(c, EMPTY, ops)
    ensures var s := Run(c, EMPTY, ops);
            && R.Consistent(c.registry, s.reg)
            && |s.reg.sessions| <= c.registry.maxSessions
            && P.Mirror(s.pool) && P.WithinLimits(c.pool, s.pool)
            && Linked(s.pool.meta, s.reg.sessions)
            && (c.enableMetrics ==>
                  && GaugesExact(s.metrics, s.reg.sessions)
                  && Conserved(s.metrics, s.reg.sessions)
                  && HistoryFits(s.metrics.history, s.reg.sessions))
  {
    EmptyIsInv(c);
    RunKeepsInv(c, EMPTY, ops);
  }

  /** A registered session in a tracked status is counted by its gauge. */
  lemma GaugesCoverSessions(c: ManagerConfig, ops: seq<ManagerOp>, id: SessionId)
    requires c.enableMetrics && ProperRun(c, EMPTY, ops)
    requires id in Run(c, EMPTY, ops).reg.sessions
    ensures var s := Run(c, EMPTY, ops);
            && (s.reg.sessions[id].status == Active ==> s.metrics.activeSessions >= 1)
            && (s.reg.sessions[id].status == Idle ==> s.metrics.idleSessions >= 1)
            && (s.reg.sessions[id].status == Failed ==> s.metrics.failedSessions >= 1)
  {
    EveryRunIsSound(c, ops);
    var sessions := Run(c, EMPTY, ops).reg.sessions;
    assert id in WithStatus(sessions, sessions[id].status);
  }

  // ----- Cleanup removes what it should and nothing else -----

  ghost function Overdue(c: ManagerConfig, sessions: R.Sessions, now: Time): set<SessionId> {
    set id | id in sessions && ShouldExpire(c.lifecycle, sessions[id], now)
  }

  lemma {:induction false} ExpireRemovesOverdue(c: ManagerConfig, s: ManagerState, snapshot: R.Sessions,
                                                order: seq<SessionId>, now: Time)
    requires s.pool.meta.Keys <= s.reg.sessions.Keys
    ensures var s' := ExpireAll(c, s, snapshot, order, now);
            && s'.reg.sessions == s.reg.sessions - (Overdue(c, snapshot, now) * Elements(order))
            && s'.pool.meta == s.pool.meta - (Overdue(c, snapshot, now) * Elements(order))
    decreases |order|
  {
    var due := Overdue(c, snapshot, now);
    if order == [] {
      assert due * Elements(order) == {};
    } else {
      var id := order[0];
      var after := if id in snapshot && ShouldExpire(c.lifecycle, snapshot[id], now) then Discard(c, s, id, now) else s;
      ExpireRemovesOverdue(c, after, snapshot, order[1..], now);
      assert order == [id] + order[1..];
      assert Elements(order) == {id} + Elements(order[1..]);
      if id in due {
        assert due * Elements(order) == {id} + due * Elements(order[1..]);
        assert after.reg.sessions == s.reg.sessions - {id};
        assert after.pool.meta == s.pool.meta - {id};
      } else {
        assert due * Elements(order) == due * Elements(order[1..]);
      }
    }
  }

  lemma TooOldOfRest(meta: map<SessionId, P.Pooled>, due: set<SessionId>, maxIdleTime: nat, now: Time)
    ensures (meta - due) - P.TooOldIds(meta - due, maxIdleTime, now)
         == meta - due - P.TooOldIds(meta, maxIdleTime, now)
  {
  }

  lemma ExpireExact(c: ManagerConfig, s: ManagerState, order: seq<SessionId>, now: Time)
    requires Inv(c, s) && Enumerates(order, s.reg.sessions.Keys)
    ensures var s' := ExpireAll(c, s, s.reg.sessions, order, now);
            var due := Overdue(c, s.reg.sessions, now);
            && s'.reg.sessions == s.reg.sessions - due
            && s'.pool.meta == s.pool.meta - due
            && P.Mirror(s'.pool)
  {
    ExpireKeepsInv(c, s, s.reg.sessions, order, now);
    ExpireRemovesOverdue(c, s, s.reg.sessions, order, now);
    assert Overdue(c, s.reg.sessions, now) * Elements(order) == Overdue(c, s.reg.sessions, now);
  }

  /** A tick unregisters exactly the overdue sessions and unpools exactly those and the entries pooled too long;
      everything else keeps its metadata. */
  lemma TickIsExact(c: ManagerConfig, s: ManagerState, order: seq<SessionId>, poolOrder: seq<SessionId>, now: Time)
    requires Inv(c, s)
    requires Enumerates(order, s.reg.sessions.Keys)
    requires Enumerates(poolOrder, s.pool.meta.Keys - Overdue(c, s.reg.sessions, now))
    ensures var s' := Cleanup(c, s, order, poolOrder, now);
            var due := Overdue(c, s.reg.sessions, now);
            && s'.reg.sessions == s.reg.sessions - due
            && s'.pool.meta == s.pool.meta - due - P.TooOldIds(s.pool.meta, c.lifecycle.maxIdleTime, now)
  {
    var due := Overdue(c, s.reg.sessions, now);
    ExpireExact(c, s, order, now);
    var pool := ExpireAll(c, s, s.reg.sessions, order, now).pool;
    assert pool.meta.Keys == s.pool.meta.Keys - due;
    P.CleanupIsExact(pool, poolOrder, c.lifecycle.maxIdleTime, now);
    TooOldOfRest(s.pool.meta, due, c.lifecycle.maxIdleTime, now);
  }

  lemma TickLeavesNoneTooOld(c: ManagerConfig, s: ManagerState, order: seq<SessionId>, poolOrder: seq<SessionId>,
                             now: Time)
    requires Inv(c, s)
    requires Enumerates(order, s.reg.sessions.Keys)
    requires Enumerates(poolOrder, s.pool.meta.Keys - Overdue(c, s.reg.sessions, now))
    ensures var s' := Cleanup(c, s, order, poolOrder, now);
            && P.Mirror(s'.pool)
            && forall x :: x in s'.pool.meta ==> !P.TooOld(s'.pool.meta[x], c.lifecycle.maxIdleTime, now)
  {
    TickIsExact(c, s, order, poolOrder, now);
    CleanupKeepsInv(c, s, order, poolOrder, now);
  }

  /** A session the reconnection rule would retry is unregistered by the next tick, however soon or late it comes. */
  lemma ReconnectCandidatesExpire(c: ManagerConfig, s: ManagerState, id: SessionId, now: Time,
                                  order: seq<SessionId>, poolOrder: seq<SessionId>, later: Time)
    requires Inv(c, s) && id in s.reg.sessions && ShouldReconnect(c.lifecycle, s.reg.sessions[id], now)
    requires Enumerates(order, s.reg.sessions.Keys)
    ensures id !in Cleanup(c, s, order, poolOrder, later).reg.sessions
  {
    ExpireExact(c, s, order, later);
  }

  // ----- Uses are conserved -----

  /** The uses thrown away with old history entries in one step. */
  ghost function EvictedBy(c: ManagerConfig, s: ManagerState, op: ManagerOp): nat {
    if op.Tick?
    then X.EvictedUses(ExpireAll(c, s, s.reg.sessions, op.order, op.now).metrics.history, X.MAX_HISTORY_AGE, op.now)
    else 0
  }

  ghost function EvictedInRun(c: ManagerConfig, s: ManagerState, ops: seq<ManagerOp>): nat
    decreases |ops|
  {
    if ops == [] then 0 else EvictedBy(c, s, ops[0]) + EvictedInRun(c, Step(c, s, ops[0]), ops[1..])
  }

  /** Uses counted in total and not found in the history. */
  ghost function Unaccounted(s: ManagerState): int {
    s.metrics.totalUsageCount - X.HistoryUses(s.metrics.history)
  }

  lemma StatusKeepsUses(c: ManagerConfig, s: ManagerState, id: SessionId, status: SessionStatus, now: Time)
    ensures Unaccounted(UpdateSessionStatus(c, s, id, status, now).0) == Unaccounted(s)
  {
    if id in s.reg.sessions && c.enableMetrics {
      StatusChangeMovesGauges(s.metrics, s.reg.sessions[id].status, status);
    }
  }

  lemma CreateKeepsUses(c: ManagerConfig, s: ManagerState, m: SessionMetadata)
    requires Fresh(s, m.id)
    ensures Unaccounted(CreateSession(c, s, m).0) == Unaccounted(s)
  {
    var entry := X.HistoryEntry(m.createdAt, None, m.transport.transportType, 0, 0, false);
    X.HistoryUsesPut(s.metrics.history, m.id, entry);
  }

  lemma TouchKeepsUses(c: ManagerConfig, s: ManagerState, id: SessionId, now: Time)
    requires c.enableMetrics && HistoryFits(s.metrics.history, s.reg.sessions) && id in s.reg.sessions
    ensures Unaccounted(Touch(c, s, id, now)) == Unaccounted(s)
  {
    var h, count := s.metrics.history, s.reg.sessions[id].useCount + 1;
    X.HistoryUsesPut(h, id, h[id].(useCount := count, wasReused := h[id].wasReused || count > 1));
  }

  lemma UseKeepsUses(c: ManagerConfig, s: ManagerState, id: SessionId, now: Time)
    requires c.enableMetrics && HistoryFits(s.metrics.history, s.reg.sessions)
    ensures Unaccounted(UseSession(c, s, id, now).0) == Unaccounted(s)
  {
    if id in s.reg.sessions {
      TouchKeepsUses(c, s, id, now);
      StatusKeepsUses(c, Touch(c, s, id, now), id, Active, now);
    }
  }

  lemma DiscardKeepsUses(c: ManagerConfig, s: ManagerState, id: SessionId, now: Time)
    requires R.Consistent(c.registry, s.reg)
    ensures Unaccounted(Discard(c, s, id, now)) == Unaccounted(s)
  {
    if id in s.reg.sessions {
      X.ClosedKeepsUses(s.metrics, s.reg.sessions[id], now);
    }
  }

  lemma {:induction false} ExpireKeepsUses(c: ManagerConfig, s: ManagerState, snapshot: R.Sessions,
                                           order: seq<SessionId>, now: Time)
    requires Inv(c, s)
    ensures Unaccounted(ExpireAll(c, s, snapshot, order, now)) == Unaccounted(s)
    decreases |order|
  {
    if order == [] {
    } else {
      var id := order[0];
      DiscardKeepsInv(c, s, id, now);
      DiscardKeepsUses(c, s, id, now);
      var after := if id in snapshot && ShouldExpire(c.lifecycle, snapshot[id], now) then Discard(c, s, id, now) else s;
      ExpireKeepsUses(c, after, snapshot, order[1..], now);
    }
  }

  lemma CloseKeepsUses(c: ManagerConfig, s: ManagerState, id: SessionId, now: Time)
    requires Inv(c, s)
    ensures Unaccounted(CloseSession(c, s, id, now).0) == Unaccounted(s)
  {
    StatusKeepsUses(c, s, id, Closing, now);
    StatusKeepsInv(c, s, id, Closing, now);
    DiscardKeepsUses(c, UpdateSessionStatus(c, s, id, Closing, now).0, id, now);
  }

  lemma ConnectKeepsUses(c: ManagerConfig, s: ManagerState, m: SessionMetadata, now: Time)
    requires c.enableMetrics && HistoryFits(s.metrics.history, s.reg.sessions) && Fresh(s, m.id)
    ensures Unaccounted(ConnectOrCreate(c, s, m, now).0) == Unaccounted(s)
  {
    var found := FindReusable(c, s, m.Key(), now);
    if found.Some? {
      UseKeepsUses(c, s, found.value, now);
    } else {
      CreateKeepsUses(c, s, m);
    }
  }

  lemma TickAccountsForUses(c: ManagerConfig, s: ManagerState, order: seq<SessionId>, poolOrder: seq<SessionId>,
                            now: Time)
    requires Inv(c, s) && c.enableMetrics
    ensures Unaccounted(Cleanup(c, s, order, poolOrder, now))
         == Unaccounted(s) + EvictedBy(c, s, Tick(order, poolOrder, now))
  {
    ExpireKeepsUses(c, s, s.reg.sessions, order, now);
    X.CleanupSplitsUses(ExpireAll(c, s, s.reg.sessions, order, now).metrics, X.MAX_HISTORY_AGE, now);
  }

  lemma StepAccountsForUses(c: ManagerConfig, s: ManagerState, op: ManagerOp)
    requires Inv(c, s) && Proper(s, op) && c.enableMetrics
    ensures Unaccounted(Step(c, s, op)) == Unaccounted(s) + EvictedBy(c, s, op)
  {
    if op.Tick? {
      TickAccountsForUses(c, s, op.order, op.poolOrder, op.now);
    } else {
      OperationKeepsUses(c, s, op);
    }
  }

  lemma OperationKeepsUses(c: ManagerConfig, s: ManagerState, op: ManagerOp)
    requires Inv(c, s) && Proper(s, op) && c.enableMetrics && !op.Tick?
    ensures Unaccounted(Step(c, s, op)) == Unaccounted(s)
  {
    match op
    case Create(m) => CreateKeepsUses(c, s, m);
    case SetStatus(id, status, now) => StatusKeepsUses(c, s, id, status, now);
    case Use(id, now) => UseKeepsUses(c, s, id, now);
    case Close(id, now) => CloseKeepsUses(c, s, id, now);
    case Connect(m, now) => ConnectKeepsUses(c, s, m, now);
  }

  lemma {:induction false} RunAccountsForUses(c: ManagerConfig, s: ManagerState, ops: seq<ManagerOp>)
    requires Inv(c, s) && ProperRun(c, s, ops) && c.enableMetrics
    ensures Unaccounted(Run(c, s, ops)) == Unaccounted(s) + EvictedInRun(c, s, ops)
    decreases |ops|
  {
    if ops == [] {
    } else {
      StepKeepsInv(c, s, ops[0]);
      StepAccountsForUses(c, s, ops[0]);
      RunAccountsForUses(c, Step(c, s, ops[0]), ops[1..]);
    }
  }

  /** Every counted use is found once: with a live session, with a remembered closed one, or among the evicted. */
  lemma UsesAreConserved(c: ManagerConfig, ops: seq<ManagerOp>)
    requires c.enableMetrics && ProperRun(c, EMPTY, ops)
    ensures var s := Run(c, EMPTY, ops);
            && s.metrics.totalUsageCount == X.HistoryUses(s.metrics.history) + EvictedInRun(c, EMPTY, ops)
            && HistoryFits(s.metrics.history, s.reg.sessions)
  {
    EmptyIsInv(c);
    EveryRunIsSound(c, ops);
    RunAccountsForUses(c, EMPTY, ops);
    assert X.UseCounts(map[]) == map[];
  }
}
