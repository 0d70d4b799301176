/** The session manager: registry, pool and metrics moved together (crates/core/src/session/manager.rs).
    Each operation is one atomic change of the three states and reads the clock once. */
module Manager {
  import opened Common
  import opened Session
  import R = Registry
  import P = Pool
  import X = Metrics

  datatype ManagerConfig = ManagerConfig(
    registry: R.RegistryConfig,
    pool: P.PoolConfig,
    lifecycle: LifecycleConfig,
    enableMetrics: bool)

  datatype ManagerState = ManagerState(reg: R.RegistryState, pool: P.PoolState, metrics: X.MetricsState)

  const EMPTY := ManagerState(R.EMPTY, P.EMPTY, X.EMPTY)

  // ----- Operations -----

  function CreateSession(c: ManagerConfig, s: ManagerState, m: SessionMetadata)
    : (ManagerState, Result<SessionId, R.RegistryError>)
  {
    var (reg, r) := R.Register(c.registry, s.reg, m);
    if r.Err? then (s, r)
    else (s.(reg := reg, metrics := if c.enableMetrics then X.RecordCreated(s.metrics, m) else s.metrics), r)
  }

  /** Only these changes touch the pool; the other statuses leave a pooled session where it is. */
  function Repool(c: ManagerConfig, p: P.PoolState, id: SessionId, m: SessionMetadata, now: Time): P.PoolState {
    match m.status
    case Idle => P.AddSession(c.pool, p, m, now)
    case Active => P.RemoveSession(p, id)
    case Failed => P.RemoveSession(p, id)
    case Closed => P.RemoveSession(p, id)
    case _ => p
  }

  function UpdateSessionStatus(c: ManagerConfig, s: ManagerState, id: SessionId, status: SessionStatus, now: Time)
    : (ManagerState, Option<R.RegistryError>)
  {
    if id !in s.reg.sessions then (s, Some(R.NotFound(id))) else
      var from := s.reg.sessions[id].status;
      var reg := R.UpdateStatus(s.reg, id, status, now).0;
      (ManagerState(reg,
                    Repool(c, s.pool, id, reg.sessions[id], now),
                    if c.enableMetrics
                    then X.RecordConnection(X.RecordStatusChange(s.metrics, from, status), from, status)
                    else s.metrics),
       None)
  }

  /** The registry's `mark_used` followed by the usage record. */
  function Touch(c: ManagerConfig, s: ManagerState, id: SessionId, now: Time): ManagerState
    requires id in s.reg.sessions
  {
    var reg := R.MarkUsed(s.reg, id, now).0;
    s.(reg := reg,
       metrics := if c.enableMetrics then X.RecordUsage(s.metrics, id, reg.sessions[id].useCount) else s.metrics)
  }

  function UseSession(c: ManagerConfig, s: ManagerState, id: SessionId, now: Time)
    : (ManagerState, Option<R.RegistryError>)
  {
    if id !in s.reg.sessions then (s, Some(R.NotFound(id))) else
      var touched := Touch(c, s, id, now);
      if touched.reg.sessions[id].status == Idle then UpdateSessionStatus(c, touched, id, Active, now)
      else (touched, None)
  }

  /** Pool removal, unregistration and the closing record: the tail of a close, and the expiry of one session. */
  function Discard(c: ManagerConfig, s: ManagerState, id: SessionId, now: Time): ManagerState {
    if id !in s.reg.sessions then s
    else ManagerState(R.Unregister(c.registry, s.reg, id).0,
                      P.RemoveSession(s.pool, id),
                      if c.enableMetrics then X.RecordClosed(s.metrics, s.reg.sessions[id], now) else s.metrics)
  }

  function CloseSession(c: ManagerConfig, s: ManagerState, id: SessionId, now: Time)
    : (ManagerState, Option<R.RegistryError>)
  {
    var (closing, e) := UpdateSessionStatus(c, s, id, Closing, now);
    if e.Some? then (closing, e) else (Discard(c, closing, id, now), None)
  }

  function FindReusable(c: ManagerConfig, s: ManagerState, key: string, now: Time): Option<SessionId> {
    P.FindSession(c.pool, s.pool, key, now)
  }

  /** `m` is the metadata the call would register if nothing can be reused. */
  function ConnectOrCreate(c: ManagerConfig, s: ManagerState, m: SessionMetadata, now: Time)
    : (ManagerState, Result<(SessionId, bool), R.RegistryError>)
  {
    match FindReusable(c, s, m.Key(), now)
    case Some(id) =>
      var (used, e) := UseSession(c, s, id, now);
      (used, if e.Some? then Err(e.value) else Ok((id, true)))
    case None =>
      var (created, r) := CreateSession(c, s, m);
      (created, if r.Err? then Err(r.error) else Ok((m.id, false)))
  }

  /** The expiry loop over a snapshot of the registry, in the snapshot's order. */
  function ExpireAll(c: ManagerConfig, s: ManagerState, snapshot: R.Sessions, order: seq<SessionId>, now: Time)
    : ManagerState
    decreases |order|
  {
    if order == [] then s else
      var id := order[0];
      var after := if id in snapshot && ShouldExpire(c.lifecycle, snapshot[id], now) then Discard(c, s, id, now) else s;
      ExpireAll(c, after, snapshot, order[1..], now)
  }

  /** One cleanup tick; `order` and `poolOrder` are the iteration orders of the two hash maps. */
  function Cleanup(c: ManagerConfig, s: ManagerState, order: seq<SessionId>, poolOrder: seq<SessionId>, now: Time)
    : ManagerState
  {
    var expired := ExpireAll(c, s, s.reg.sessions, order, now);
    expired.(pool := P.CleanupExpired(expired.pool, poolOrder, c.lifecycle.maxIdleTime, now),
             metrics := if c.enableMetrics then X.CleanupOldHistory(expired.metrics, X.MAX_HISTORY_AGE, now)
                        else expired.metrics)
  }

  // ----- The invariant -----

  function WithStatus(sessions: R.Sessions, status: SessionStatus): set<SessionId> {
    set id | id in sessions && sessions[id].status == status
  }

  function Count(sessions: R.Sessions, status: SessionStatus): nat {
    |WithStatus(sessions, status)|
  }

  /** The three gauges are the registry's counts. */
  ghost predicate GaugesExact(x: X.MetricsState, sessions: R.Sessions) {
    && x.activeSessions == Count(sessions, Active)
    && x.idleSessions == Count(sessions, Idle)
    && x.failedSessions == Count(sessions, Failed)
  }

  /** Sessions are neither lost nor counted twice. */
  ghost predicate Conserved(x: X.MetricsState, sessions: R.Sessions) {
    && x.totalSessionsCreated == x.sessionsClosed + |sessions|
    && MapSum(x.transportUsage) == x.totalSessionsCreated
  }

  /** The open history entries are the registered ids, with the same number of uses. */
  ghost predicate HistoryFits(h: X.History, sessions: R.Sessions) {
    && (forall id :: id in sessions ==> id in h && h[id].useCount == sessions[id].useCount)
    && (forall id :: id in h ==> (h[id].closedAt.None? <==> id in sessions))
  }

  /** A pooled id is registered under its pool key and is in none of the statuses that leave the pool. */
  ghost predicate Linked(meta: map<SessionId, P.Pooled>, sessions: R.Sessions) {
    forall id :: id in meta ==>
      && id in sessions
      && meta[id].connectionKey == sessions[id].Key()
      && sessions[id].status != Active && sessions[id].status != Failed && sessions[id].status != Closed
  }

  ghost predicate PoolSound(c: ManagerConfig, p: P.PoolState) {
    P.Mirror(p) && P.WithinLimits(c.pool, p)
  }

  ghost predicate Tallied(x: X.MetricsState, sessions: R.Sessions) {
    GaugesExact(x, sessions) && Conserved(x, sessions) && HistoryFits(x.history, sessions)
  }

  ghost predicate Inv(c: ManagerConfig, s: ManagerState) {
    && R.Consistent(c.registry, s.reg)
    && |s.reg.sessions| <= c.registry.maxSessions
    && PoolSound(c, s.pool)
    && Linked(s.pool.meta, s.reg.sessions)
    && (c.enableMetrics ==> Tallied(s.metrics, s.reg.sessions))
  }

  /** An id that was never used: neither registered nor remembered. */
  ghost predicate Fresh(s: ManagerState, id: SessionId) {
    id !in s.reg.sessions && id !in s.metrics.history
  }

  // ----- Counting by status -----

  lemma CountsAfterPut(sessions: R.Sessions, id: SessionId, m: SessionMetadata, status: SessionStatus)
    ensures Count(sessions[id := m], status)
         == Count(sessions, status)
            - (if id in sessions && sessions[id].status == status then 1 else 0)
            + (if m.status == status then 1 else 0)
  {
    var rest := WithStatus(sessions, status) - {id};
    assert WithStatus(sessions[id := m], status) == if m.status == status then rest + {id} else rest;
  }

  lemma CountsAfterRemove(sessions: R.Sessions, id: SessionId, status: SessionStatus)
    requires id in sessions
    ensures Count(sessions - {id}, status)
         == Count(sessions, status) - (if sessions[id].status == status then 1 else 0)
  {
    assert WithStatus(sessions - {id}, status) == WithStatus(sessions, status) - {id};
  }

  lemma SizeAfterPut(sessions: R.Sessions, id: SessionId, m: SessionMetadata)
    ensures |sessions[id := m]| == |sessions| + (if id in sessions then 0 else 1)
  {
    assert sessions[id := m].Keys == sessions.Keys + {id};
    assert id in sessions ==> sessions.Keys + {id} == sessions.Keys;
  }

  lemma SizeAfterRemove(sessions: R.Sessions, id: SessionId)
    requires id in sessions
    ensures |sessions - {id}| == |sessions| - 1
  {
    assert (sessions - {id}).Keys == sessions.Keys - {id};
  }

  // ----- The building blocks keep the tallies -----

  lemma TalliedAfterCreate(x: X.MetricsState, sessions: R.Sessions, m: SessionMetadata)
    requires Tallied(x, sessions) && m.id !in sessions && m.status == Creating && m.useCount == 0
    ensures Tallied(X.RecordCreated(x, m), sessions[m.id := R.Admitted(m)])
  {
    CountsAfterPut(sessions, m.id, R.Admitted(m), Active);
    CountsAfterPut(sessions, m.id, R.Admitted(m), Idle);
    CountsAfterPut(sessions, m.id, R.Admitted(m), Failed);
    ConservedAfterCreate(x, sessions, m);
    HistoryAfterCreate(x.history, sessions, m);
  }

  lemma ConservedAfterCreate(x: X.MetricsState, sessions: R.Sessions, m: SessionMetadata)
    requires Conserved(x, sessions) && m.id !in sessions
    ensures Conserved(X.RecordCreated(x, m), sessions[m.id := R.Admitted(m)])
  {
    SizeAfterPut(sessions, m.id, R.Admitted(m));
    var usage, kind := x.transportUsage, m.transport.transportType;
    MapSumUpdate(usage, kind, (if kind in usage then usage[kind] else 0) + 1);
  }

  lemma HistoryAfterCreate(h: X.History, sessions: R.Sessions, m: SessionMetadata)
    requires HistoryFits(h, sessions) && m.useCount == 0
    ensures HistoryFits(h[m.id := X.HistoryEntry(m.createdAt, None, m.transport.transportType, 0, 0, false)],
                        sessions[m.id := R.Admitted(m)])
  {
  }

  lemma StatusChangeMovesGauges(x: X.MetricsState, from: SessionStatus, to: SessionStatus)
    ensures var y := X.RecordConnection(X.RecordStatusChange(x, from, to), from, to);
            && y.activeSessions == SaturatingSub(x.activeSessions, CountIf(from == Active)) + CountIf(to == Active)
            && y.idleSessions == SaturatingSub(x.idleSessions, CountIf(from == Idle)) + CountIf(to == Idle)
            && y.failedSessions == SaturatingSub(x.failedSessions, CountIf(from == Failed)) + CountIf(to == Failed)
            && y.totalSessionsCreated == x.totalSessionsCreated && y.sessionsClosed == x.sessionsClosed
            && y.transportUsage == x.transportUsage && y.history == x.history && y.totalUsageCount == x.totalUsageCount
            && y.peakConcurrentSessions
               == (if to == Active then Max(x.peakConcurrentSessions, y.activeSessions + y.idleSessions)
                   else x.peakConcurrentSessions)
  {
  }

  lemma GaugesAfterStatus(x: X.MetricsState, y: X.MetricsState, sessions: R.Sessions, id: SessionId, m: SessionMetadata)
    requires GaugesExact(x, sessions) && id in sessions
    requires var from := sessions[id].status;
             y == X.RecordConnection(X.RecordStatusChange(x, from, m.status), from, m.status)
    ensures GaugesExact(y, sessions[id := m])
  {
    StatusChangeMovesGauges(x, sessions[id].status, m.status);
    assert id in WithStatus(sessions, sessions[id].status);
    CountsAfterPut(sessions, id, m, Active);
    CountsAfterPut(sessions, id, m, Idle);
    CountsAfterPut(sessions, id, m, Failed);
  }

  lemma TalliedAfterStatus(x: X.MetricsState, sessions: R.Sessions, id: SessionId, status: SessionStatus, now: Time)
    requires Tallied(x, sessions) && id in sessions
    ensures var from := sessions[id].status;
            Tallied(X.RecordConnection(X.RecordStatusChange(x, from, status), from, status),
                    sessions[id := sessions[id].SetStatus(status, now)])
  {
    var from, m := sessions[id].status, sessions[id].SetStatus(status, now);
    StatusChangeMovesGauges(x, from, status);
    GaugesAfterStatus(x, X.RecordConnection(X.RecordStatusChange(x, from, status), from, status), sessions, id, m);
    SizeAfterPut(sessions, id, m);
  }

  lemma TalliedAfterUse(x: X.MetricsState, sessions: R.Sessions, id: SessionId, now: Time)
    requires Tallied(x, sessions) && id in sessions
    ensures var m := sessions[id].MarkUsed(now);
            Tallied(X.RecordUsage(x, id, m.useCount), sessions[id := m])
  {
    var m := sessions[id].MarkUsed(now);
    CountsAfterPut(sessions, id, m, Active);
    CountsAfterPut(sessions, id, m, Idle);
    CountsAfterPut(sessions, id, m, Failed);
    SizeAfterPut(sessions, id, m);
  }

  lemma TalliedAfterClose(x: X.MetricsState, sessions: R.Sessions, id: SessionId, now: Time)
    requires Tallied(x, sessions) && id in sessions && sessions[id].id == id
    ensures Tallied(X.RecordClosed(x, sessions[id], now), sessions - {id})
  {
    GaugesAfterClose(x, sessions, id, now);
    SizeAfterRemove(sessions, id);
    X.ClosedCounts(x, sessions[id], now);
    HistoryAfterClose(x, sessions, id, now);
  }

  lemma GaugesAfterClose(x: X.MetricsState, sessions: R.Sessions, id: SessionId, now: Time)
    requires GaugesExact(x, sessions) && id in sessions
    ensures GaugesExact(X.RecordClosed(x, sessions[id], now), sessions - {id})
  {
    CountsAfterRemove(sessions, id, Active);
    CountsAfterRemove(sessions, id, Idle);
    CountsAfterRemove(sessions, id, Failed);
    X.ClosedLowersGauges(x, sessions[id], now);
  }

  lemma HistoryAfterClose(x: X.MetricsState, sessions: R.Sessions, id: SessionId, now: Time)
    requires HistoryFits(x.history, sessions) && id in sessions && sessions[id].id == id
    ensures HistoryFits(X.SampleClosed(x, sessions[id], now).history, sessions - {id})
  {
    var entry := x.history[id].(closedAt := Some(now), totalIdleTime := sessions[id].IdleTime(now));
    EntryClosed(x.history, sessions, id, entry);
  }

  lemma EntryClosed(h: X.History, sessions: R.Sessions, id: SessionId, entry: X.HistoryEntry)
    requires HistoryFits(h, sessions) && id in sessions && entry.closedAt.Some?
    ensures HistoryFits(h[id := entry], sessions - {id})
  {
  }

  // ----- The building blocks keep the invariant -----

  lemma CreateKeepsInv(c: ManagerConfig, s: ManagerState, m: SessionMetadata)
    requires Inv(c, s) && m.id !in s.reg.sessions && m.status == Creating && m.useCount == 0
    ensures Inv(c, CreateSession(c, s, m).0)
  {
    if R.Admission(c.registry, s.reg, m.name).None? {
      R.InsertConsistent(c.registry, s.reg, m);
      SizeAfterPut(s.reg.sessions, m.id, R.Admitted(m));
      if c.enableMetrics { TalliedAfterCreate(s.metrics, s.reg.sessions, m); }
    }
  }

  lemma RemovalSound(c: ManagerConfig, p: P.PoolState, id: SessionId)
    requires PoolSound(c, p)
    ensures PoolSound(c, P.RemoveSession(p, id)) && P.RemoveSession(p, id).meta == p.meta - {id}
  {
    P.RemoveErases(p, id);
    P.ErasesKeepsLimits(c.pool, p, P.RemoveSession(p, id), {id});
  }

  lemma RepoolSound(c: ManagerConfig, p: P.PoolState, m: SessionMetadata, now: Time)
    requires PoolSound(c, p) && (m.id in p.meta ==> p.meta[m.id].connectionKey == m.Key())
    ensures PoolSound(c, Repool(c, p, m.id, m, now))
  {
    if m.status == Idle {
      P.InsertKeepsMirrorIff(p, m, now);
      P.AddKeepsLimits(c.pool, p, m, now);
    } else {
      RemovalSound(c, p, m.id);
    }
  }

  lemma RepoolLinked(c: ManagerConfig, p: P.PoolState, sessions: R.Sessions, m: SessionMetadata, now: Time)
    requires Linked(p.meta, sessions) && m.id in sessions && m.Key() == sessions[m.id].Key()
    ensures Linked(Repool(c, p, m.id, m, now).meta, sessions[m.id := m])
  {
  }

  lemma StatusKeepsInv(c: ManagerConfig, s: ManagerState, id: SessionId, status: SessionStatus, now: Time)
    requires Inv(c, s)
    ensures Inv(c, UpdateSessionStatus(c, s, id, status, now).0)
  {
    if id in s.reg.sessions {
      var m := s.reg.sessions[id].SetStatus(status, now);
      R.SameNamesAndKeys(c.registry, s.reg, id, m);
      SizeAfterPut(s.reg.sessions, id, m);
      RepoolSound(c, s.pool, m, now);
      RepoolLinked(c, s.pool, s.reg.sessions, m, now);
      if c.enableMetrics { TalliedAfterStatus(s.metrics, s.reg.sessions, id, status, now); }
    }
  }

  lemma TouchKeepsInv(c: ManagerConfig, s: ManagerState, id: SessionId, now: Time)
    requires Inv(c, s) && id in s.reg.sessions
    ensures Inv(c, Touch(c, s, id, now))
  {
    var m := s.reg.sessions[id].MarkUsed(now);
    R.SameNamesAndKeys(c.registry, s.reg, id, m);
    SizeAfterPut(s.reg.sessions, id, m);
    if c.enableMetrics { TalliedAfterUse(s.metrics, s.reg.sessions, id, now); }
  }

  lemma LinkedAfterRemove(meta: map<SessionId, P.Pooled>, sessions: R.Sessions, id: SessionId)
    requires Linked(meta, sessions)
    ensures Linked(meta - {id}, sessions - {id})
  {
  }

  lemma DiscardKeepsInv(c: ManagerConfig, s: ManagerState, id: SessionId, now: Time)
    requires Inv(c, s)
    ensures Inv(c, Discard(c, s, id, now))
  {
    if id in s.reg.sessions {
      R.UnregisterConsistent(c.registry, s.reg, id);
      SizeAfterRemove(s.reg.sessions, id);
      RemovalSound(c, s.pool, id);
      LinkedAfterRemove(s.pool.meta, s.reg.sessions, id);
      if c.enableMetrics { TalliedAfterClose(s.metrics, s.reg.sessions, id, now); }
    }
  }

  // ----- What a status change does -----

  /** Going Idle offers the session to the pool as it now is; Active, Failed and Closed take it out; the other statuses
      leave the pool alone. */
  lemma StatusPoolEffect(c: ManagerConfig, s: ManagerState, id: SessionId, status: SessionStatus, now: Time)
    requires id in s.reg.sessions && PoolSound(c, s.pool)
    ensures var (s', e) := UpdateSessionStatus(c, s, id, status, now);
            && e.None?
            && (status == Idle ==> s'.pool == P.AddSession(c.pool, s.pool, s'.reg.sessions[id], now))
            && (status == Active || status == Failed || status == Closed ==>
                  P.Erases(s.pool, s'.pool, {id}))
            && (status != Idle && status != Active && status != Failed && status != Closed ==> s'.pool == s.pool)
  {
    P.RemoveErases(s.pool, id);
  }

  /** Only Active and Idle count as a use of the session; nothing but its status and last use changes. */
  lemma StatusStamps(c: ManagerConfig, s: ManagerState, id: SessionId, status: SessionStatus, now: Time)
    requires id in s.reg.sessions
    ensures var before, after := s.reg.sessions, UpdateSessionStatus(c, s, id, status, now).0.reg.sessions;
            after == before[id := before[id].(status := status,
                                              lastUsed := if status == Active || status == Idle then now
                                                          else before[id].lastUsed)]
  {
  }

  // ----- Metadata updates from outside -----

  predicate Tracked(status: SessionStatus) {
    status == Active || status == Idle || status == Failed
  }

  /** `update_session_metadata` goes past the pool and the metrics. It keeps the gauges exact exactly when the status
      stays or changes between untracked ones, the pool linked exactly when the session is not pooled or keeps its key
      and a status that does not leave the pool, and the history fitting exactly when the use count stays. The
      registry's indexes agree in any case. */
  lemma MetadataUpdateIsSafeIff(c: ManagerConfig, s: ManagerState, id: SessionId, m: SessionMetadata)
    requires Inv(c, s) && c.enableMetrics && id in s.reg.sessions && m.id == id
    ensures var sessions := R.Update(c.registry, s.reg, id, m).0.sessions;
            var was := s.reg.sessions[id];
            && (GaugesExact(s.metrics, sessions)
                <==> was.status == m.status || (!Tracked(was.status) && !Tracked(m.status)))
            && (Linked(s.pool.meta, sessions)
                <==> id !in s.pool.meta
                     || (was.Key() == m.Key() && m.status != Active && m.status != Failed && m.status != Closed))
            && (HistoryFits(s.metrics.history, sessions) <==> was.useCount == m.useCount)
            && R.Consistent(c.registry, R.Update(c.registry, s.reg, id, m).0)
  {
    R.UpdateConsistent(c.registry, s.reg, id, m);
    CountsAfterPut(s.reg.sessions, id, m, Active);
    CountsAfterPut(s.reg.sessions, id, m, Idle);
    CountsAfterPut(s.reg.sessions, id, m, Failed);
    HistoryAfterPutIff(s.metrics.history, s.reg.sessions, id, m);
    LinkedAfterPutIff(s.pool.meta, s.reg.sessions, id, m);
  }

  lemma HistoryAfterPutIff(h: X.History, sessions: R.Sessions, id: SessionId, m: SessionMetadata)
    requires HistoryFits(h, sessions) && id in sessions
    ensures HistoryFits(h, sessions[id := m]) <==> sessions[id].useCount == m.useCount
  {
    var after := sessions[id := m];
    assert h[id].useCount == sessions[id].useCount && after[id].useCount == m.useCount;
  }

  lemma LinkedAfterPutIff(meta: map<SessionId, P.Pooled>, sessions: R.Sessions, id: SessionId, m: SessionMetadata)
    requires Linked(meta, sessions) && id in sessions
    ensures Linked(meta, sessions[id := m])
       <==> id !in meta
            || (sessions[id].Key() == m.Key() && m.status != Active && m.status != Failed && m.status != Closed)
  {
    var after := sessions[id := m];
    assert id in meta ==> meta[id].connectionKey == sessions[id].Key() && after[id] == m;
  }
}
