/** The session manager as the source builds it: one object over a registry, a pool and a metrics collector. */
module ManagerComponent {
  import opened Common
  import opened Session
  import opened RegistryComponent
  import opened PoolComponent
  import opened MetricsComponent
  import M = Manager
  import Runs = ManagerRuns
  import R = Registry
  import P = Pool
  import X = Metrics

  class SessionManager {
    const config: M.ManagerConfig
    const registry: SessionRegistry
    const pool: SessionPool
    const metrics: SessionMetricsCollector

    ghost predicate Valid() {
      registry.config == config.registry && pool.config == config.pool
    }

    ghost function State(): M.ManagerState
      reads registry, pool, metrics
    {
      M.ManagerState(registry.State(), pool.State(), metrics.State())
    }

    constructor (config: M.ManagerConfig)
      ensures Valid() && this.config == config && State() == M.EMPTY
      ensures fresh(registry) && fresh(pool) && fresh(metrics)
    {
      this.config := config;
      registry := new SessionRegistry(config.registry);
      pool := new SessionPool(config.pool);
      metrics := new SessionMetricsCollector();
    }

    method CreateSession(m: SessionMetadata) returns (r: Result<SessionId, R.RegistryError>)
      requires Valid()
      modifies registry, pool, metrics
      ensures (State(), r) == M.CreateSession(config, old(State()), m)
      ensures M.Inv(config, old(State())) && Runs.Proper(old(State()), Runs.Create(m)) ==> M.Inv(config, State())
    {
      if M.Inv(config, State()) && Runs.Proper(State(), Runs.Create(m)) { M.CreateKeepsInv(config, State(), m); }
      r := registry.Register(m);
      if r.Err? {
        return;
      }
      if config.enableMetrics {
        metrics.RecordSessionCreated(m);
      }
    }

    method UpdateSessionStatus(id: SessionId, status: SessionStatus, now: Time) returns (e: Option<R.RegistryError>)
      requires Valid()
      modifies registry, pool, metrics
      ensures (State(), e) == M.UpdateSessionStatus(config, old(State()), id, status, now)
      ensures M.Inv(config, old(State())) ==> M.Inv(config, State())
    {
      if M.Inv(config, State()) { M.StatusKeepsInv(config, State(), id, status, now); }
      if id !in registry.sessions {
        return Some(R.NotFound(id));
      }
      var from := registry.sessions[id].status;
      e := registry.UpdateStatus(id, status, now);
      Repool(id, registry.sessions[id], now);
      if config.enableMetrics {
        metrics.RecordStatusChange(from, status);
      }
    }

    /** The pool's part of a status change. */
    method Repool(id: SessionId, m: SessionMetadata, now: Time)
      requires Valid()
      modifies pool
      ensures pool.State() == M.Repool(config, old(pool.State()), id, m, now)
    {
      match m.status {
        case Idle =>
          var _ := pool.AddSession(m, now);
        case Active =>
          var _ := pool.RemoveSession(id);
        case Failed =>
          var _ := pool.RemoveSession(id);
        case Closed =>
          var _ := pool.RemoveSession(id);
        case _ =>
      }
    }

    method UseSession(id: SessionId, now: Time) returns (e: Option<R.RegistryError>)
      requires Valid()
      modifies registry, pool, metrics
      ensures (State(), e) == M.UseSession(config, old(State()), id, now)
      ensures M.Inv(config, old(State())) ==> M.Inv(config, State())
    {
      if M.Inv(config, State()) { Runs.UseKeepsInv(config, State(), id, now); }
      e := registry.MarkUsed(id, now);
      if e.Some? {
        return;
      }
      if config.enableMetrics {
        metrics.RecordSessionUsage(id, registry.sessions[id].useCount);
      }
      if registry.sessions[id].status == Idle {
        e := UpdateSessionStatus(id, Active, now);
      }
    }

    method CloseSession(id: SessionId, now: Time) returns (e: Option<R.RegistryError>)
      requires Valid()
      modifies registry, pool, metrics
      ensures (State(), e) == M.CloseSession(config, old(State()), id, now)
      ensures M.Inv(config, old(State())) ==> M.Inv(config, State())
    {
      if M.Inv(config, State()) { Runs.CloseKeepsInv(config, State(), id, now); }
      e := UpdateSessionStatus(id, Closing, now);
      if e.Some? {
        return;
      }
      var _ := pool.RemoveSession(id);
      var removed := registry.Unregister(id);
      if removed.Some? && config.enableMetrics {
        metrics.RecordSessionClosed(removed.value, now);
      }
    }

    method ConnectOrCreateSession(m: SessionMetadata, now: Time)
      returns (r: Result<(SessionId, bool), R.RegistryError>)
      requires Valid()
      modifies registry, pool, metrics
      ensures (State(), r) == M.ConnectOrCreate(config, old(State()), m, now)
      ensures M.Inv(config, old(State())) && Runs.Proper(old(State()), Runs.Connect(m, now)) ==> M.Inv(config, State())
    {
      if M.Inv(config, State()) && Runs.Proper(State(), Runs.Connect(m, now)) {
        Runs.StepKeepsInv(config, State(), Runs.Connect(m, now));
      }
      var found := pool.FindSession(m.Key(), now);
      if found.Some? {
        var e := UseSession(found.value, now);
        return if e.Some? then Err(e.value) else Ok((found.value, true));
      }
      var created := CreateSession(m);
      r := if created.Err? then Err(created.error) else Ok((m.id, false));
    }

    /** One run of the cleanup callback; the two orders are those of the registry snapshot and of the pool's map. */
    method Cleanup(order: seq<SessionId>, poolOrder: seq<SessionId>, now: Time) returns (expired: seq<SessionId>)
      requires Valid()
      requires Elements(order) == registry.sessions.Keys
      modifies registry, pool, metrics
      ensures State() == M.Cleanup(config, old(State()), order, poolOrder, now)
      ensures M.Inv(config, old(State())) ==> M.Inv(config, State())
      ensures forall id :: id in expired <==>
                || (id in old(registry.sessions) && ShouldExpire(config.lifecycle, old(registry.sessions)[id], now))
                || id in P.Expired(M.ExpireAll(config, old(State()), old(registry.sessions), order, now).pool.meta,
                                   poolOrder, config.lifecycle.maxIdleTime, now)
    {
      if M.Inv(config, State()) { Runs.CleanupKeepsInv(config, State(), order, poolOrder, now); }
      expired := ExpireOverdue(order, now);
      var pooled := pool.CleanupExpired(poolOrder, config.lifecycle.maxIdleTime, now);
      expired := expired + pooled;
      if config.enableMetrics {
        metrics.CleanupOldHistory(X.MAX_HISTORY_AGE, now);
      }
    }

    method ExpireOne(id: SessionId, now: Time)
      requires Valid()
      modifies registry, pool, metrics
      ensures State() == M.Discard(config, old(State()), id, now)
    {
      var removed := registry.Unregister(id);
      if removed.Some? {
        var _ := pool.RemoveSession(id);
        if config.enableMetrics {
          metrics.RecordSessionClosed(removed.value, now);
        }
      }
    }

    /** The callback's loop over a snapshot of all sessions. */
    method ExpireOverdue(order: seq<SessionId>, now: Time) returns (expired: seq<SessionId>)
      requires Valid()
      requires Elements(order) == registry.sessions.Keys
      modifies registry, pool, metrics
      ensures State() == M.ExpireAll(config, old(State()), old(registry.sessions), order, now)
      ensures forall id :: id in expired <==>
                id in old(registry.sessions) && ShouldExpire(config.lifecycle, old(registry.sessions)[id], now)
    {
      expired := [];
      var all := registry.sessions;
      for i := 0 to |order|
        invariant M.ExpireAll(config, State(), all, order[i..], now)
               == M.ExpireAll(config, old(State()), all, order, now)
        invariant forall id :: id in expired <==>
                    id in order[..i] && id in all && ShouldExpire(config.lifecycle, all[id], now)
      {
        assert order[i..][1..] == order[i + 1..];
        var id := order[i];
        assert id in Elements(order);
        assert order[..i + 1] == order[..i] + [id];
        if ShouldExpire(config.lifecycle, all[id], now) {
          expired := expired + [id];
          ExpireOne(id, now);
        }
      }
      assert order[..|order|] == order;
      assert forall id :: id in all <==> id in Elements(order);
    }
  }
}
