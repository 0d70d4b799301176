/** What the clock decides, in explicit times: how long a disconnected session stays registered and pooled, and from
    when on it serves another request (crates/core/src/session/lifecycle.rs, pool.rs). */
module ClockRules {
  import opened Common
  import opened Session
  import opened Manager
  import opened Handler
  import IdIndex
  import P = Pool

  // ----- How long a session stays registered -----

  /** What a disconnect stores: the status, and the time as that of the last use. */
  lemma DisconnectStamps(c: ManagerConfig, h: HandlerState, id: SessionId, t: Time)
    requires id in h.mgr.reg.sessions
    ensures var before, after := h.mgr.reg.sessions, HandleDisconnect(c, h, id, t).0.mgr.reg.sessions;
            && after.Keys == before.Keys
            && after[id] == before[id].(status := Idle, lastUsed := t)
            && forall x :: x in before && x != id ==> after[x] == before[x]
  {
  }

  lemma TickIsCleanup(c: ManagerConfig, h: HandlerState, order: seq<SessionId>, poolOrder: seq<SessionId>, now: Time)
    ensures Handle(c, h, Tick(order, poolOrder, now)).0.mgr == Cleanup(c, h.mgr, order, poolOrder, now)
  {
  }

  lemma TickKeepsIff(c: ManagerConfig, h: HandlerState, id: SessionId,
                     order: seq<SessionId>, poolOrder: seq<SessionId>, now: Time)
    requires Inv(c, h.mgr) && id in h.mgr.reg.sessions && Enumerates(order, h.mgr.reg.sessions.Keys)
    ensures id in Handle(c, h, Tick(order, poolOrder, now)).0.mgr.reg.sessions <==>
            !ShouldExpire(c.lifecycle, h.mgr.reg.sessions[id], now)
  {
    TickIsCleanup(c, h, order, poolOrder, now);
    TickForgetsIff(c, h.mgr, order, poolOrder, now, id);
  }

  lemma IdleIsDueIff(c: LifecycleConfig, m: SessionMetadata, now: Time)
    requires m.status == Idle
    ensures ShouldExpire(c, m, now) <==> now > m.lastUsed + c.maxIdleTime || now > m.createdAt + c.maxSessionLifetime
  {
  }

  lemma ActiveIsDueIff(c: LifecycleConfig, m: SessionMetadata, now: Time)
    requires m.status == Active
    ensures ShouldExpire(c, m, now) <==> now > m.createdAt + c.maxSessionLifetime
  {
  }

  lemma DisconnectKeepsManagerInv(c: ManagerConfig, h: HandlerState, id: SessionId, t: Time)
    requires HandlerInv(c, h)
    ensures Inv(c, HandleDisconnect(c, h, id, t).0.mgr)
  {
    StatusKeepsInv(c, h.mgr, id, Idle, t);
  }

  /** Main result: a session disconnected at `t` survives a cleanup tick exactly if the tick comes at most the maximum
      idle time after `t` and at most the maximum lifetime after its creation; a tick whose clock is behind either of
      the two takes nothing. */
  lemma DisconnectedStaysIff(c: ManagerConfig, h: HandlerState, id: SessionId, t: Time,
                             order: seq<SessionId>, poolOrder: seq<SessionId>, later: Time)
    requires HandlerInv(c, h) && id in h.mgr.reg.sessions
    requires Enumerates(order, h.mgr.reg.sessions.Keys)
    ensures var h' := HandleDisconnect(c, h, id, t).0;
            id in Handle(c, h', Tick(order, poolOrder, later)).0.mgr.reg.sessions <==>
            && later <= t + c.lifecycle.maxIdleTime
            && later <= h.mgr.reg.sessions[id].createdAt + c.lifecycle.maxSessionLifetime
  {
    var h' := HandleDisconnect(c, h, id, t).0;
    DisconnectKeepsManagerInv(c, h, id, t);
    DisconnectStamps(c, h, id, t);
    TickKeepsIff(c, h', id, order, poolOrder, later);
    IdleIsDueIff(c.lifecycle, h'.mgr.reg.sessions[id], later);
  }

  /** A connected session stays until it is older than the maximum lifetime, however long it is not used. */
  lemma ConnectedStaysIff(c: ManagerConfig, h: HandlerState, id: SessionId,
                          order: seq<SessionId>, poolOrder: seq<SessionId>, now: Time)
    requires HandlerInv(c, h) && id in h.mgr.reg.sessions && id in h.clients
    requires Enumerates(order, h.mgr.reg.sessions.Keys)
    ensures id in Handle(c, h, Tick(order, poolOrder, now)).0.mgr.reg.sessions <==>
            now <= h.mgr.reg.sessions[id].createdAt + c.lifecycle.maxSessionLifetime
  {
    TickKeepsIff(c, h, id, order, poolOrder, now);
    ActiveIsDueIff(c.lifecycle, h.mgr.reg.sessions[id], now);
  }

  // ----- How long it stays pooled -----

  /** A disconnect files the session under its key, at this moment, with the session's own priority and use count. */
  lemma DisconnectFiles(c: ManagerConfig, h: HandlerState, id: SessionId, now: Time)
    requires Inv(c, h.mgr) && id in h.mgr.reg.sessions
    requires c.pool.enabled && P.HasRoom(c.pool, h.mgr.pool, h.mgr.reg.sessions[id].Key())
    ensures var m := h.mgr.reg.sessions[id];
            var before, after := h.mgr.pool, HandleDisconnect(c, h, id, now).0.mgr.pool;
            && after.meta == before.meta[id := P.Pooled(m.Key(), now, m.priority, m.useCount)]
            && IdIndex.Ids(after.pools, m.Key()) == IdIndex.Ids(before.pools, m.Key()) + [id]
            && forall k :: k != m.Key() ==> IdIndex.Ids(after.pools, k) == IdIndex.Ids(before.pools, k)
  {
  }

  lemma EntryStaysIff(p: P.PoolState, id: SessionId, order: seq<SessionId>, maxIdleTime: nat, now: Time)
    requires P.Mirror(p) && Enumerates(order, p.meta.Keys) && id in p.meta
    ensures id in P.CleanupExpired(p, order, maxIdleTime, now).meta <==> now <= p.meta[id].pooledAt + maxIdleTime
  {
    P.CleanupIsExact(p, order, maxIdleTime, now);
  }

  /** A pool cleanup drops the session exactly if it comes more than the given time after the disconnect. */
  lemma PooledStaysIff(c: ManagerConfig, h: HandlerState, id: SessionId, now: Time,
                       order: seq<SessionId>, maxIdleTime: nat, later: Time)
    requires HandlerInv(c, h) && id in h.mgr.reg.sessions
    requires c.pool.enabled && P.HasRoom(c.pool, h.mgr.pool, h.mgr.reg.sessions[id].Key())
    requires Enumerates(order, h.mgr.pool.meta.Keys + {id})
    ensures var p := HandleDisconnect(c, h, id, now).0.mgr.pool;
            id in P.CleanupExpired(p, order, maxIdleTime, later).meta <==> later <= now + maxIdleTime
  {
    DisconnectKeepsManagerInv(c, h, id, now);
    DisconnectFiles(c, h, id, now);
    EntryStaysIff(HandleDisconnect(c, h, id, now).0.mgr.pool, id, order, maxIdleTime, later);
  }

  // ----- From when on it is reused -----

  /** An entry alone under its key is found exactly if it has been pooled for the minimum idle time; a clock that has
      gone back counts as no time. */
  lemma LoneEntryFoundIff(c: P.PoolConfig, p: P.PoolState, id: SessionId, key: string, now: Time)
    requires c.enabled && c.preferReuse && IdIndex.Ids(p.pools, key) == [id] && id in p.meta
    ensures P.FindSession(c, p, key, now)
         == if now >= p.meta[id].pooledAt + c.minIdleTime * SECOND || c.minIdleTime == 0 then Some(id) else None
  {
    var waited := now >= p.meta[id].pooledAt + c.minIdleTime * SECOND || c.minIdleTime == 0;
    assert id in IdIndex.Ids(p.pools, key);
    assert P.Eligible(c, p, id, now) <==> waited;
    P.FindSessionComplete(c, p, key, now);
    if waited {
      EligibleIsFound(c, p, id, key, now);
    }
  }

  /** Main result: a session disconnected at `now` while the pool has room, and alone under its key, serves a create
      request for this key exactly from the minimum idle time after `now` on; before, a new session is registered. */
  lemma DisconnectedServesIff(c: ManagerConfig, h: HandlerState, id: SessionId, now: Time, m: SessionMetadata,
                              later: Time)
    requires HandlerInv(c, h) && id in h.mgr.reg.sessions && m.Key() == h.mgr.reg.sessions[id].Key()
    requires c.pool.enabled && c.pool.preferReuse && P.HasRoom(c.pool, h.mgr.pool, m.Key())
    requires m.Key() !in h.mgr.pool.pools && Proper(h, Create(m, later))
    ensures var h' := HandleDisconnect(c, h, id, now).0;
            HandleCreate(c, h', m, later).1 == SessionCreated(id, true) <==>
            later >= now + c.pool.minIdleTime * SECOND || c.pool.minIdleTime == 0
  {
    var h' := HandleDisconnect(c, h, id, now).0;
    DisconnectKeepsInv(c, h, id, now);
    DisconnectListsAlone(c, h, id, now);
    LoneEntryFoundIff(c.pool, h'.mgr.pool, id, m.Key(), later);
    ServedIffFound(c, h', m, later, id);
  }

  lemma DisconnectListsAlone(c: ManagerConfig, h: HandlerState, id: SessionId, now: Time)
    requires Inv(c, h.mgr) && id in h.mgr.reg.sessions
    requires c.pool.enabled && P.HasRoom(c.pool, h.mgr.pool, h.mgr.reg.sessions[id].Key())
    requires h.mgr.reg.sessions[id].Key() !in h.mgr.pool.pools
    ensures var mgr := HandleDisconnect(c, h, id, now).0.mgr;
            && IdIndex.Ids(mgr.pool.pools, h.mgr.reg.sessions[id].Key()) == [id]
            && id in mgr.pool.meta && mgr.pool.meta[id].pooledAt == now
            && mgr.reg.sessions.Keys == h.mgr.reg.sessions.Keys
  {
    DisconnectFiles(c, h, id, now);
    DisconnectStamps(c, h, id, now);
  }

  lemma ServedIffFound(c: ManagerConfig, h: HandlerState, m: SessionMetadata, now: Time, id: SessionId)
    requires HandlerInv(c, h) && m.id !in h.mgr.reg.sessions
    ensures HandleCreate(c, h, m, now).1 == SessionCreated(id, true) <==>
            FindReusable(c, h.mgr, m.Key(), now) == Some(id)
  {
    if FindReusable(c, h.mgr, m.Key(), now).Some? {
      FoundIsServed(c, h, m, now);
    } else {
      CreateAndConnectEffect(c, h, m, now);
    }
  }

  // ----- Failed sessions and old history -----

  /** A failed session is worth reconnecting, if that is enabled, while neither its lifetime nor its idle time is over.
      */
  lemma ReconnectIff(c: LifecycleConfig, m: SessionMetadata, now: Time)
    ensures ShouldReconnect(c, m, now) <==>
            && c.enableAutoReconnect && m.status == Failed
            && now <= m.createdAt + c.maxSessionLifetime && now <= m.lastUsed + c.maxIdleTime
  {
  }

  /** A cleanup tick forgets a closed session exactly if it was closed more than a day ago, and no open one. */
  lemma HistoryKeptIff(c: ManagerConfig, s: ManagerState, order: seq<SessionId>, poolOrder: seq<SessionId>, now: Time,
                       id: SessionId)
    requires c.enableMetrics
    ensures var before := ExpireAll(c, s, s.reg.sessions, order, now).metrics.history;
            id in Cleanup(c, s, order, poolOrder, now).metrics.history <==>
            && id in before
            && (before[id].closedAt.None? || now <= before[id].closedAt.value + 24 * 3600 * SECOND)
  {
  }
}
