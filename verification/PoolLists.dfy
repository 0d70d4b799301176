/** When the pool lists of the daemon stay free of duplicates. */
module PoolLists {
  import opened Common
  import opened Session
  import opened IdIndex
  import opened Manager
  import H = Handler
  import P = Pool
  import R = Registry
  import Runs = ManagerRuns

  ghost predicate Distinct(s: ManagerState) {
    NoDuplicates(s.pool.pools)
  }

  lemma RemoveKeepsDistinct(p: P.PoolState, id: SessionId)
    requires NoDuplicates(p.pools)
    ensures NoDuplicates(P.RemoveSession(p, id).pools)
  {
  }

  lemma {:induction false} RemoveAllKeepsDistinct(p: P.PoolState, ids: seq<SessionId>)
    requires NoDuplicates(p.pools)
    ensures NoDuplicates(P.RemoveAll(p, ids).pools)
    decreases |ids|
  {
    if ids == [] {
    } else {
      RemoveKeepsDistinct(p, ids[0]);
      RemoveAllKeepsDistinct(P.RemoveSession(p, ids[0]), ids[1..]);
    }
  }

  /** Every status but Idle only removes from the pool. */
  lemma StatusKeepsDistinct(c: ManagerConfig, s: ManagerState, id: SessionId, status: SessionStatus, now: Time)
    requires Distinct(s) && status != Idle
    ensures Distinct(UpdateSessionStatus(c, s, id, status, now).0)
  {
    RemoveKeepsDistinct(s.pool, id);
  }

  lemma UseKeepsDistinct(c: ManagerConfig, s: ManagerState, id: SessionId, now: Time)
    requires Distinct(s)
    ensures Distinct(UseSession(c, s, id, now).0)
  {
    if id in s.reg.sessions {
      StatusKeepsDistinct(c, Touch(c, s, id, now), id, Active, now);
    }
  }

  lemma CreateKeepsDistinct(c: ManagerConfig, h: H.HandlerState, m: SessionMetadata, now: Time)
    requires Distinct(h.mgr) && m.id !in h.mgr.reg.sessions
    ensures Distinct(H.CreateAndConnect(c, h, m, now).0.mgr)
  {
    var (mgr, r) := CreateSession(c, h.mgr, m);
    H.CreateEffect(c, h.mgr, m);
    if r.Ok? {
      var connecting := UpdateSessionStatus(c, mgr, m.id, Connecting, now).0;
      H.ConnectClientSucceeds(c, h.(mgr := mgr), m.id, now);
      StatusKeepsDistinct(c, mgr, m.id, Connecting, now);
      StatusKeepsDistinct(c, connecting, m.id, Active, now);
    }
  }

  lemma {:induction false} ExpireKeepsDistinct(c: ManagerConfig, s: ManagerState, snapshot: R.Sessions,
                                               order: seq<SessionId>, now: Time)
    requires Distinct(s)
    ensures Distinct(ExpireAll(c, s, snapshot, order, now))
    decreases |order|
  {
    if order == [] {
    } else {
      RemoveKeepsDistinct(s.pool, order[0]);
      if order[0] in snapshot && ShouldExpire(c.lifecycle, snapshot[order[0]], now) {
        ExpireKeepsDistinct(c, Discard(c, s, order[0], now), snapshot, order[1..], now);
      } else {
        ExpireKeepsDistinct(c, s, snapshot, order[1..], now);
      }
    }
  }

  lemma TickKeepsDistinct(c: ManagerConfig, s: ManagerState, order: seq<SessionId>, poolOrder: seq<SessionId>,
                          now: Time)
    requires Distinct(s)
    ensures Distinct(Cleanup(c, s, order, poolOrder, now))
  {
    ExpireKeepsDistinct(c, s, s.reg.sessions, order, now);
    var p := ExpireAll(c, s, s.reg.sessions, order, now).pool;
    RemoveAllKeepsDistinct(p, P.Expired(p.meta, poolOrder, c.lifecycle.maxIdleTime, now));
  }

  // ----- Repeated disconnects -----

  /** The request disconnects a session that is already pooled, and the pool has room for it. */
  ghost predicate Repeats(c: ManagerConfig, s: ManagerState, q: H.Request) {
    && q.Disconnect? && q.id in s.reg.sessions && q.id in s.pool.meta
    && c.pool.enabled && P.HasRoom(c.pool, s.pool, s.reg.sessions[q.id].Key())
  }

  lemma DisconnectKeepsDistinctIff(c: ManagerConfig, h: H.HandlerState, id: SessionId, now: Time)
    requires Inv(c, h.mgr) && Distinct(h.mgr)
    ensures Distinct(H.HandleDisconnect(c, h, id, now).0.mgr) <==> !Repeats(c, h.mgr, H.Disconnect(id, now))
  {
    if id in h.mgr.reg.sessions {
      var m := h.mgr.reg.sessions[id].SetStatus(Idle, now);
      P.AddKeepsDistinctIff(c.pool, h.mgr.pool, m, now);
    }
  }

  lemma RequestKeepsDistinct(c: ManagerConfig, h: H.HandlerState, q: H.Request)
    requires Inv(c, h.mgr) && Distinct(h.mgr) && H.Proper(h, q) && !q.Disconnect?
    ensures Distinct(H.Handle(c, h, q).0.mgr)
  {
    match q
    case Create(m, now) => CreateRequestKeepsDistinct(c, h, m, now);
    case Connect(m, order, now) =>
      var found := H.FirstActive(h.mgr.reg.sessions, order, m.name);
      if found.Some? {
        UseKeepsDistinct(c, h.mgr, found.value, now);
      } else {
        CreateRequestKeepsDistinct(c, h, m, now);
      }
    case Execute(id, now) => UseKeepsDistinct(c, h.mgr, id, now);
    case Tick(order, poolOrder, now) => TickKeepsDistinct(c, h.mgr, order, poolOrder, now);
  }

  lemma CreateRequestKeepsDistinct(c: ManagerConfig, h: H.HandlerState, m: SessionMetadata, now: Time)
    requires Inv(c, h.mgr) && Distinct(h.mgr) && m.id !in h.mgr.reg.sessions
    ensures Distinct(H.HandleCreate(c, h, m, now).0.mgr)
  {
    var found := FindReusable(c, h.mgr, m.Key(), now);
    if found.Some? {
      H.FoundIsPooled(c, h.mgr, m.Key(), now);
      UseKeepsDistinct(c, h.mgr, found.value, now);
    } else {
      CreateKeepsDistinct(c, h, m, now);
    }
  }

  /** The lists are free of duplicates in every state of a run. */
  ghost predicate AlwaysDistinct(c: ManagerConfig, h: H.HandlerState, qs: seq<H.Request>)
    decreases |qs|
  {
    Distinct(h.mgr) && (qs == [] || AlwaysDistinct(c, H.Handle(c, h, qs[0]).0, qs[1..]))
  }

  ghost predicate NeverRepeats(c: ManagerConfig, h: H.HandlerState, qs: seq<H.Request>)
    decreases |qs|
  {
    qs == [] || (!Repeats(c, h.mgr, qs[0]) && NeverRepeats(c, H.Handle(c, h, qs[0]).0, qs[1..]))
  }

  lemma {:induction false} RunStaysDistinctIff(c: ManagerConfig, h: H.HandlerState, qs: seq<H.Request>)
    requires H.HandlerInv(c, h) && H.ProperRun(c, h, qs) && Distinct(h.mgr)
    ensures AlwaysDistinct(c, h, qs) <==> NeverRepeats(c, h, qs)
    decreases |qs|
  {
    if qs == [] {
    } else {
      var next := H.Handle(c, h, qs[0]).0;
      H.StepKeepsHandlerInv(c, h, qs[0]);
      if qs[0].Disconnect? {
        DisconnectKeepsDistinctIff(c, h, qs[0].id, qs[0].now);
      } else {
        RequestKeepsDistinct(c, h, qs[0]);
      }
      if Distinct(next.mgr) {
        RunStaysDistinctIff(c, next, qs[1..]);
      } else {
        assert !AlwaysDistinct(c, next, qs[1..]);
      }
    }
  }

  /** Main result: in a run of requests and ticks the pool lists stay free of duplicates exactly if no disconnect that
      the pool accepts meets a session that is already pooled. */
  lemma PoolStaysDistinctIff(c: ManagerConfig, qs: seq<H.Request>)
    requires H.ProperRun(c, H.EMPTY, qs)
    ensures AlwaysDistinct(c, H.EMPTY, qs) <==> NeverRepeats(c, H.EMPTY, qs)
  {
    Runs.EmptyIsInv(c);
    RunStaysDistinctIff(c, H.EMPTY, qs);
  }
}
