/** The request handler as the source builds it: one object over a manager and the table of connected clients. */
module HandlerComponent {
  import opened Common
  import opened Session
  import opened ManagerComponent
  import M = Manager
  import H = Handler

  class RequestHandler {
    const manager: SessionManager
    var activeClients: set<SessionId>

    ghost predicate Valid() {
      manager.Valid()
    }

    ghost function State(): H.HandlerState
      reads this, manager.registry, manager.pool, manager.metrics
    {
      H.HandlerState(manager.State(), activeClients)
    }

    constructor (config: M.ManagerConfig)
      ensures Valid() && manager.config == config && State() == H.EMPTY
      ensures H.HandlerInv(config, State())
    {
      manager := new SessionManager(config);
      activeClients := {};
      new;
      H.Runs.EmptyIsInv(config);
    }

    method CreateSession(m: SessionMetadata, now: Time) returns (r: H.Response)
      requires Valid()
      modifies this, manager.registry, manager.pool, manager.metrics
      ensures (State(), r) == H.HandleCreate(manager.config, old(State()), m, now)
      ensures H.HandlerInv(manager.config, old(State())) && H.Proper(old(State()), H.Create(m, now)) ==>
                H.HandlerInv(manager.config, State())
    {
      H.CreateRequestKeepsInv(manager.config, State(), m, now);
      var found := manager.pool.FindSession(m.Key(), now);
      if found.Some? {
        var e := manager.UseSession(found.value, now);
        if e.None? {
          return H.SessionCreated(found.value, true);
        }
      }
      r := CreateAndConnect(m, now);
    }

    method CreateAndConnect(m: SessionMetadata, now: Time) returns (r: H.Response)
      requires Valid()
      modifies this, manager.registry, manager.pool, manager.metrics
      ensures (State(), r) == H.CreateAndConnect(manager.config, old(State()), m, now)
    {
      var created := manager.CreateSession(m);
      if created.Err? {
        return H.Failure(H.MaxSessionsReached);
      }
      var connected := ConnectClient(m.id, now);
      if !connected {
        var _ := manager.CloseSession(m.id, now);
        return H.Failure(H.ConnectionFailed);
      }
      r := H.SessionCreated(m.id, false);
    }

    method ConnectClient(id: SessionId, now: Time) returns (ok: bool)
      requires Valid()
      modifies this, manager.registry, manager.pool, manager.metrics
      ensures (State(), ok) == H.ConnectClient(manager.config, old(State()), id, now)
    {
      var e := manager.UpdateSessionStatus(id, Connecting, now);
      if e.Some? {
        return false;
      }
      activeClients := activeClients + {id};
      e := manager.UpdateSessionStatus(id, Active, now);
      ok := e.None?;
    }

    /** `order` is the order in which the registry lists its sessions. */
    method ConnectSession(m: SessionMetadata, order: seq<SessionId>, now: Time) returns (r: H.Response)
      requires Valid()
      requires Elements(order) == manager.registry.sessions.Keys
      modifies this, manager.registry, manager.pool, manager.metrics
      ensures (State(), r) == H.HandleConnect(manager.config, old(State()), m, order, now)
      ensures H.HandlerInv(manager.config, old(State())) && H.Proper(old(State()), H.Connect(m, order, now)) ==>
                H.HandlerInv(manager.config, State())
    {
      H.ConnectRequestKeepsInv(manager.config, State(), m, order, now);
      for i := 0 to |order|
        invariant unchanged(this, manager.registry, manager.pool, manager.metrics)
        invariant H.FirstActive(manager.registry.sessions, order[i..], m.name)
               == H.FirstActive(manager.registry.sessions, order, m.name)
      {
        assert order[i] in Elements(order);
        assert order[i..][1..] == order[i + 1..];
        var session := manager.registry.sessions[order[i]];
        if session.name == m.name && session.status == Active {
          var e := manager.UseSession(order[i], now);
          assert e.None?;
          return H.SessionCreated(order[i], true);
        }
      }
      r := CreateSession(m, now);
    }

    method DisconnectSession(id: SessionId, now: Time) returns (r: H.Response)
      requires Valid()
      modifies this, manager.registry, manager.pool, manager.metrics
      ensures (State(), r) == H.HandleDisconnect(manager.config, old(State()), id, now)
      ensures H.HandlerInv(manager.config, old(State())) ==> H.HandlerInv(manager.config, State())
    {
      if H.HandlerInv(manager.config, State()) {
        H.StepKeepsHandlerInv(manager.config, State(), H.Disconnect(id, now));
      }
      activeClients := activeClients - {id};
      var e := manager.UpdateSessionStatus(id, Idle, now);
      r := if e.None? then H.SessionDisconnected else H.Failure(H.SessionNotFound);
    }

    method ExecuteCommand(id: SessionId, now: Time) returns (r: H.Response)
      requires Valid()
      modifies manager.registry, manager.pool, manager.metrics
      ensures (State(), r) == H.HandleExecute(manager.config, old(State()), id, now)
      ensures H.HandlerInv(manager.config, old(State())) ==> H.HandlerInv(manager.config, State())
    {
      if H.HandlerInv(manager.config, State()) {
        H.StepKeepsHandlerInv(manager.config, State(), H.Execute(id, now));
      }
      if id !in activeClients {
        return H.Failure(H.SessionNotFound);
      }
      var _ := manager.UseSession(id, now);
      r := H.CommandSuccess;
    }
  }
}
