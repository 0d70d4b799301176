/** The daemon's request handler: session requests over a manager and a table of connected clients
    (crates/client/src/daemon/handler.rs). */
module Handler {
  import opened Common
  import opened Transport
  import opened Session
  import opened Manager
  import R = Registry
  import IdIndex
  import P = Pool
  import Runs = ManagerRuns

  /** `clients` is the key set of `active_clients`; the stored client objects are placeholders. */
  datatype HandlerState = HandlerState(mgr: ManagerState, clients: set<SessionId>)

  const EMPTY := HandlerState(Manager.EMPTY, {})

  datatype ErrorCode = SessionNotFound | ConnectionFailed | MaxSessionsReached

  datatype Response =
    | SessionCreated(id: SessionId, reused: bool)
    | SessionDisconnected
    | CommandSuccess
    | Failure(code: ErrorCode)

  // ----- Requests -----

  function ConnectClient(c: ManagerConfig, h: HandlerState, id: SessionId, now: Time): (HandlerState, bool) {
    var (m1, e1) := UpdateSessionStatus(c, h.mgr, id, Connecting, now);
    if e1.Some? then (h.(mgr := m1), false) else
      var (m2, e2) := UpdateSessionStatus(c, m1, id, Active, now);
      (HandlerState(m2, h.clients + {id}), e2.None?)
  }

  function CreateAndConnect(c: ManagerConfig, h: HandlerState, m: SessionMetadata, now: Time)
    : (HandlerState, Response)
  {
    var (mgr, r) := CreateSession(c, h.mgr, m);
    if r.Err? then (h.(mgr := mgr), Failure(MaxSessionsReached)) else
      var (connected, ok) := ConnectClient(c, h.(mgr := mgr), m.id, now);
      if ok then (connected, SessionCreated(m.id, false))
      else (connected.(mgr := CloseSession(c, connected.mgr, m.id, now).0), Failure(ConnectionFailed))
  }

  /** `m` is the metadata a new session would be registered with. */
  function HandleCreate(c: ManagerConfig, h: HandlerState, m: SessionMetadata, now: Time): (HandlerState, Response) {
    match FindReusable(c, h.mgr, m.Key(), now)
    case Some(id) =>
      var (used, e) := UseSession(c, h.mgr, id, now);
      if e.None? then (h.(mgr := used), SessionCreated(id, true))
      else CreateAndConnect(c, h.(mgr := used), m, now)
    case None => CreateAndConnect(c, h, m, now)
  }

  /** The first session in the listing that is Active and has the requested name. */
  function FirstActive(sessions: R.Sessions, order: seq<SessionId>, name: string): (found: Option<SessionId>)
    ensures found.Some? ==> found.value in order && found.value in sessions
                            && sessions[found.value].name == name && sessions[found.value].status == Active
    ensures found.None? ==> forall id :: id in order && id in sessions ==>
                                           sessions[id].name != name || sessions[id].status != Active
  {
    if order == [] then None
    else if order[0] in sessions && sessions[order[0]].name == name && sessions[order[0]].status == Active
    then Some(order[0])
    else FirstActive(sessions, order[1..], name)
  }

  function HandleConnect(c: ManagerConfig, h: HandlerState, m: SessionMetadata, order: seq<SessionId>, now: Time)
    : (HandlerState, Response)
  {
    match FirstActive(h.mgr.reg.sessions, order, m.name)
    case Some(id) => (h.(mgr := UseSession(c, h.mgr, id, now).0), SessionCreated(id, true))
    case None => HandleCreate(c, h, m, now)
  }

  function HandleDisconnect(c: ManagerConfig, h: HandlerState, id: SessionId, now: Time): (HandlerState, Response) {
    var (mgr, e) := UpdateSessionStatus(c, h.mgr, id, Idle, now);
    (HandlerState(mgr, h.clients - {id}), if e.None? then SessionDisconnected else Failure(SessionNotFound))
  }

  /** A failing `use_session` is only logged; the placeholder command then succeeds. */
  function HandleExecute(c: ManagerConfig, h: HandlerState, id: SessionId, now: Time): (HandlerState, Response) {
    if id !in h.clients then (h, Failure(SessionNotFound))
    else (h.(mgr := UseSession(c, h.mgr, id, now).0), CommandSuccess)
  }

  // ----- Runs of requests and cleanup ticks -----

  datatype Request =
    | Create(m: SessionMetadata, now: Time)
    | Connect(m: SessionMetadata, order: seq<SessionId>, now: Time)
    | Disconnect(id: SessionId, now: Time)
    | Execute(id: SessionId, now: Time)
    | Tick(order: seq<SessionId>, poolOrder: seq<SessionId>, now: Time)

  function Handle(c: ManagerConfig, h: HandlerState, q: Request): (HandlerState, Response) {
    match q
    case Create(m, now) => HandleCreate(c, h, m, now)
    case Connect(m, order, now) => HandleConnect(c, h, m, order, now)
    case Disconnect(id, now) => HandleDisconnect(c, h, id, now)
    case Execute(id, now) => HandleExecute(c, h, id, now)
    case Tick(order, poolOrder, now) => (h.(mgr := Cleanup(c, h.mgr, order, poolOrder, now)), CommandSuccess)
  }

  function Run(c: ManagerConfig, h: HandlerState, qs: seq<Request>): HandlerState
    decreases |qs|
  {
    if qs == [] then h else Run(c, Handle(c, h, qs[0]).0, qs[1..])
  }

  predicate MayCreate(q: Request) {
    q.Create? || q.Connect?
  }

  /** New sessions are unused metadata under an id unknown to the registry, the history and the client table. */
  ghost predicate Proper(h: HandlerState, q: Request) {
    MayCreate(q) ==> Fresh(h.mgr, q.m.id) && q.m.id !in h.clients && q.m.status == Creating && q.m.useCount == 0
  }

  ghost predicate ProperRun(c: ManagerConfig, h: HandlerState, qs: seq<Request>)
    decreases |qs|
  {
    qs == [] || (Proper(h, qs[0]) && ProperRun(c, Handle(c, h, qs[0]).0, qs[1..]))
  }

  /** In every state a new session can be asked for: some id is unused. */
  lemma SomeIdIsNew(h: HandlerState, m: SessionMetadata, now: Time) returns (id: SessionId)
    requires m.status == Creating && m.useCount == 0
    ensures Proper(h, Create(m.(id := id), now))
  {
    id := Above(h.mgr.reg.sessions.Keys + h.mgr.metrics.history.Keys + h.clients);
  }

  // ----- The invariant -----

  /** Between requests every session is Active or Idle. */
  ghost predicate Settled(sessions: R.Sessions) {
    forall id :: id in sessions ==> sessions[id].status == Active || sessions[id].status == Idle
  }

  /** A connected client whose session is still registered has an Active session. */
  ghost predicate ClientsActive(h: HandlerState) {
    forall id :: id in h.clients && id in h.mgr.reg.sessions ==> h.mgr.reg.sessions[id].status == Active
  }

  ghost predicate HandlerInv(c: ManagerConfig, h: HandlerState) {
    Inv(c, h.mgr) && Settled(h.mgr.reg.sessions) && ClientsActive(h)
  }

  /** What a use does to the registry: the session is Active afterwards if it was Active or Idle. */
  lemma UseActivates(c: ManagerConfig, s: ManagerState, id: SessionId, now: Time)
    requires id in s.reg.sessions
    ensures var (s', e) := UseSession(c, s, id, now);
            && e.None?
            && s'.reg.sessions.Keys == s.reg.sessions.Keys
            && (forall x :: x in s.reg.sessions && x != id ==> s'.reg.sessions[x] == s.reg.sessions[x])
            && s'.reg.sessions[id].transport == s.reg.sessions[id].transport
            && s'.reg.sessions[id].status
               == (if s.reg.sessions[id].status == Idle then Active else s.reg.sessions[id].status)
            && s'.pool.meta.Keys
               == (if s.reg.sessions[id].status == Idle then s.pool.meta.Keys - {id} else s.pool.meta.Keys)
  {
  }

  lemma UseSettles(before: R.Sessions, after: R.Sessions, clients: set<SessionId>, id: SessionId)
    requires Settled(before) && (forall x :: x in clients && x in before ==> before[x].status == Active)
    requires id in before && after.Keys == before.Keys
    requires forall x :: x in before && x != id ==> after[x] == before[x]
    requires after[id].status == if before[id].status == Idle then Active else before[id].status
    ensures Settled(after) && (forall x :: x in clients && x in after ==> after[x].status == Active)
  {
  }

  lemma UseKeepsHandlerInv(c: ManagerConfig, h: HandlerState, id: SessionId, now: Time)
    requires HandlerInv(c, h)
    ensures HandlerInv(c, h.(mgr := UseSession(c, h.mgr, id, now).0))
  {
    Runs.UseKeepsInv(c, h.mgr, id, now);
    if id in h.mgr.reg.sessions {
      UseActivates(c, h.mgr, id, now);
      UseSettles(h.mgr.reg.sessions, UseSession(c, h.mgr, id, now).0.reg.sessions, h.clients, id);
    }
  }

  /** `s'` differs from `s` at most in session `id`, which now has the given status. */
  ghost predicate OnlyStatusOf(s: ManagerState, s': ManagerState, id: SessionId, status: SessionStatus) {
    && id in s'.reg.sessions
    && s'.reg.sessions[id].status == status
    && s'.reg.sessions.Keys == s.reg.sessions.Keys
    && (forall x :: x in s.reg.sessions && x != id ==> s'.reg.sessions[x] == s.reg.sessions[x])
  }

  lemma StatusEffect(c: ManagerConfig, s: ManagerState, id: SessionId, status: SessionStatus, now: Time)
    requires id in s.reg.sessions
    ensures var (s', e) := UpdateSessionStatus(c, s, id, status, now);
            && e.None?
            && OnlyStatusOf(s, s', id, status)
            && (status == Active ==> s'.pool.meta == s.pool.meta - {id})
            && (status == Connecting ==> s'.pool == s.pool)
  {
  }

  /** Connecting a registered session never fails, so the branch that closes it again is not taken. */
  lemma ConnectClientSucceeds(c: ManagerConfig, h: HandlerState, id: SessionId, now: Time)
    requires id in h.mgr.reg.sessions
    ensures var (h', ok) := ConnectClient(c, h, id, now);
            && ok
            && h'.clients == h.clients + {id}
            && OnlyStatusOf(h.mgr, h'.mgr, id, Active)
            && h'.mgr.pool.meta == h.mgr.pool.meta - {id}
  {
    StatusEffect(c, h.mgr, id, Connecting, now);
    StatusEffect(c, UpdateSessionStatus(c, h.mgr, id, Connecting, now).0, id, Active, now);
  }

  lemma ConnectClientKeepsInv(c: ManagerConfig, h: HandlerState, id: SessionId, now: Time)
    requires Inv(c, h.mgr)
    ensures Inv(c, ConnectClient(c, h, id, now).0.mgr)
  {
    StatusKeepsInv(c, h.mgr, id, Connecting, now);
    StatusKeepsInv(c, UpdateSessionStatus(c, h.mgr, id, Connecting, now).0, id, Active, now);
  }

  /** `after` is `before` with one more session, which is Active. */
  ghost predicate OneMoreActive(before: R.Sessions, after: R.Sessions, id: SessionId) {
    && after.Keys == before.Keys + {id}
    && after[id].status == Active
    && forall x :: x in before && x != id ==> after[x] == before[x]
  }

  lemma CreateEffect(c: ManagerConfig, s: ManagerState, m: SessionMetadata)
    ensures var (s', r) := CreateSession(c, s, m);
            if R.Admission(c.registry, s.reg, m.name).Some? then s' == s && r.Err?
            else r == Ok(m.id) && s'.reg.sessions == s.reg.sessions[m.id := R.Admitted(m)] && s'.pool == s.pool
  {
  }

  lemma NewIsActive(s: ManagerState, created: ManagerState, connected: ManagerState, m: SessionMetadata)
    requires created.reg.sessions == s.reg.sessions[m.id := R.Admitted(m)]
    requires OnlyStatusOf(created, connected, m.id, Active)
    ensures OneMoreActive(s.reg.sessions, connected.reg.sessions, m.id)
  {
  }

  /** A new session is connected at once: it is Active and has a client, and the other sessions are untouched. */
  lemma CreateAndConnectEffect(c: ManagerConfig, h: HandlerState, m: SessionMetadata, now: Time)
    requires m.id !in h.mgr.reg.sessions
    ensures var (h', r) := CreateAndConnect(c, h, m, now);
            if R.Admission(c.registry, h.mgr.reg, m.name).Some? then h' == h && r == Failure(MaxSessionsReached)
            else
              && r == SessionCreated(m.id, false)
              && h'.clients == h.clients + {m.id}
              && OneMoreActive(h.mgr.reg.sessions, h'.mgr.reg.sessions, m.id)
              && h'.mgr.pool.meta == h.mgr.pool.meta - {m.id}
  {
    CreateEffect(c, h.mgr, m);
    var (mgr, r) := CreateSession(c, h.mgr, m);
    if r.Ok? {
      ConnectClientSucceeds(c, h.(mgr := mgr), m.id, now);
      NewIsActive(h.mgr, mgr, ConnectClient(c, h.(mgr := mgr), m.id, now).0.mgr, m);
    }
  }

  lemma OneMoreActiveSettles(h: HandlerState, h': HandlerState, id: SessionId)
    requires Settled(h.mgr.reg.sessions) && ClientsActive(h)
    requires OneMoreActive(h.mgr.reg.sessions, h'.mgr.reg.sessions, id)
    requires h'.clients == h.clients + {id}
    ensures Settled(h'.mgr.reg.sessions) && ClientsActive(h')
  {
  }

  lemma CreateAndConnectKeepsInv(c: ManagerConfig, h: HandlerState, m: SessionMetadata, now: Time)
    requires Inv(c, h.mgr) && m.id !in h.mgr.reg.sessions && m.status == Creating && m.useCount == 0
    ensures Inv(c, CreateAndConnect(c, h, m, now).0.mgr)
  {
    CreateKeepsInv(c, h.mgr, m);
    var (mgr, r) := CreateSession(c, h.mgr, m);
    if r.Ok? {
      ConnectClientSucceeds(c, h.(mgr := mgr), m.id, now);
      ConnectClientKeepsInv(c, h.(mgr := mgr), m.id, now);
    }
  }

  lemma CreateAndConnectSettles(c: ManagerConfig, h: HandlerState, m: SessionMetadata, now: Time)
    requires Settled(h.mgr.reg.sessions) && ClientsActive(h) && m.id !in h.mgr.reg.sessions
    ensures Settled(CreateAndConnect(c, h, m, now).0.mgr.reg.sessions)
    ensures ClientsActive(CreateAndConnect(c, h, m, now).0)
  {
    CreateAndConnectEffect(c, h, m, now);
    if R.Admission(c.registry, h.mgr.reg, m.name).None? {
      OneMoreActiveSettles(h, CreateAndConnect(c, h, m, now).0, m.id);
    }
  }

  lemma StepKeepsHandlerInv(c: ManagerConfig, h: HandlerState, q: Request)
    requires HandlerInv(c, h) && Proper(h, q)
    ensures HandlerInv(c, Handle(c, h, q).0)
  {
    match q
    case Create(m, now) => HandleCreateKeepsInv(c, h, m, now);
    case Connect(m, order, now) =>
      var found := FirstActive(h.mgr.reg.sessions, order, m.name);
      if found.Some? { UseKeepsHandlerInv(c, h, found.value, now); } else { HandleCreateKeepsInv(c, h, m, now); }
    case Disconnect(id, now) => DisconnectKeepsInv(c, h, id, now);
    case Execute(id, now) => UseKeepsHandlerInv(c, h, id, now);
    case Tick(order, poolOrder, now) => TickKeepsInv(c, h, order, poolOrder, now);
  }

  lemma HandleCreateKeepsInv(c: ManagerConfig, h: HandlerState, m: SessionMetadata, now: Time)
    requires HandlerInv(c, h) && Proper(h, Create(m, now))
    ensures HandlerInv(c, HandleCreate(c, h, m, now).0)
  {
    var found := FindReusable(c, h.mgr, m.Key(), now);
    if found.Some? {
      FoundIsPooled(c, h.mgr, m.Key(), now);
      UseKeepsHandlerInv(c, h, found.value, now);
    } else {
      CreateAndConnectKeepsInv(c, h, m, now);
      CreateAndConnectSettles(c, h, m, now);
    }
  }

  /** What the pool hands out is pooled under the requested key, hence registered under it. */
  lemma FoundIsPooled(c: ManagerConfig, s: ManagerState, key: string, now: Time)
    requires Inv(c, s) && FindReusable(c, s, key, now).Some?
    ensures var id := FindReusable(c, s, key, now).value;
            id in s.pool.meta && id in s.reg.sessions && s.reg.sessions[id].Key() == key && s.reg.sessions[id].id == id
  {
    var id := FindReusable(c, s, key, now).value;
    assert id in P.Owners(s.pool.meta) && P.Owners(s.pool.meta)[id] == key;
  }

  lemma DisconnectSettles(h: HandlerState, h': HandlerState, id: SessionId)
    requires Settled(h.mgr.reg.sessions) && ClientsActive(h)
    requires h'.clients == h.clients - {id}
    requires if id in h.mgr.reg.sessions then OnlyStatusOf(h.mgr, h'.mgr, id, Idle) else h'.mgr == h.mgr
    ensures Settled(h'.mgr.reg.sessions) && ClientsActive(h')
  {
  }

  lemma DisconnectKeepsInv(c: ManagerConfig, h: HandlerState, id: SessionId, now: Time)
    requires HandlerInv(c, h)
    ensures HandlerInv(c, HandleDisconnect(c, h, id, now).0)
  {
    StatusKeepsInv(c, h.mgr, id, Idle, now);
    if id in h.mgr.reg.sessions {
      StatusEffect(c, h.mgr, id, Idle, now);
    }
    DisconnectSettles(h, HandleDisconnect(c, h, id, now).0, id);
  }

  lemma TickKeepsInv(c: ManagerConfig, h: HandlerState, order: seq<SessionId>, poolOrder: seq<SessionId>, now: Time)
    requires HandlerInv(c, h)
    ensures HandlerInv(c, h.(mgr := Cleanup(c, h.mgr, order, poolOrder, now)))
  {
    Runs.CleanupKeepsInv(c, h.mgr, order, poolOrder, now);
    Runs.ExpireRemovesOverdue(c, h.mgr, h.mgr.reg.sessions, order, now);
  }

  lemma CreateRequestKeepsInv(c: ManagerConfig, h: HandlerState, m: SessionMetadata, now: Time)
    ensures HandlerInv(c, h) && Proper(h, Create(m, now)) ==> HandlerInv(c, HandleCreate(c, h, m, now).0)
  {
    if HandlerInv(c, h) && Proper(h, Create(m, now)) {
      HandleCreateKeepsInv(c, h, m, now);
    }
  }

  lemma ConnectRequestKeepsInv(c: ManagerConfig, h: HandlerState, m: SessionMetadata, order: seq<SessionId>, now: Time)
    ensures HandlerInv(c, h) && Proper(h, Connect(m, order, now)) ==>
              HandlerInv(c, HandleConnect(c, h, m, order, now).0)
  {
    if HandlerInv(c, h) && Proper(h, Connect(m, order, now)) {
      StepKeepsHandlerInv(c, h, Connect(m, order, now));
    }
  }

  lemma {:induction false} RunKeepsHandlerInv(c: ManagerConfig, h: HandlerState, qs: seq<Request>)
    requires HandlerInv(c, h) && ProperRun(c, h, qs)
    ensures HandlerInv(c, Run(c, h, qs))
    decreases |qs|
  {
    if qs == [] {
    } else {
      StepKeepsHandlerInv(c, h, qs[0]);
      RunKeepsHandlerInv(c, Handle(c, h, qs[0]).0, qs[1..]);
    }
  }

  /** Main result: after any run of requests and ticks, every pooled id is registered, Idle, and pooled under its own
      connection key, and every connected client still registered has an Active session. */
  lemma PooledAreIdleAndClientsActive(c: ManagerConfig, qs: seq<Request>)
    requires ProperRun(c, EMPTY, qs)
    ensures var h := Run(c, EMPTY, qs);
            && (forall id :: id in h.mgr.pool.meta ==>
                  && id in h.mgr.reg.sessions
                  && h.mgr.reg.sessions[id].status == Idle
                  && h.mgr.pool.meta[id].connectionKey == h.mgr.reg.sessions[id].Key()
                  && id !in h.clients)
            && (forall id :: id in h.clients && id in h.mgr.reg.sessions ==> h.mgr.reg.sessions[id].status == Active)
  {
    Runs.EmptyIsInv(c);
    RunKeepsHandlerInv(c, EMPTY, qs);
  }

  // ----- Reuse -----

  /** A session handed out by the pool talks to the endpoint of the request, leaves the pool, is Active, and has no
      client: commands on it are refused. */
  lemma ReuseReachesSameEndpoint(c: ManagerConfig, h: HandlerState, m: SessionMetadata, now: Time)
    requires HandlerInv(c, h)
    requires FindReusable(c, h.mgr, m.Key(), now).Some?
    requires Unambiguous(m.transport)
    ensures var id := FindReusable(c, h.mgr, m.Key(), now).value;
            var (h', r) := HandleCreate(c, h, m, now);
            && r == SessionCreated(id, true)
            && id in h'.mgr.reg.sessions
            && EndpointOf(h'.mgr.reg.sessions[id].transport) == EndpointOf(m.transport)
            && h'.mgr.reg.sessions[id].status == Active
            && id !in h'.mgr.pool.meta
            && HandleExecute(c, h', id, now) == (h', Failure(SessionNotFound))
  {
    FoundIsPooled(c, h.mgr, m.Key(), now);
    var id := FindReusable(c, h.mgr, m.Key(), now).value;
    UseActivates(c, h.mgr, id, now);
    KeyIdentifiesEndpoint(m.transport, h.mgr.reg.sessions[id].transport);
  }

  /** Only a disconnect puts a session into the pool. */
  lemma StepKeepsUnpooled(c: ManagerConfig, h: HandlerState, q: Request, id: SessionId)
    requires HandlerInv(c, h) && Proper(h, q)
    requires id !in h.mgr.pool.meta && (q.Disconnect? ==> q.id != id)
    ensures id !in Handle(c, h, q).0.mgr.pool.meta
  {
    match q
    case Create(m, now) => CreateKeepsUnpooled(c, h, m, now, id);
    case Connect(m, order, now) => ConnectKeepsUnpooled(c, h, m, order, now, id);
    case Disconnect(_, _) =>
    case Execute(x, now) => if x in h.mgr.reg.sessions { UseActivates(c, h.mgr, x, now); }
    case Tick(order, poolOrder, now) => TickKeepsUnpooled(c, h.mgr, order, poolOrder, now, id);
  }

  lemma ConnectKeepsUnpooled(c: ManagerConfig, h: HandlerState, m: SessionMetadata, order: seq<SessionId>, now: Time,
                             id: SessionId)
    requires HandlerInv(c, h) && Proper(h, Create(m, now)) && id !in h.mgr.pool.meta
    ensures id !in HandleConnect(c, h, m, order, now).0.mgr.pool.meta
  {
    var found := FirstActive(h.mgr.reg.sessions, order, m.name);
    if found.Some? {
      UseActivates(c, h.mgr, found.value, now);
    } else {
      CreateKeepsUnpooled(c, h, m, now, id);
    }
  }

  lemma TickKeepsUnpooled(c: ManagerConfig, s: ManagerState, order: seq<SessionId>, poolOrder: seq<SessionId>,
                          now: Time, id: SessionId)
    requires Inv(c, s) && id !in s.pool.meta
    ensures id !in Cleanup(c, s, order, poolOrder, now).pool.meta
  {
    Runs.ExpireRemovesOverdue(c, s, s.reg.sessions, order, now);
    Runs.ExpireKeepsInv(c, s, s.reg.sessions, order, now);
    var p := ExpireAll(c, s, s.reg.sessions, order, now).pool;
    P.RemoveAllErases(p, P.Expired(p.meta, poolOrder, c.lifecycle.maxIdleTime, now));
  }

  lemma CreateKeepsUnpooled(c: ManagerConfig, h: HandlerState, m: SessionMetadata, now: Time, id: SessionId)
    requires HandlerInv(c, h) && Proper(h, Create(m, now)) && id !in h.mgr.pool.meta
    ensures id !in HandleCreate(c, h, m, now).0.mgr.pool.meta
  {
    var found := FindReusable(c, h.mgr, m.Key(), now);
    if found.Some? {
      FoundIsPooled(c, h.mgr, m.Key(), now);
      UseActivates(c, h.mgr, found.value, now);
    } else {
      CreateAndConnectEffect(c, h, m, now);
    }
  }

  /** With reuse on, an eligible entry means that something is found, and that it is found if it is alone. */
  lemma EligibleIsFound(c: P.PoolConfig, p: P.PoolState, id: SessionId, key: string, now: Time)
    requires c.enabled && c.preferReuse && id in IdIndex.Ids(p.pools, key) && P.Eligible(c, p, id, now)
    ensures P.FindSession(c, p, key, now).Some? && P.FindSession(c, p, key, now).value in IdIndex.Ids(p.pools, key)
    ensures IdIndex.Ids(p.pools, key) == [] + [id] ==> P.FindSession(c, p, key, now) == Some(id)
  {
    P.FindSessionComplete(c, p, key, now);
  }

  lemma FoundIsServed(c: ManagerConfig, h: HandlerState, m: SessionMetadata, now: Time)
    requires HandlerInv(c, h) && FindReusable(c, h.mgr, m.Key(), now).Some?
    ensures HandleCreate(c, h, m, now).1 == SessionCreated(FindReusable(c, h.mgr, m.Key(), now).value, true)
  {
    FoundIsPooled(c, h.mgr, m.Key(), now);
    UseActivates(c, h.mgr, FindReusable(c, h.mgr, m.Key(), now).value, now);
  }

  /** With room, a disconnected session is the last of its pool list and eligible after the minimum idle time. */
  lemma DisconnectPools(c: ManagerConfig, h: HandlerState, id: SessionId, now: Time, later: Time)
    requires Inv(c, h.mgr) && id in h.mgr.reg.sessions
    requires c.pool.enabled && P.HasRoom(c.pool, h.mgr.pool, h.mgr.reg.sessions[id].Key())
    requires later >= now + c.pool.minIdleTime * SECOND
    ensures var p := HandleDisconnect(c, h, id, now).0.mgr.pool;
            var key := h.mgr.reg.sessions[id].Key();
            && P.Eligible(c.pool, p, id, later)
            && IdIndex.Ids(p.pools, key) == IdIndex.Ids(h.mgr.pool.pools, key) + [id]
            && id in IdIndex.Ids(p.pools, key)
  {
  }

  /** Disconnect and reconnect: a session disconnected while its pool has room is reusable after the minimum idle time;
      a request for its key is then served from the pool, by this very session if no other is pooled under the key. */
  lemma DisconnectedIsReusable(c: ManagerConfig, h: HandlerState, id: SessionId, now: Time, m: SessionMetadata,
                               later: Time)
    requires HandlerInv(c, h) && id in h.mgr.reg.sessions
    requires c.pool.enabled && c.pool.preferReuse && P.HasRoom(c.pool, h.mgr.pool, h.mgr.reg.sessions[id].Key())
    requires m.Key() == h.mgr.reg.sessions[id].Key() && later >= now + c.pool.minIdleTime * SECOND
    ensures var h' := HandleDisconnect(c, h, id, now).0;
            var r := HandleCreate(c, h', m, later).1;
            && r.SessionCreated? && r.reused
            && (m.Key() !in h.mgr.pool.pools ==> r.id == id)
  {
    var h', key := HandleDisconnect(c, h, id, now).0, m.Key();
    DisconnectKeepsInv(c, h, id, now);
    DisconnectPools(c, h, id, now, later);
    EligibleIsFound(c.pool, h'.mgr.pool, id, key, later);
    FoundIsServed(c, h', m, later);
  }

  /** A connect for the name of an Active session reuses such a session and registers nothing. */
  lemma ConnectReusesActive(c: ManagerConfig, h: HandlerState, m: SessionMetadata, order: seq<SessionId>, now: Time,
                            id: SessionId)
    requires Elements(order) == h.mgr.reg.sessions.Keys
    requires id in h.mgr.reg.sessions
    requires h.mgr.reg.sessions[id].name == m.name && h.mgr.reg.sessions[id].status == Active
    ensures var (h', r) := HandleConnect(c, h, m, order, now);
            && r.SessionCreated? && r.reused
            && r.id in h.mgr.reg.sessions && h.mgr.reg.sessions[r.id].name == m.name
            && h'.mgr.reg.sessions.Keys == h.mgr.reg.sessions.Keys && h'.mgr.pool == h.mgr.pool
  {
    assert id in Elements(order);
  }

  /** `id` is pooled under `key` and became idle exactly the maximum idle time ago. */
  ghost predicate ReusableAt(c: ManagerConfig, s: ManagerState, id: SessionId, key: string, now: Time) {
    && id in s.pool.meta && s.pool.meta[id].connectionKey == key
    && now == s.pool.meta[id].pooledAt + c.lifecycle.maxIdleTime
  }

  lemma EligibleIff(c: ManagerConfig, s: ManagerState, key: string, now: Time, id: SessionId)
    requires P.Mirror(s.pool) && c.lifecycle.maxIdleTime == c.pool.minIdleTime * SECOND > 0
    requires forall x :: x in s.pool.meta ==> !P.TooOld(s.pool.meta[x], c.lifecycle.maxIdleTime, now)
    ensures id in IdIndex.Ids(s.pool.pools, key) && P.Eligible(c.pool, s.pool, id, now) <==>
            ReusableAt(c, s, id, key, now)
  {
    assert id in IdIndex.Ids(s.pool.pools, key) <==> id in P.Owners(s.pool.meta) && P.Owners(s.pool.meta)[id] == key;
  }

  lemma FoundIffReusable(c: ManagerConfig, s: ManagerState, key: string, now: Time)
    requires P.Mirror(s.pool) && c.lifecycle.maxIdleTime == c.pool.minIdleTime * SECOND > 0
    requires forall x :: x in s.pool.meta ==> !P.TooOld(s.pool.meta[x], c.lifecycle.maxIdleTime, now)
    ensures var found := FindReusable(c, s, key, now);
            && (found.Some? <==> c.pool.enabled && c.pool.preferReuse && exists id :: ReusableAt(c, s, id, key, now))
            && (found.Some? ==> ReusableAt(c, s, found.value, key, now))
  {
    P.FindSessionComplete(c.pool, s.pool, key, now);
    forall id ensures id in IdIndex.Ids(s.pool.pools, key) && P.Eligible(c.pool, s.pool, id, now)
                 <==> ReusableAt(c, s, id, key, now) {
      EligibleIff(c, s, key, now, id);
    }
    var found := FindReusable(c, s, key, now);
    if found.Some? { assert found.value in IdIndex.Ids(s.pool.pools, key); }
  }

  /** The daemon sets the minimum idle time of the pool to the maximum idle time of the lifecycle. Then right after a
      cleanup tick a session is found exactly if some pooled session of the key has been idle for exactly that long, to
      the nanosecond, and it is such a session: nothing younger may be reused and nothing older is left. */
  lemma DaemonReuseWindow(c: ManagerConfig, h: HandlerState, order: seq<SessionId>, poolOrder: seq<SessionId>,
                          key: string, now: Time)
    requires Inv(c, h.mgr) && c.lifecycle.maxIdleTime == c.pool.minIdleTime * SECOND > 0
    requires Enumerates(order, h.mgr.reg.sessions.Keys)
    requires Enumerates(poolOrder, h.mgr.pool.meta.Keys - Runs.Overdue(c, h.mgr.reg.sessions, now))
    ensures var s := Cleanup(c, h.mgr, order, poolOrder, now);
            var found := FindReusable(c, s, key, now);
            && (found.Some? <==> c.pool.enabled && c.pool.preferReuse && exists id :: ReusableAt(c, s, id, key, now))
            && (found.Some? ==> ReusableAt(c, s, found.value, key, now))
  {
    Runs.TickLeavesNoneTooOld(c, h.mgr, order, poolOrder, now);
    FoundIffReusable(c, Cleanup(c, h.mgr, order, poolOrder, now), key, now);
  }

  lemma TickForgetsIff(c: ManagerConfig, s: ManagerState, order: seq<SessionId>, poolOrder: seq<SessionId>, now: Time,
                       id: SessionId)
    requires Inv(c, s) && Enumerates(order, s.reg.sessions.Keys)
    ensures id in Cleanup(c, s, order, poolOrder, now).reg.sessions <==>
            id in s.reg.sessions && !ShouldExpire(c.lifecycle, s.reg.sessions[id], now)
  {
    Runs.ExpireExact(c, s, order, now);
  }

  lemma ActiveExpiresIff(c: ManagerConfig, h: HandlerState, id: SessionId, now: Time)
    requires ClientsActive(h) && id in h.clients && id in h.mgr.reg.sessions
    ensures ShouldExpire(c.lifecycle, h.mgr.reg.sessions[id], now) <==>
            h.mgr.reg.sessions[id].Age(now) > c.lifecycle.maxSessionLifetime
  {
  }

  /** A tick forgets sessions and keeps their clients: right after it a command of a connected client succeeds without a
      session exactly if the session was gone before or has outlived the maximum lifetime. */
  lemma TickOrphansClientIff(c: ManagerConfig, h: HandlerState, order: seq<SessionId>, poolOrder: seq<SessionId>,
                             now: Time,
                             id: SessionId, later: Time)
    requires HandlerInv(c, h) && id in h.clients && Enumerates(order, h.mgr.reg.sessions.Keys)
    ensures var h' := Handle(c, h, Tick(order, poolOrder, now)).0;
            && HandleExecute(c, h', id, later).1 == CommandSuccess
            && (id !in h'.mgr.reg.sessions <==>
                  id !in h.mgr.reg.sessions || h.mgr.reg.sessions[id].Age(now) > c.lifecycle.maxSessionLifetime)
  {
    TickForgetsIff(c, h.mgr, order, poolOrder, now, id);
    if id in h.mgr.reg.sessions { ActiveExpiresIff(c, h, id, now); }
  }

  // ----- Commands on a session that was disconnected once -----

  lemma StepAddsOnlyNewClients(c: ManagerConfig, h: HandlerState, q: Request)
    ensures Handle(c, h, q).0.clients <= h.clients + (if MayCreate(q) then {q.m.id} else {})
  {
  }

  /** A session returned by a create request can execute commands exactly when it did not come out of the pool. */
  lemma CreatedExecutesIff(c: ManagerConfig, h: HandlerState, m: SessionMetadata, now: Time)
    requires HandlerInv(c, h) && Proper(h, Create(m, now))
    requires HandleCreate(c, h, m, now).1.SessionCreated?
    ensures var (h', r) := HandleCreate(c, h, m, now);
            HandleExecute(c, h', r.id, now).1 == CommandSuccess <==> FindReusable(c, h.mgr, m.Key(), now).None?
  {
    if FindReusable(c, h.mgr, m.Key(), now).Some? {
      FoundIsPooled(c, h.mgr, m.Key(), now);
      UseActivates(c, h.mgr, FindReusable(c, h.mgr, m.Key(), now).value, now);
    } else {
      CreateAndConnectEffect(c, h, m, now);
    }
  }

  /** A session without a client never gets one: after a disconnect every later command on it is refused, even when
      the pool has handed the session out again. */
  lemma {:induction false} DisconnectedNeverExecutes(c: ManagerConfig, h: HandlerState, qs: seq<Request>,
                                                     id: SessionId, now: Time)
    requires id !in h.clients
    requires forall i :: 0 <= i < |qs| && MayCreate(qs[i]) ==> qs[i].m.id != id
    ensures HandleExecute(c, Run(c, h, qs), id, now) == (Run(c, h, qs), Failure(SessionNotFound))
    decreases |qs|
  {
    if qs == [] {
    } else {
      StepAddsOnlyNewClients(c, h, qs[0]);
      DisconnectedNeverExecutes(c, Handle(c, h, qs[0]).0, qs[1..], id, now);
    }
  }
}
