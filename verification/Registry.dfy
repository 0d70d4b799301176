/** The session registry: a primary map and two secondary indexes (crates/core/src/session/registry.rs). */
module Registry {
  import opened Common
  import opened Session
  import opened IdIndex

  datatype RegistryConfig = RegistryConfig(maxSessions: nat, allowDuplicateNames: bool, enableNameIndex: bool)

  datatype RegistryError = MaxSessionsReached(limit: nat) | AlreadyExists(name: string) | NotFound(id: SessionId)
                         | InvalidState

  type Sessions = map<SessionId, SessionMetadata>

  datatype RegistryState = RegistryState(sessions: Sessions, nameIndex: Index, connectionIndex: Index)

  const EMPTY := RegistryState(map[], map[], map[])

  // ----- What each operation does to the three maps -----

  /** The checks made before anything is written; concurrent registrations may all pass them first. */
  function Admission(c: RegistryConfig, r: RegistryState, name: string): Option<RegistryError> {
    if |r.sessions| >= c.maxSessions then Some(MaxSessionsReached(c.maxSessions))
    else if !c.allowDuplicateNames && Ids(r.nameIndex, name) != [] then Some(AlreadyExists(name))
    else None
  }

  function Admitted(m: SessionMetadata): SessionMetadata {
    if m.status == Creating then m.(status := Connecting) else m
  }

  function Insert(c: RegistryConfig, r: RegistryState, m: SessionMetadata): RegistryState {
    RegistryState(r.sessions[m.id := Admitted(m)],
             if c.enableNameIndex then Push(r.nameIndex, m.name, m.id) else r.nameIndex,
             Push(r.connectionIndex, m.Key(), m.id))
  }

  function Register(c: RegistryConfig, r: RegistryState, m: SessionMetadata)
    : (RegistryState, Result<SessionId, RegistryError>)
  {
    match Admission(c, r, m.name)
    case Some(e) => (r, Err(e))
    case None => (Insert(c, r, m), Ok(m.id))
  }

  function Unregister(c: RegistryConfig, r: RegistryState, id: SessionId): (RegistryState, Option<SessionMetadata>) {
    if id !in r.sessions then (r, None) else
      var m := r.sessions[id];
      (RegistryState(r.sessions - {id},
                if c.enableNameIndex then Erase(r.nameIndex, m.name, id) else r.nameIndex,
                Erase(r.connectionIndex, m.Key(), id)),
       Some(m))
  }

  function Move(ix: Index, from: string, to: string, id: SessionId): Index {
    if from == to then ix else Push(Erase(ix, from, id), to, id)
  }

  function Update(c: RegistryConfig, r: RegistryState, id: SessionId, m: SessionMetadata)
    : (RegistryState, Option<RegistryError>)
  {
    if m.id != id then (r, Some(InvalidState))
    else if id !in r.sessions then (r, Some(NotFound(id)))
    else
      var was := r.sessions[id];
      (RegistryState(r.sessions[id := m],
                if c.enableNameIndex then Move(r.nameIndex, was.name, m.name, id) else r.nameIndex,
                Move(r.connectionIndex, was.Key(), m.Key(), id)),
       None)
  }

  function UpdateStatus(r: RegistryState, id: SessionId, status: SessionStatus, now: Time)
    : (RegistryState, Option<RegistryError>)
  {
    if id !in r.sessions then (r, Some(NotFound(id)))
    else (r.(sessions := r.sessions[id := r.sessions[id].SetStatus(status, now)]), None)
  }

  function MarkUsed(r: RegistryState, id: SessionId, now: Time): (RegistryState, Option<RegistryError>) {
    if id !in r.sessions then (r, Some(NotFound(id)))
    else (r.(sessions := r.sessions[id := r.sessions[id].MarkUsed(now)]), None)
  }

  /** `filter_map` of a list of ids through the primary map. */
  function Lookup(sessions: Sessions, ids: seq<SessionId>): seq<SessionMetadata> {
    if ids == [] then []
    else (if ids[0] in sessions then [sessions[ids[0]]] else []) + Lookup(sessions, ids[1..])
  }

  /** The linear search over the primary map, in the map's iteration order. */
  function Scan(sessions: Sessions, order: seq<SessionId>, keep: SessionMetadata -> bool): seq<SessionMetadata>
    requires Elements(order) <= sessions.Keys
  {
    if order == [] then []
    else
      assert order[0] in Elements(order);
      assert Elements(order[1..]) <= Elements(order);
      (if keep(sessions[order[0]]) then [sessions[order[0]]] else []) + Scan(sessions, order[1..], keep)
  }

  function ListByName(c: RegistryConfig, r: RegistryState, order: seq<SessionId>, name: string): seq<SessionMetadata>
    requires Elements(order) <= r.sessions.Keys
  {
    if c.enableNameIndex then Lookup(r.sessions, Ids(r.nameIndex, name))
    else Scan(r.sessions, order, (m: SessionMetadata) => m.name == name)
  }

  function ListByConnectionKey(r: RegistryState, key: string): seq<SessionMetadata> {
    Lookup(r.sessions, Ids(r.connectionIndex, key))
  }

  // ----- The invariant -----

  ghost function Names(s: Sessions): map<SessionId, string> {
    map id | id in s :: s[id].name
  }

  ghost function Keys(s: Sessions): map<SessionId, string> {
    map id | id in s :: s[id].Key()
  }

  /** Every index list is non-empty and duplicate-free and holds exactly the ids with that name or key. */
  ghost predicate Consistent(c: RegistryConfig, r: RegistryState) {
    && (forall id :: id in r.sessions ==> r.sessions[id].id == id)
    && Agrees(r.connectionIndex, Keys(r.sessions)) && NoDuplicates(r.connectionIndex)
    && (if c.enableNameIndex then Agrees(r.nameIndex, Names(r.sessions)) && NoDuplicates(r.nameIndex)
        else r.nameIndex == map[])
  }

  ghost predicate UniqueNames(s: Sessions) {
    forall i, j :: i in s && j in s && s[i].name == s[j].name ==> i == j
  }

  lemma KeysAfterPut(s: Sessions, id: SessionId, m: SessionMetadata)
    ensures Keys(s[id := m]) == Keys(s)[id := m.Key()]
  {
  }

  lemma NamesAfterPut(s: Sessions, id: SessionId, m: SessionMetadata)
    ensures Names(s[id := m]) == Names(s)[id := m.name]
  {
  }

  lemma InsertConsistent(c: RegistryConfig, r: RegistryState, m: SessionMetadata)
    requires Consistent(c, r) && m.id !in r.sessions
    ensures Consistent(c, Insert(c, r, m))
  {
    PushAgrees(r.connectionIndex, Keys(r.sessions), m.Key(), m.id);
    KeysAfterPut(r.sessions, m.id, Admitted(m));
    if c.enableNameIndex {
      PushAgrees(r.nameIndex, Names(r.sessions), m.name, m.id);
      NamesAfterPut(r.sessions, m.id, Admitted(m));
    }
  }

  lemma UnregisterConsistent(c: RegistryConfig, r: RegistryState, id: SessionId)
    requires Consistent(c, r)
    ensures Consistent(c, Unregister(c, r, id).0)
  {
    if id in r.sessions {
      var r' := Unregister(c, r, id).0;
      EraseAgrees(r.connectionIndex, Keys(r.sessions), id);
      assert Keys(r'.sessions) == Keys(r.sessions) - {id};
      if c.enableNameIndex {
        EraseAgrees(r.nameIndex, Names(r.sessions), id);
        assert Names(r'.sessions) == Names(r.sessions) - {id};
      }
    }
  }

  lemma MoveAgrees(ix: Index, owner: map<SessionId, string>, id: SessionId, to: string)
    requires Agrees(ix, owner) && NoDuplicates(ix) && id in owner
    ensures Agrees(Move(ix, owner[id], to, id), owner[id := to]) && NoDuplicates(Move(ix, owner[id], to, id))
  {
    if owner[id] == to {
      assert owner[id := to] == owner;
    } else {
      EraseAgrees(ix, owner, id);
      PushAgrees(Erase(ix, owner[id], id), owner - {id}, to, id);
      assert (owner - {id})[id := to] == owner[id := to];
    }
  }

  lemma UpdateConsistent(c: RegistryConfig, r: RegistryState, id: SessionId, m: SessionMetadata)
    requires Consistent(c, r)
    ensures Consistent(c, Update(c, r, id, m).0)
  {
    if m.id == id && id in r.sessions {
      UpdateKeepsIndex(r.connectionIndex, Keys(r.sessions), id, m.Key(), Keys(r.sessions[id := m]));
      if c.enableNameIndex {
        UpdateKeepsIndex(r.nameIndex, Names(r.sessions), id, m.name, Names(r.sessions[id := m]));
      }
    }
  }

  lemma UpdateKeepsIndex(ix: Index, owner: map<SessionId, string>, id: SessionId, to: string, owner': map<SessionId,
                         string>)
    requires Agrees(ix, owner) && NoDuplicates(ix) && id in owner
    requires owner'.Keys == owner.Keys && owner'[id] == to
    requires forall x :: x in owner && x != id ==> owner'[x] == owner[x]
    ensures Agrees(Move(ix, owner[id], to, id), owner') && NoDuplicates(Move(ix, owner[id], to, id))
  {
    MoveAgrees(ix, owner, id, to);
    assert owner[id := to] == owner';
  }

  /** Status changes and uses touch neither the name nor the transport, so the indexes still fit. */
  lemma SameNamesAndKeys(c: RegistryConfig, r: RegistryState, id: SessionId, m: SessionMetadata)
    requires Consistent(c, r) && id in r.sessions
    requires m.id == id && m.name == r.sessions[id].name && m.transport == r.sessions[id].transport
    ensures Consistent(c, r.(sessions := r.sessions[id := m]))
  {
    assert Names(r.sessions[id := m]) == Names(r.sessions);
    assert Keys(r.sessions[id := m]) == Keys(r.sessions);
  }

  // ----- Runs -----

  datatype RegistryOp =
    | DoRegister(m: SessionMetadata)
    | DoUnregister(id: SessionId)
    | DoUpdate(id: SessionId, m: SessionMetadata)
    | DoUpdateStatus(id: SessionId, status: SessionStatus, now: Time)
    | DoMarkUsed(id: SessionId, now: Time)
    | DoClear

  function Step(c: RegistryConfig, r: RegistryState, op: RegistryOp): RegistryState {
    match op
    case DoRegister(m) => Register(c, r, m).0
    case DoUnregister(id) => Unregister(c, r, id).0
    case DoUpdate(id, m) => Update(c, r, id, m).0
    case DoUpdateStatus(id, status, now) => UpdateStatus(r, id, status, now).0
    case DoMarkUsed(id, now) => MarkUsed(r, id, now).0
    case DoClear => EMPTY
  }

  function Run(c: RegistryConfig, r: RegistryState, ops: seq<RegistryOp>): RegistryState
    decreases |ops|
  {
    if ops == [] then r else Run(c, Step(c, r, ops[0]), ops[1..])
  }

  /** Every registration brings an id that is not registered at that moment. */
  ghost predicate FreshIds(c: RegistryConfig, r: RegistryState, ops: seq<RegistryOp>)
    decreases |ops|
  {
    ops == [] ||
    ((ops[0].DoRegister? ==> ops[0].m.id !in r.sessions) && FreshIds(c, Step(c, r, ops[0]), ops[1..]))
  }

  lemma StepConsistent(c: RegistryConfig, r: RegistryState, op: RegistryOp)
    requires Consistent(c, r)
    requires op.DoRegister? ==> op.m.id !in r.sessions
    ensures Consistent(c, Step(c, r, op))
  {
    match op
    case DoRegister(m) => InsertConsistent(c, r, m);
    case DoUnregister(id) => UnregisterConsistent(c, r, id);
    case DoUpdate(id, m) => UpdateConsistent(c, r, id, m);
    case DoUpdateStatus(id, status, now) =>
      if id in r.sessions { SameNamesAndKeys(c, r, id, r.sessions[id].SetStatus(status, now)); }
    case DoMarkUsed(id, now) =>
      if id in r.sessions { SameNamesAndKeys(c, r, id, r.sessions[id].MarkUsed(now)); }
    case DoClear =>
  }

  /** The indexes agree with the primary map after any run. */
  lemma {:induction false} RunConsistent(c: RegistryConfig, r: RegistryState, ops: seq<RegistryOp>)
    requires Consistent(c, r) && FreshIds(c, r, ops)
    ensures Consistent(c, Run(c, r, ops))
    decreases |ops|
  {
    if ops == [] {
    } else {
      StepConsistent(c, r, ops[0]);
      RunConsistent(c, Step(c, r, ops[0]), ops[1..]);
    }
  }

  // ----- Listing through an index is the linear scan -----

  lemma {:induction false} LookupCounts(s: Sessions, ids: seq<SessionId>, m: SessionMetadata)
    requires forall id :: id in s ==> s[id].id == id
    requires NoDup(ids)
    ensures multiset(Lookup(s, ids))[m] == (if m.id in ids && m.id in s && s[m.id] == m then 1 else 0)
  {
    if ids == [] {
    } else {
      LookupCounts(s, ids[1..], m);
      assert ids == [ids[0]] + ids[1..];
      assert m.id in ids <==> m.id == ids[0] || m.id in ids[1..];
    }
  }

  lemma {:induction false} ScanCounts(s: Sessions, order: seq<SessionId>, keep: SessionMetadata -> bool,
                                      m: SessionMetadata)
    requires forall id :: id in s ==> s[id].id == id
    requires NoDup(order) && Elements(order) <= s.Keys
    ensures multiset(Scan(s, order, keep))[m]
         == (if m.id in order && m.id in s && s[m.id] == m && keep(m) then 1 else 0)
  {
    if order == [] {
    } else {
      assert order[0] in Elements(order);
      assert Elements(order[1..]) <= Elements(order);
      ScanCounts(s, order[1..], keep, m);
      assert order == [order[0]] + order[1..];
      assert m.id in order <==> m.id == order[0] || m.id in order[1..];
    }
  }

  lemma ListedOnceEach(s: Sessions, ix: Index, owner: map<SessionId, string>, order: seq<SessionId>,
                       text: string, keep: SessionMetadata -> bool, m: SessionMetadata)
    requires forall id :: id in s ==> s[id].id == id
    requires Agrees(ix, owner) && NoDuplicates(ix) && owner.Keys == s.Keys
    requires Enumerates(order, s.Keys)
    requires forall id :: id in s ==> (keep(s[id]) <==> owner[id] == text)
    ensures multiset(Lookup(s, Ids(ix, text)))[m] == multiset(Scan(s, order, keep))[m]
  {
    LookupCounts(s, Ids(ix, text), m);
    ScanCounts(s, order, keep, m);
    assert m.id in order <==> m.id in Elements(order);
    assert m.id in Ids(ix, text) <==> m.id in owner && owner[m.id] == text;
  }

  lemma IndexListingMatchesScan(s: Sessions, ix: Index, owner: map<SessionId, string>, order: seq<SessionId>,
                                text: string, keep: SessionMetadata -> bool)
    requires forall id :: id in s ==> s[id].id == id
    requires Agrees(ix, owner) && NoDuplicates(ix) && owner.Keys == s.Keys
    requires Enumerates(order, s.Keys)
    requires forall id :: id in s ==> (keep(s[id]) <==> owner[id] == text)
    ensures multiset(Lookup(s, Ids(ix, text))) == multiset(Scan(s, order, keep))
  {
    var listed, scanned := multiset(Lookup(s, Ids(ix, text))), multiset(Scan(s, order, keep));
    forall m ensures listed[m] == scanned[m] {
      ListedOnceEach(s, ix, owner, order, text, keep, m);
    }
  }

  /** With the index or without, in whatever order the hash map iterates, the same sessions are listed, once each. */
  lemma ListByNameMatchesScan(c: RegistryConfig, r: RegistryState, order: seq<SessionId>, name: string)
    requires Consistent(c, r)
    requires Enumerates(order, r.sessions.Keys)
    ensures multiset(ListByName(c, r, order, name))
         == multiset(Scan(r.sessions, order, (m: SessionMetadata) => m.name == name))
  {
    if c.enableNameIndex {
      IndexListingMatchesScan(r.sessions, r.nameIndex, Names(r.sessions), order, name,
                              (m: SessionMetadata) => m.name == name);
    }
  }

  lemma ListByConnectionKeyMatchesScan(c: RegistryConfig, r: RegistryState, order: seq<SessionId>, key: string)
    requires Consistent(c, r)
    requires Enumerates(order, r.sessions.Keys)
    ensures multiset(ListByConnectionKey(r, key))
         == multiset(Scan(r.sessions, order, (m: SessionMetadata) => m.Key() == key))
  {
    IndexListingMatchesScan(r.sessions, r.connectionIndex, Keys(r.sessions), order, key,
                            (m: SessionMetadata) => m.Key() == key);
  }

  // ----- Unique names -----

  ghost predicate NameTaken(r: RegistryState, name: string) {
    exists id :: id in r.sessions && r.sessions[id].name == name
  }

  /** With room left and duplicates disallowed, a taken name is refused exactly when the name index is on. */
  lemma DuplicateRefusedIffIndexed(c: RegistryConfig, r: RegistryState, m: SessionMetadata)
    requires Consistent(c, r) && !c.allowDuplicateNames
    requires |r.sessions| < c.maxSessions && NameTaken(r, m.name)
    ensures Register(c, r, m) == (r, Err(AlreadyExists(m.name))) <==> c.enableNameIndex
  {
    var id :| id in r.sessions && r.sessions[id].name == m.name;
    if c.enableNameIndex {
      assert Names(r.sessions)[id] == m.name;
      assert id in Ids(r.nameIndex, m.name);
    }
  }

  /** The index lists somebody under a name exactly if it is on and the name is taken. */
  lemma ListedIffTaken(c: RegistryConfig, r: RegistryState, name: string)
    requires Consistent(c, r)
    ensures Ids(r.nameIndex, name) != [] <==> c.enableNameIndex && NameTaken(r, name)
  {
    var ids := Ids(r.nameIndex, name);
    if ids != [] {
      assert ids[0] in ids;
      assert Names(r.sessions)[ids[0]] == name;
    }
    if c.enableNameIndex && NameTaken(r, name) {
      var id :| id in r.sessions && r.sessions[id].name == name;
      assert Names(r.sessions)[id] == name && id in ids;
    }
  }

  /** Main result, for every configuration: at the limit nothing is registered; below it a registration is refused
      exactly if duplicates are disallowed, the index is on and the name is taken, and otherwise stores the session,
      Connecting in place of Creating, and nothing else. */
  lemma RegisterIff(c: RegistryConfig, r: RegistryState, m: SessionMetadata)
    requires Consistent(c, r)
    ensures var (r', answer) := Register(c, r, m);
            if |r.sessions| >= c.maxSessions then r' == r && answer == Err(MaxSessionsReached(c.maxSessions))
            else if !c.allowDuplicateNames && c.enableNameIndex && NameTaken(r, m.name) then
              r' == r && answer == Err(AlreadyExists(m.name))
            else
              && answer == Ok(m.id)
              && r'.sessions.Keys == r.sessions.Keys + {m.id}
              && r'.sessions[m.id] == m.(status := if m.status == Creating then Connecting else m.status)
              && forall x :: x in r.sessions && x != m.id ==> r'.sessions[x] == r.sessions[x]
  {
    ListedIffTaken(c, r, m.name);
    StoredAsConnecting(c, r, m);
  }

  lemma StoredAsConnecting(c: RegistryConfig, r: RegistryState, m: SessionMetadata)
    ensures var stored := Insert(c, r, m).sessions;
            && stored.Keys == r.sessions.Keys + {m.id}
            && stored[m.id] == m.(status := if m.status == Creating then Connecting else m.status)
            && forall x :: x in r.sessions && x != m.id ==> stored[x] == r.sessions[x]
  {
  }

  /** A free name is never refused as a duplicate. */
  lemma FreeNameAccepted(c: RegistryConfig, r: RegistryState, m: SessionMetadata)
    requires Consistent(c, r) && |r.sessions| < c.maxSessions && !NameTaken(r, m.name)
    ensures Register(c, r, m).1 == Ok(m.id)
  {
    RegisterIff(c, r, m);
  }

  /** The update gives a registered session the name of another one. */
  ghost predicate TakesName(r: RegistryState, op: RegistryOp) {
    && op.DoUpdate? && op.id in r.sessions && op.m.id == op.id
    && exists x :: x in r.sessions && x != op.id && r.sessions[x].name == op.m.name
  }

  lemma RenameKeepsUniqueIff(s: Sessions, id: SessionId, m: SessionMetadata)
    requires UniqueNames(s) && id in s
    ensures UniqueNames(s[id := m]) <==> !exists x :: x in s && x != id && s[x].name == m.name
  {
    var after := s[id := m];
    if x :| x in s && x != id && s[x].name == m.name {
      assert x in after && id in after && after[x].name == after[id].name;
    }
  }

  /** The exact condition on one operation. */
  lemma StepKeepsNamesUniqueIff(c: RegistryConfig, r: RegistryState, op: RegistryOp)
    requires c.enableNameIndex && !c.allowDuplicateNames
    requires Consistent(c, r) && UniqueNames(r.sessions)
    ensures UniqueNames(Step(c, r, op).sessions) <==> !TakesName(r, op)
  {
    match op
    case DoRegister(m) =>
      if NameTaken(r, m.name) && |r.sessions| < c.maxSessions {
        DuplicateRefusedIffIndexed(c, r, m);
      }
    case DoUnregister(_) =>
    case DoUpdate(id, m) =>
      if id in r.sessions && m.id == id { RenameKeepsUniqueIff(r.sessions, id, m); }
    case DoUpdateStatus(id, status, now) =>
      if id in r.sessions { assert r.sessions[id].SetStatus(status, now).name == r.sessions[id].name; }
    case DoMarkUsed(id, now) =>
      if id in r.sessions { assert r.sessions[id].MarkUsed(now).name == r.sessions[id].name; }
    case DoClear =>
  }

  /** Names are unique in every state of a run. */
  ghost predicate AlwaysUnique(c: RegistryConfig, r: RegistryState, ops: seq<RegistryOp>)
    decreases |ops|
  {
    UniqueNames(r.sessions) && (ops == [] || AlwaysUnique(c, Step(c, r, ops[0]), ops[1..]))
  }

  /** No update of a run gives a session the name another one has at that moment. */
  ghost predicate NeverTakesName(c: RegistryConfig, r: RegistryState, ops: seq<RegistryOp>)
    decreases |ops|
  {
    ops == [] || (!TakesName(r, ops[0]) && NeverTakesName(c, Step(c, r, ops[0]), ops[1..]))
  }

  /** Main result: with the index on and duplicates disallowed, names stay unique throughout a run exactly when no
      metadata update gives a session the name of another one. */
  lemma {:induction false} NamesStayUnique(c: RegistryConfig, r: RegistryState, ops: seq<RegistryOp>)
    requires c.enableNameIndex && !c.allowDuplicateNames
    requires Consistent(c, r) && FreshIds(c, r, ops) && UniqueNames(r.sessions)
    ensures AlwaysUnique(c, r, ops) <==> NeverTakesName(c, r, ops)
    decreases |ops|
  {
    if ops == [] {
    } else {
      StepConsistent(c, r, ops[0]);
      StepKeepsNamesUniqueIff(c, r, ops[0]);
      var next := Step(c, r, ops[0]);
      if UniqueNames(next.sessions) {
        NamesStayUnique(c, next, ops[1..]);
      } else {
        assert !AlwaysUnique(c, next, ops[1..]);
      }
    }
  }
}
