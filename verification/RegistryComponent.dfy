/** The registry as the source keeps it: one object whose three maps are updated in place. */
module RegistryComponent {
  import opened Common
  import opened Session
  import opened IdIndex
  import R = Registry

  class SessionRegistry {
    const config: R.RegistryConfig
    var sessions: R.Sessions
    var nameIndex: Index
    var connectionIndex: Index

    ghost function State(): R.RegistryState
      reads this
    {
      R.RegistryState(sessions, nameIndex, connectionIndex)
    }

    constructor (config: R.RegistryConfig)
      ensures this.config == config && State() == R.EMPTY && R.Consistent(config, State())
    {
      this.config := config;
      sessions, nameIndex, connectionIndex := map[], map[], map[];
    }

    method Register(m: SessionMetadata) returns (r: Result<SessionId, R.RegistryError>)
      modifies this
      ensures (State(), r) == R.Register(config, old(State()), m)
      ensures R.Consistent(config, old(State())) && m.id !in old(sessions) ==> R.Consistent(config, State())
    {
      if R.Consistent(config, State()) && m.id !in sessions { R.InsertConsistent(config, State(), m); }
      if |sessions| >= config.maxSessions {
        return Err(R.MaxSessionsReached(config.maxSessions));
      }
      if !config.allowDuplicateNames && m.name in nameIndex && nameIndex[m.name] != [] {
        return Err(R.AlreadyExists(m.name));
      }
      var metadata := m;
      if metadata.status == Creating {
        metadata := metadata.(status := Connecting);
      }
      sessions := sessions[m.id := metadata];
      if config.enableNameIndex {
        nameIndex := Push(nameIndex, m.name, m.id);
      }
      connectionIndex := Push(connectionIndex, m.Key(), m.id);
      r := Ok(m.id);
    }

    method Unregister(id: SessionId) returns (r: Option<SessionMetadata>)
      modifies this
      ensures (State(), r) == R.Unregister(config, old(State()), id)
      ensures R.Consistent(config, old(State())) ==> R.Consistent(config, State())
    {
      if R.Consistent(config, State()) { R.UnregisterConsistent(config, State(), id); }
      if id !in sessions {
        return None;
      }
      var metadata := sessions[id];
      sessions := sessions - {id};
      if config.enableNameIndex {
        nameIndex := Erase(nameIndex, metadata.name, id);
      }
      connectionIndex := Erase(connectionIndex, metadata.Key(), id);
      r := Some(metadata);
    }

    method Update(id: SessionId, m: SessionMetadata) returns (e: Option<R.RegistryError>)
      modifies this
      ensures (State(), e) == R.Update(config, old(State()), id, m)
      ensures R.Consistent(config, old(State())) ==> R.Consistent(config, State())
    {
      if R.Consistent(config, State()) { R.UpdateConsistent(config, State(), id, m); }
      if m.id != id {
        return Some(R.InvalidState);
      }
      if id !in sessions {
        return Some(R.NotFound(id));
      }
      var was := sessions[id];
      if was.Key() != m.Key() {
        connectionIndex := Erase(connectionIndex, was.Key(), id);
        connectionIndex := Push(connectionIndex, m.Key(), id);
      }
      if config.enableNameIndex && was.name != m.name {
        nameIndex := Erase(nameIndex, was.name, id);
        nameIndex := Push(nameIndex, m.name, id);
      }
      sessions := sessions[id := m];
      e := None;
    }

    method UpdateStatus(id: SessionId, status: SessionStatus, now: Time) returns (e: Option<R.RegistryError>)
      modifies this`sessions
      ensures (State(), e) == R.UpdateStatus(old(State()), id, status, now)
      ensures R.Consistent(config, old(State())) ==> R.Consistent(config, State())
    {
      if R.Consistent(config, State()) { R.StepConsistent(config, State(), R.DoUpdateStatus(id, status, now)); }
      if id !in sessions {
        return Some(R.NotFound(id));
      }
      sessions := sessions[id := sessions[id].SetStatus(status, now)];
      e := None;
    }

    method MarkUsed(id: SessionId, now: Time) returns (e: Option<R.RegistryError>)
      modifies this`sessions
      ensures (State(), e) == R.MarkUsed(old(State()), id, now)
      ensures R.Consistent(config, old(State())) ==> R.Consistent(config, State())
    {
      if R.Consistent(config, State()) { R.StepConsistent(config, State(), R.DoMarkUsed(id, now)); }
      if id !in sessions {
        return Some(R.NotFound(id));
      }
      sessions := sessions[id := sessions[id].MarkUsed(now)];
      e := None;
    }
  }
}
