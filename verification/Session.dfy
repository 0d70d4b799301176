/** Session metadata, statuses and the expiry rules of the lifecycle manager. */
module Session {
  import opened Common
  import opened Transport

  /** Sessions carry random UUIDs; only their identity matters here. */
  type SessionId = nat

  datatype SessionStatus = Creating | Connecting | Active | Idle | Reconnecting | Failed | Closing | Closed

  datatype SessionPriority = Low | Normal | High | Critical

  datatype SessionMetadata = SessionMetadata(
    id: SessionId,
    name: string,
    transport: TransportConfig,
    status: SessionStatus,
    priority: SessionPriority,
    createdAt: Time,
    lastUsed: Time,
    useCount: nat,
    tags: seq<string>,
    description: Option<string>)
  {
    function MarkUsed(now: Time): SessionMetadata {
      this.(lastUsed := now, useCount := useCount + 1)
    }

    function SetStatus(to: SessionStatus, now: Time): SessionMetadata {
      if to == Active || to == Idle then this.(status := to, lastUsed := now) else this.(status := to)
    }

    function Age(now: Time): nat {
      Elapsed(now, createdAt)
    }

    function IdleTime(now: Time): nat {
      Elapsed(now, lastUsed)
    }

    function Key(): string {
      ConnectionKey(transport)
    }
  }

  datatype LifecycleConfig = LifecycleConfig(
    maxIdleTime: nat,
    maxSessionLifetime: nat,
    enableAutoReconnect: bool)

  predicate ShouldExpire(c: LifecycleConfig, m: SessionMetadata, now: Time) {
    || (m.status == Idle && m.IdleTime(now) > c.maxIdleTime)
    || m.Age(now) > c.maxSessionLifetime
    || m.status == Failed
  }

  predicate ShouldReconnect(c: LifecycleConfig, m: SessionMetadata, now: Time) {
    && c.enableAutoReconnect
    && m.status == Failed
    && m.Age(now) <= c.maxSessionLifetime
    && m.IdleTime(now) <= c.maxIdleTime
  }
}
