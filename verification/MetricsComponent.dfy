/** The metrics collector as the source keeps it: counters, history and samples updated in place. */
module MetricsComponent {
  import opened Common
  import opened Transport
  import opened Session
  import X = Metrics

  class SessionMetricsCollector {
    var totalSessionsCreated: nat
    var successfulConnections: nat
    var failedConnections: nat
    var sessionsClosed: nat
    var activeSessions: nat
    var idleSessions: nat
    var failedSessions: nat
    var transportUsage: map<TransportType, nat>
    var peakConcurrentSessions: nat
    var totalUsageCount: nat
    var sessionHistory: X.History
    var lifetimeSamples: seq<nat>
    var idleTimeSamples: seq<nat>
    var avgSessionLifetime: nat
    var avgIdleTime: nat

    ghost function State(): X.MetricsState
      reads this
    {
      X.MetricsState(totalSessionsCreated, successfulConnections, failedConnections, sessionsClosed,
                     activeSessions, idleSessions, failedSessions, transportUsage, peakConcurrentSessions,
                     totalUsageCount, sessionHistory, lifetimeSamples, idleTimeSamples, avgSessionLifetime, avgIdleTime)
    }

    constructor ()
      ensures State() == X.EMPTY
    {
      totalSessionsCreated, successfulConnections, failedConnections, sessionsClosed := 0, 0, 0, 0;
      activeSessions, idleSessions, failedSessions, peakConcurrentSessions, totalUsageCount := 0, 0, 0, 0, 0;
      transportUsage, sessionHistory := map[], map[];
      lifetimeSamples, idleTimeSamples, avgSessionLifetime, avgIdleTime := [], [], 0, 0;
    }

    method RecordSessionCreated(m: SessionMetadata)
      modifies this
      ensures State() == X.RecordCreated(old(State()), m)
    {
      totalSessionsCreated := totalSessionsCreated + 1;
      var kind := m.transport.transportType;
      var used := if kind in transportUsage then transportUsage[kind] else 0;
      transportUsage := transportUsage[kind := used + 1];
      sessionHistory := sessionHistory[m.id := X.HistoryEntry(m.createdAt, None, kind, 0, 0, false)];
    }

    /** The status change followed by the connection outcome that `update_session_status` records with it. */
    method RecordStatusChange(from: SessionStatus, to: SessionStatus)
      modifies this
      ensures State() == X.RecordConnection(X.RecordStatusChange(old(State()), from, to), from, to)
    {
      LeaveStatus(from);
      match to {
        case Active =>
          activeSessions := activeSessions + 1;
          if activeSessions + idleSessions > peakConcurrentSessions {
            peakConcurrentSessions := activeSessions + idleSessions;
          }
        case Idle => idleSessions := idleSessions + 1;
        case Failed => failedSessions := failedSessions + 1;
        case _ =>
      }
      if from == Connecting || from == Reconnecting {
        if to == Active {
          successfulConnections := successfulConnections + 1;
        } else if to == Failed {
          failedConnections := failedConnections + 1;
        }
      }
    }

    method RecordSessionUsage(id: SessionId, count: nat)
      modifies this
      ensures State() == X.RecordUsage(old(State()), id, count)
    {
      totalUsageCount := totalUsageCount + 1;
      if id in sessionHistory {
        var entry := sessionHistory[id].(useCount := count);
        if count > 1 {
          entry := entry.(wasReused := true);
        }
        sessionHistory := sessionHistory[id := entry];
      }
    }

    method RecordSessionClosed(m: SessionMetadata, now: Time)
      modifies this
      ensures State() == X.RecordClosed(old(State()), m, now)
    {
      ghost var before := State();
      sessionsClosed := sessionsClosed + 1;
      assert State() == X.CountClosed(before);
      LeaveStatus(m.status);
      TakeSamples(m, now);
      UpdateAverages();
    }

    method LeaveStatus(status: SessionStatus)
      modifies this`activeSessions, this`idleSessions, this`failedSessions
      ensures State() == X.Leave(old(State()), status)
    {
      match status {
        case Active => activeSessions := SaturatingSub(activeSessions, 1);
        case Idle => idleSessions := SaturatingSub(idleSessions, 1);
        case Failed => failedSessions := SaturatingSub(failedSessions, 1);
        case _ =>
      }
    }

    method TakeSamples(m: SessionMetadata, now: Time)
      modifies this`sessionHistory, this`lifetimeSamples, this`idleTimeSamples
      ensures State() == X.SampleClosed(old(State()), m, now)
    {
      if m.id !in sessionHistory {
        return;
      }
      var entry := sessionHistory[m.id];
      if now >= entry.createdAt {
        lifetimeSamples := X.AddSample(lifetimeSamples, now - entry.createdAt, X.MAX_SAMPLES);
      }
      idleTimeSamples := X.AddSample(idleTimeSamples, m.IdleTime(now), X.MAX_SAMPLES);
      sessionHistory := sessionHistory[m.id := entry.(closedAt := Some(now), totalIdleTime := m.IdleTime(now))];
    }

    method UpdateAverages()
      modifies this`avgSessionLifetime, this`avgIdleTime
      ensures State() == X.UpdateAverages(old(State()))
    {
      if lifetimeSamples != [] {
        avgSessionLifetime := X.Sum(lifetimeSamples) / |lifetimeSamples|;
      }
      if idleTimeSamples != [] {
        avgIdleTime := X.Sum(idleTimeSamples) / |idleTimeSamples|;
      }
    }

    method CleanupOldHistory(maxAge: nat, now: Time)
      modifies this`sessionHistory
      ensures State() == X.CleanupOldHistory(old(State()), maxAge, now)
    {
      sessionHistory := map id | id in sessionHistory && !X.Forgotten(sessionHistory[id], maxAge, now)
                          :: sessionHistory[id];
    }
  }
}
