/** The metrics collector: counters and gauges adjusted step by step, a history entry per session and two sliding
    windows of samples (crates/core/src/session/metrics.rs). */
module Metrics {
  import opened Common
  import opened Transport
  import opened Session

  datatype HistoryEntry = HistoryEntry(
    createdAt: Time,
    closedAt: Option<Time>,
    transportType: TransportType,
    useCount: nat,
    totalIdleTime: nat,
    wasReused: bool)

  type History = map<SessionId, HistoryEntry>

  datatype MetricsState = MetricsState(
    totalSessionsCreated: nat,
    successfulConnections: nat,
    failedConnections: nat,
    sessionsClosed: nat,
    activeSessions: nat,
    idleSessions: nat,
    failedSessions: nat,
    transportUsage: map<TransportType, nat>,
    peakConcurrentSessions: nat,
    totalUsageCount: nat,
    history: History,
    lifetimeSamples: seq<nat>,
    idleTimeSamples: seq<nat>,
    avgSessionLifetime: nat,
    avgIdleTime: nat)

  const EMPTY := MetricsState(0, 0, 0, 0, 0, 0, 0, map[], 0, 0, map[], [], [], 0, 0)

  const MAX_SAMPLES: nat := 1000
  const MAX_HISTORY_AGE: nat := 86400 * SECOND

  // ----- What each record_* method does -----

  function RecordCreated(x: MetricsState, m: SessionMetadata): MetricsState {
    var kind := m.transport.transportType;
    x.(totalSessionsCreated := x.totalSessionsCreated + 1,
       transportUsage := x.transportUsage[kind := (if kind in x.transportUsage then x.transportUsage[kind] else 0) + 1],
       history := x.history[m.id := HistoryEntry(m.createdAt, None, kind, 0, 0, false)])
  }

  function Leave(x: MetricsState, status: SessionStatus): MetricsState {
    match status
    case Active => x.(activeSessions := SaturatingSub(x.activeSessions, 1))
    case Idle => x.(idleSessions := SaturatingSub(x.idleSessions, 1))
    case Failed => x.(failedSessions := SaturatingSub(x.failedSessions, 1))
    case _ => x
  }

  /** Only a change to Active looks at the peak. */
  function Enter(x: MetricsState, status: SessionStatus): MetricsState {
    match status
    case Active =>
      x.(activeSessions := x.activeSessions + 1,
         peakConcurrentSessions := Max(x.peakConcurrentSessions, x.activeSessions + 1 + x.idleSessions))
    case Idle => x.(idleSessions := x.idleSessions + 1)
    case Failed => x.(failedSessions := x.failedSessions + 1)
    case _ => x
  }

  function RecordStatusChange(x: MetricsState, from: SessionStatus, to: SessionStatus): MetricsState {
    Enter(Leave(x, from), to)
  }

  function RecordConnection(x: MetricsState, from: SessionStatus, to: SessionStatus): MetricsState {
    if from != Connecting && from != Reconnecting then x
    else if to == Active then x.(successfulConnections := x.successfulConnections + 1)
    else if to == Failed then x.(failedConnections := x.failedConnections + 1)
    else x
  }

  function RecordUsage(x: MetricsState, id: SessionId, count: nat): MetricsState {
    x.(totalUsageCount := x.totalUsageCount + 1,
       history := if id !in x.history then x.history else
                    var entry := x.history[id];
                    x.history[id := entry.(useCount := count, wasReused := entry.wasReused || count > 1)])
  }

  function AddSample(samples: seq<nat>, sample: nat, maxSize: nat): seq<nat> {
    var grown := samples + [sample];
    if |grown| > maxSize then grown[1..] else grown
  }

  function Sum(samples: seq<nat>): nat {
    if samples == [] then 0 else Sum(samples[..|samples| - 1]) + samples[|samples| - 1]
  }

  lemma {:induction false} SumJoins(a: seq<nat>, b: seq<nat>)
    ensures Sum(a + b) == Sum(a) + Sum(b)
  {
    if b == [] {
      assert a + b == a;
    } else {
      assert (a + b)[..|a + b| - 1] == a + b[..|b| - 1];
      SumJoins(a, b[..|b| - 1]);
    }
  }

  /** The sum is that of the single samples, in any grouping; the average is their mean, rounded down. */
  lemma AverageIsMean(samples: seq<nat>, last: nat, previous: nat)
    ensures Sum([]) == 0 && Sum(samples + [last]) == Sum(samples) + last
    ensures samples != [] ==>
              var average := Average(samples, previous);
              average * |samples| <= Sum(samples) < (average + 1) * |samples|
    ensures Average([], previous) == previous
  {
    assert (samples + [last])[..|samples|] == samples;
    if samples != [] {
      MeanBounds(Sum(samples), |samples|);
    }
  }

  lemma MeanBounds(sum: nat, n: nat)
    requires n > 0
    ensures (sum / n) * n <= sum < (sum / n + 1) * n
  {
    assert sum == (sum / n) * n + sum % n;
    assert (sum / n + 1) * n == (sum / n) * n + n;
  }

  function Average(samples: seq<nat>, previous: nat): nat {
    if samples == [] then previous else Sum(samples) / |samples|
  }

  function SampleClosed(x: MetricsState, m: SessionMetadata, now: Time): MetricsState {
    if m.id !in x.history then x else
      var entry := x.history[m.id];
      x.(history := x.history[m.id := entry.(closedAt := Some(now), totalIdleTime := m.IdleTime(now))],
         lifetimeSamples :=
           if now >= entry.createdAt then AddSample(x.lifetimeSamples, now - entry.createdAt, MAX_SAMPLES)
           else x.lifetimeSamples,
         idleTimeSamples := AddSample(x.idleTimeSamples, m.IdleTime(now), MAX_SAMPLES))
  }

  function UpdateAverages(x: MetricsState): MetricsState {
    x.(avgSessionLifetime := Average(x.lifetimeSamples, x.avgSessionLifetime),
       avgIdleTime := Average(x.idleTimeSamples, x.avgIdleTime))
  }

  function CountClosed(x: MetricsState): MetricsState {
    x.(sessionsClosed := x.sessionsClosed + 1)
  }

  function RecordClosed(x: MetricsState, m: SessionMetadata, now: Time): MetricsState {
    UpdateAverages(SampleClosed(Leave(CountClosed(x), m.status), m, now))
  }

  ghost predicate SameGauges(x: MetricsState, y: MetricsState) {
    y.activeSessions == x.activeSessions && y.idleSessions == x.idleSessions && y.failedSessions == x.failedSessions
    && y.peakConcurrentSessions == x.peakConcurrentSessions
  }

  lemma SamplingKeepsGauges(x: MetricsState, m: SessionMetadata, now: Time)
    ensures SameGauges(x, SampleClosed(x, m, now))
  {
  }

  lemma AveragesKeepGauges(x: MetricsState)
    ensures SameGauges(x, UpdateAverages(x))
  {
  }

  lemma LeavingLowersGauges(x: MetricsState, status: SessionStatus)
    ensures var y := Leave(x, status);
            && y.peakConcurrentSessions == x.peakConcurrentSessions
            && y.activeSessions == SaturatingSub(x.activeSessions, if status == Active then 1 else 0)
            && y.idleSessions == SaturatingSub(x.idleSessions, if status == Idle then 1 else 0)
            && y.failedSessions == SaturatingSub(x.failedSessions, if status == Failed then 1 else 0)
  {
  }

  /** A closure lowers at most the gauge of the session's status and leaves the peak alone. */
  lemma ClosedLowersGauges(x: MetricsState, m: SessionMetadata, now: Time)
    ensures var y := RecordClosed(x, m, now);
            && y.peakConcurrentSessions == x.peakConcurrentSessions
            && y.activeSessions == SaturatingSub(x.activeSessions, if m.status == Active then 1 else 0)
            && y.idleSessions == SaturatingSub(x.idleSessions, if m.status == Idle then 1 else 0)
            && y.failedSessions == SaturatingSub(x.failedSessions, if m.status == Failed then 1 else 0)
  {
    var counted := CountClosed(x);
    LeavingLowersGauges(counted, m.status);
    var left := Leave(counted, m.status);
    SamplingKeepsGauges(left, m, now);
    AveragesKeepGauges(SampleClosed(left, m, now));
  }

  lemma SamplingKeepsOutcomes(x: MetricsState, m: SessionMetadata, now: Time)
    ensures var y := SampleClosed(x, m, now);
            y.successfulConnections == x.successfulConnections && y.failedConnections == x.failedConnections
  {
  }

  lemma ClosedKeepsOutcomes(x: MetricsState, m: SessionMetadata, now: Time)
    ensures var y := RecordClosed(x, m, now);
            y.successfulConnections == x.successfulConnections && y.failedConnections == x.failedConnections
  {
    var left := Leave(CountClosed(x), m.status);
    assert left.successfulConnections == x.successfulConnections && left.failedConnections == x.failedConnections;
    SamplingKeepsOutcomes(left, m, now);
  }

  lemma ClosedCounts(x: MetricsState, m: SessionMetadata, now: Time)
    ensures var y := RecordClosed(x, m, now);
            && y.sessionsClosed == x.sessionsClosed + 1 && y.totalSessionsCreated == x.totalSessionsCreated
            && y.transportUsage == x.transportUsage
            && y.history == SampleClosed(x, m, now).history
  {
    var left := Leave(CountClosed(x), m.status);
    assert left.history == x.history;
    assert SampleClosed(left, m, now).history == SampleClosed(x, m, now).history;
  }

  predicate Forgotten(entry: HistoryEntry, maxAge: nat, now: Time) {
    entry.closedAt.Some? && now >= entry.closedAt.value && now - entry.closedAt.value > maxAge
  }

  function CleanupOldHistory(x: MetricsState, maxAge: nat, now: Time): MetricsState {
    x.(history := map id | id in x.history && !Forgotten(x.history[id], maxAge, now) :: x.history[id])
  }

  // ----- The sample windows -----

  function AddSamples(samples: seq<nat>, added: seq<nat>, maxSize: nat): seq<nat> {
    if added == [] then samples
    else AddSample(AddSamples(samples, added[..|added| - 1], maxSize), added[|added| - 1], maxSize)
  }

  /** The last `size` elements of `s`, or all of them. */
  function Latest(s: seq<nat>, size: nat): (window: seq<nat>)
    ensures |window| == Min(|s|, size)
  {
    if |s| <= size then s else s[|s| - size..]
  }

  lemma LatestSlides(s: seq<nat>, last: nat, size: nat)
    requires size > 0
    ensures AddSample(Latest(s, size), last, size) == Latest(s + [last], size)
  {
    if |s| >= size {
      var window := s[|s| - size..];
      assert (window + [last])[1..] == (s + [last])[|s| + 1 - size..];
    }
  }

  /** After any number of closures the window holds the most recent samples, oldest first. */
  lemma {:induction false} WindowKeepsLatest(added: seq<nat>, maxSize: nat)
    requires maxSize > 0
    ensures AddSamples([], added, maxSize) == Latest(added, maxSize)
  {
    if added == [] {
    } else {
      var before, last := added[..|added| - 1], added[|added| - 1];
      WindowKeepsLatest(before, maxSize);
      LatestSlides(before, last, maxSize);
      assert before + [last] == added;
    }
  }

  // ----- Uses recorded in the history -----

  ghost function UseCounts(h: History): map<SessionId, nat> {
    map id | id in h :: h[id].useCount
  }

  /** The uses of all sessions the history still knows, open or closed. */
  ghost function HistoryUses(h: History): nat {
    MapSum(UseCounts(h))
  }

  lemma HistoryUsesPut(h: History, id: SessionId, entry: HistoryEntry)
    ensures HistoryUses(h[id := entry]) == HistoryUses(h) - (if id in h then h[id].useCount else 0) + entry.useCount
  {
    assert UseCounts(h[id := entry]) == UseCounts(h)[id := entry.useCount];
    MapSumUpdate(UseCounts(h), id, entry.useCount);
  }

  lemma SamplingKeepsUses(x: MetricsState, m: SessionMetadata, now: Time)
    ensures HistoryUses(SampleClosed(x, m, now).history) == HistoryUses(x.history)
    ensures SampleClosed(x, m, now).totalUsageCount == x.totalUsageCount
  {
    if m.id in x.history {
      var entry := x.history[m.id];
      HistoryUsesPut(x.history, m.id, entry.(closedAt := Some(now), totalIdleTime := m.IdleTime(now)));
    }
  }

  lemma ClosedKeepsUses(x: MetricsState, m: SessionMetadata, now: Time)
    ensures HistoryUses(RecordClosed(x, m, now).history) == HistoryUses(x.history)
    ensures RecordClosed(x, m, now).totalUsageCount == x.totalUsageCount
  {
    var left := Leave(CountClosed(x), m.status);
    assert left.history == x.history && left.totalUsageCount == x.totalUsageCount;
    SamplingKeepsUses(left, m, now);
  }

  ghost function ForgottenIds(h: History, maxAge: nat, now: Time): set<SessionId> {
    set id | id in h && Forgotten(h[id], maxAge, now)
  }

  /** The uses of the closed sessions whose entries one cleanup throws away. */
  ghost function EvictedUses(h: History, maxAge: nat, now: Time): nat {
    MapSum(Restrict(UseCounts(h), ForgottenIds(h, maxAge, now)))
  }

  lemma CleanupSplitsUses(x: MetricsState, maxAge: nat, now: Time)
    ensures HistoryUses(x.history)
         == HistoryUses(CleanupOldHistory(x, maxAge, now).history) + EvictedUses(x.history, maxAge, now)
  {
    var gone := ForgottenIds(x.history, maxAge, now);
    MapSumSplit(UseCounts(x.history), gone);
    assert UseCounts(CleanupOldHistory(x, maxAge, now).history) == UseCounts(x.history) - gone;
  }
}
