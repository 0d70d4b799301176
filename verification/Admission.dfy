/** Limits under races: a limit is checked under one lock and the insertion done under another, so several tasks can
    pass the check before any of them inserts (crates/core/src/session/registry.rs, pool.rs;
    crates/client/src/daemon/server.rs). */
module Admission {
  import opened Common
  import opened Session
  import opened IdIndex
  import R = Registry
  import P = Pool

  type TaskId = nat

  /** A task between a passed check and its insertion. */
  datatype Pending = Registering(m: SessionMetadata) | Pooling(m: SessionMetadata)

  datatype Race = Race(reg: R.RegistryState, pool: P.PoolState, tasks: map<TaskId, Pending>)

  datatype Limits = Limits(registry: R.RegistryConfig, pool: P.PoolConfig, inFlight: nat)

  datatype Step =
    | CheckRegistry(t: TaskId, m: SessionMetadata)
    | InsertSession(t: TaskId)
    | CheckPool(t: TaskId, m: SessionMetadata)
    | InsertPooled(t: TaskId, now: Time)
    | Unregister(id: SessionId)
    | Unpool(id: SessionId)

  ghost predicate Enabled(c: Limits, s: Race, step: Step) {
    match step
    case CheckRegistry(t, m) => t !in s.tasks && |s.tasks| < c.inFlight && R.Admission(c.registry, s.reg, m.name).None?
    case InsertSession(t) => t in s.tasks && s.tasks[t].Registering?
    case CheckPool(t, m) => t !in s.tasks && |s.tasks| < c.inFlight && P.Accepts(c.pool, s.pool, m)
    case InsertPooled(t, _) => t in s.tasks && s.tasks[t].Pooling?
    case Unregister(_) => true
    case Unpool(_) => true
  }

  ghost function Take(c: Limits, s: Race, step: Step): Race
    requires Enabled(c, s, step)
  {
    match step
    case CheckRegistry(t, m) => s.(tasks := s.tasks[t := Registering(m)])
    case InsertSession(t) => s.(reg := R.Insert(c.registry, s.reg, s.tasks[t].m), tasks := s.tasks - {t})
    case CheckPool(t, m) => s.(tasks := s.tasks[t := Pooling(m)])
    case InsertPooled(t, now) => s.(pool := P.Insert(s.pool, s.tasks[t].m, now), tasks := s.tasks - {t})
    case Unregister(id) => s.(reg := R.Unregister(c.registry, s.reg, id).0)
    case Unpool(id) => s.(pool := P.RemoveSession(s.pool, id))
  }

  ghost predicate IsRun(c: Limits, s: Race, steps: seq<Step>)
    decreases |steps|
  {
    steps == [] || (Enabled(c, s, steps[0]) && IsRun(c, Take(c, s, steps[0]), steps[1..]))
  }

  ghost function After(c: Limits, s: Race, steps: seq<Step>): Race
    requires IsRun(c, s, steps)
    decreases |steps|
  {
    if steps == [] then s else After(c, Take(c, s, steps[0]), steps[1..])
  }

  // ----- The bounds -----

  ghost function Matching(tasks: map<TaskId, Pending>, kind: Pending -> bool): set<TaskId> {
    set t | t in tasks && kind(tasks[t])
  }

  ghost function ForRegistry(): Pending -> bool {
    (p: Pending) => p.Registering?
  }

  ghost function ForPool(): Pending -> bool {
    (p: Pending) => p.Pooling?
  }

  ghost function ForKey(key: string): Pending -> bool {
    (p: Pending) => p.Pooling? && p.m.Key() == key
  }

  /** What is there plus what has been promised stays one below the limit plus the number of tasks. */
  ghost predicate Bounded(c: Limits, s: Race) {
    && |s.tasks| <= c.inFlight
    && |s.reg.sessions| + |Matching(s.tasks, ForRegistry())| <= c.registry.maxSessions + c.inFlight - 1
    && |s.pool.meta| + |Matching(s.tasks, ForPool())| <= c.pool.maxTotalSessions + c.inFlight - 1
    && forall key :: |Ids(s.pool.pools, key)| + |Matching(s.tasks, ForKey(key))|
                     <= Max(1, c.pool.maxSessionsPerConnection) + c.inFlight - 1
  }

  lemma SubsetSize<T>(a: set<T>, b: set<T>)
    requires a <= b
    ensures |a| <= |b|
  {
    assert b == a + (b - a);
  }

  lemma TaskRemoved(tasks: map<TaskId, Pending>, t: TaskId, kind: Pending -> bool)
    requires t in tasks
    ensures |tasks - {t}| == |tasks| - 1
    ensures |Matching(tasks - {t}, kind)| == |Matching(tasks, kind)| - (if kind(tasks[t]) then 1 else 0)
  {
    assert (tasks - {t}).Keys == tasks.Keys - {t};
    assert Matching(tasks - {t}, kind) == Matching(tasks, kind) - (if kind(tasks[t]) then {t} else {});
  }

  lemma TaskAdded(tasks: map<TaskId, Pending>, t: TaskId, p: Pending, kind: Pending -> bool)
    requires t !in tasks
    ensures |tasks[t := p]| == |tasks| + 1
    ensures |Matching(tasks[t := p], kind)| == |Matching(tasks, kind)| + (if kind(p) then 1 else 0)
  {
    var more := tasks[t := p];
    assert more - {t} == tasks;
    TaskRemoved(more, t, kind);
  }

  /** Before a check there are fewer than `inFlight` promises of any kind. */
  lemma FewPromises(c: Limits, tasks: map<TaskId, Pending>, kind: Pending -> bool)
    requires |tasks| < c.inFlight
    ensures |Matching(tasks, kind)| <= c.inFlight - 1
  {
    SubsetSize(Matching(tasks, kind), tasks.Keys);
  }

  lemma CheckKeepsBounds(c: Limits, s: Race, step: Step)
    requires Bounded(c, s) && Enabled(c, s, step) && (step.CheckRegistry? || step.CheckPool?)
    ensures Bounded(c, Take(c, s, step))
  {
    var p := if step.CheckRegistry? then Registering(step.m) else Pooling(step.m);
    TaskAdded(s.tasks, step.t, p, ForRegistry());
    TaskAdded(s.tasks, step.t, p, ForPool());
    FewPromises(c, s.tasks, ForRegistry());
    FewPromises(c, s.tasks, ForPool());
    forall key ensures |Ids(s.pool.pools, key)| + |Matching(s.tasks[step.t := p], ForKey(key))|
                       <= Max(1, c.pool.maxSessionsPerConnection) + c.inFlight - 1 {
      TaskAdded(s.tasks, step.t, p, ForKey(key));
      FewPromises(c, s.tasks, ForKey(key));
    }
  }

  lemma InsertSessionKeepsBounds(c: Limits, s: Race, t: TaskId)
    requires Bounded(c, s) && t in s.tasks && s.tasks[t].Registering?
    ensures Bounded(c, Take(c, s, InsertSession(t)))
  {
    var m := s.tasks[t].m;
    assert s.reg.sessions[m.id := R.Admitted(m)].Keys == s.reg.sessions.Keys + {m.id};
    TaskRemoved(s.tasks, t, ForRegistry());
    TaskRemoved(s.tasks, t, ForPool());
    forall key ensures |Matching(s.tasks - {t}, ForKey(key))| == |Matching(s.tasks, ForKey(key))| {
      TaskRemoved(s.tasks, t, ForKey(key));
    }
  }

  /** The promise for a key becomes an entry of its list. */
  lemma PromiseKept(c: Limits, s: Race, t: TaskId, now: Time, key: string)
    requires t in s.tasks && s.tasks[t].Pooling?
    ensures var s' := Take(c, s, InsertPooled(t, now));
            |Ids(s'.pool.pools, key)| + |Matching(s'.tasks, ForKey(key))|
            == |Ids(s.pool.pools, key)| + |Matching(s.tasks, ForKey(key))|
  {
    TaskRemoved(s.tasks, t, ForKey(key));
    var m := s.tasks[t].m;
    assert Ids(P.Insert(s.pool, m, now).pools, key)
        == if m.Key() == key then Ids(s.pool.pools, key) + [m.id] else Ids(s.pool.pools, key);
  }

  lemma InsertPooledKeepsBounds(c: Limits, s: Race, t: TaskId, now: Time)
    requires Bounded(c, s) && t in s.tasks && s.tasks[t].Pooling?
    ensures Bounded(c, Take(c, s, InsertPooled(t, now)))
  {
    var s' := Take(c, s, InsertPooled(t, now));
    assert s'.pool.meta.Keys == s.pool.meta.Keys + {s.tasks[t].m.id};
    TaskRemoved(s.tasks, t, ForRegistry());
    TaskRemoved(s.tasks, t, ForPool());
    forall key ensures |Ids(s'.pool.pools, key)| + |Matching(s'.tasks, ForKey(key))|
                       <= Max(1, c.pool.maxSessionsPerConnection) + c.inFlight - 1 {
      PromiseKept(c, s, t, now, key);
    }
  }

  /** A removal really makes room for one more. */
  lemma RemovalsMakeRoom(c: Limits, s: Race, id: SessionId)
    ensures Take(c, s, Unregister(id)).reg.sessions == s.reg.sessions - {id}
    ensures P.Mirror(s.pool) ==> P.Erases(s.pool, Take(c, s, Unpool(id)).pool, {id})
  {
    assert id !in s.reg.sessions ==> s.reg.sessions - {id} == s.reg.sessions;
    if P.Mirror(s.pool) {
      P.RemoveErases(s.pool, id);
    }
  }

  lemma RemovalKeepsBounds(c: Limits, s: Race, step: Step)
    requires Bounded(c, s) && (step.Unregister? || step.Unpool?)
    ensures Bounded(c, Take(c, s, step))
  {
    var s' := Take(c, s, step);
    if step.Unregister? {
      SubsetSize(s'.reg.sessions.Keys, s.reg.sessions.Keys);
    } else {
      SubsetSize(s'.pool.meta.Keys, s.pool.meta.Keys);
      forall key ensures |Ids(s'.pool.pools, key)| <= |Ids(s.pool.pools, key)| {}
    }
  }

  lemma {:induction false} RunKeepsBounds(c: Limits, s: Race, steps: seq<Step>)
    requires Bounded(c, s) && IsRun(c, s, steps)
    ensures Bounded(c, After(c, s, steps))
    decreases |steps|
  {
    if steps == [] {
    } else {
      match steps[0] {
        case CheckRegistry(_, _) => CheckKeepsBounds(c, s, steps[0]);
        case CheckPool(_, _) => CheckKeepsBounds(c, s, steps[0]);
        case InsertSession(t) => InsertSessionKeepsBounds(c, s, t);
        case InsertPooled(t, now) => InsertPooledKeepsBounds(c, s, t, now);
        case Unregister(_) => RemovalKeepsBounds(c, s, steps[0]);
        case Unpool(_) => RemovalKeepsBounds(c, s, steps[0]);
      }
      RunKeepsBounds(c, Take(c, s, steps[0]), steps[1..]);
    }
  }

  const START := Race(R.EMPTY, P.EMPTY, map[])

  /** Main result: with at most `inFlight` tasks the limits are exceeded by at most `inFlight` - 1, so with one task
      they are exact (a per-key limit of zero acts as one). */
  lemma LimitsUnderRaces(c: Limits, steps: seq<Step>)
    requires c.inFlight >= 1 && IsRun(c, START, steps)
    ensures var s := After(c, START, steps);
            && |s.reg.sessions| <= c.registry.maxSessions + c.inFlight - 1
            && |s.pool.meta| <= c.pool.maxTotalSessions + c.inFlight - 1
            && forall key :: |Ids(s.pool.pools, key)| <= Max(1, c.pool.maxSessionsPerConnection) + c.inFlight - 1
  {
    assert Matching(map[], ForRegistry()) == {} && Matching(map[], ForPool()) == {};
    assert forall key :: Matching(map[], ForKey(key)) == {};
    RunKeepsBounds(c, START, steps);
  }

  // ----- The bounds are attained -----

  /** All tasks register, or all pool. */
  datatype Kind = Registrations | Poolings

  function Promise(kind: Kind, m: SessionMetadata): Pending {
    if kind == Registrations then Registering(m) else Pooling(m)
  }

  ghost function Check(kind: Kind, t: TaskId, m: SessionMetadata): Step {
    if kind == Registrations then CheckRegistry(t, m) else CheckPool(t, m)
  }

  ghost predicate Passes(c: Limits, s: Race, kind: Kind, m: SessionMetadata) {
    if kind == Registrations then R.Admission(c.registry, s.reg, m.name).None? else P.Accepts(c.pool, s.pool, m)
  }

  /** Tasks `lo` to `hi` have passed the check with one of `ms` each. */
  ghost function Slots(kind: Kind, ms: seq<SessionMetadata>, lo: nat, hi: nat): map<TaskId, Pending>
    requires lo <= hi <= |ms|
  {
    map t: TaskId | lo <= t < hi :: Promise(kind, ms[t])
  }

  lemma OneMoreStep(c: Limits, s: Race, first: Step, rest: seq<Step>)
    requires Enabled(c, s, first) && IsRun(c, Take(c, s, first), rest)
    ensures IsRun(c, s, [first] + rest) && After(c, s, [first] + rest) == After(c, Take(c, s, first), rest)
  {
    assert ([first] + rest)[1..] == rest;
  }

  lemma {:induction false} RunsJoin(c: Limits, s: Race, first: seq<Step>, second: seq<Step>) returns (steps: seq<Step>)
    requires IsRun(c, s, first) && IsRun(c, After(c, s, first), second)
    ensures IsRun(c, s, steps) && After(c, s, steps) == After(c, After(c, s, first), second)
    decreases |first|
  {
    if first == [] {
      steps := second;
    } else {
      var rest := RunsJoin(c, Take(c, s, first[0]), first[1..], second);
      OneMoreStep(c, s, first[0], rest);
      steps := [first[0]] + rest;
    }
  }

  lemma {:induction false} SlotCount(kind: Kind, ms: seq<SessionMetadata>, hi: nat)
    requires hi <= |ms|
    ensures |Slots(kind, ms, 0, hi)| == hi
  {
    if hi == 0 {
      assert Slots(kind, ms, 0, 0) == map[];
    } else {
      SlotCount(kind, ms, hi - 1);
      assert Slots(kind, ms, 0, hi).Keys == Slots(kind, ms, 0, hi - 1).Keys + {hi - 1};
    }
  }

  /** The first `n` tasks have passed the check and none has inserted. */
  ghost function Passed(s: Race, kind: Kind, ms: seq<SessionMetadata>, n: nat): Race
    requires n <= |ms|
  {
    s.(tasks := Slots(kind, ms, 0, n))
  }

  lemma OnePasses(c: Limits, s: Race, kind: Kind, ms: seq<SessionMetadata>, n: nat)
    requires n < |ms| <= c.inFlight && Passes(c, s, kind, ms[n])
    ensures Enabled(c, Passed(s, kind, ms, n), Check(kind, n, ms[n]))
    ensures Take(c, Passed(s, kind, ms, n), Check(kind, n, ms[n])) == Passed(s, kind, ms, n + 1)
  {
    SlotCount(kind, ms, n);
    assert Slots(kind, ms, 0, n + 1) == Slots(kind, ms, 0, n)[n := Promise(kind, ms[n])];
  }

  ghost predicate AllMayPass(c: Limits, s: Race, kind: Kind, ms: seq<SessionMetadata>) {
    forall i :: 0 <= i < |ms| ==> Passes(c, s, kind, ms[i])
  }

  ghost predicate Reaches(c: Limits, s: Race, s': Race) {
    exists steps :: IsRun(c, s, steps) && After(c, s, steps) == s'
  }

  lemma ReachesByOne(c: Limits, s: Race, step: Step, s': Race)
    requires Enabled(c, s, step) && Take(c, s, step) == s'
    ensures Reaches(c, s, s')
  {
    OneMoreStep(c, s, step, []);
  }

  lemma ReachesOn(c: Limits, s: Race, between: Race, s': Race)
    requires Reaches(c, s, between) && Reaches(c, between, s')
    ensures Reaches(c, s, s')
  {
    var first :| IsRun(c, s, first) && After(c, s, first) == between;
    var second :| IsRun(c, between, second) && After(c, between, second) == s';
    var steps := RunsJoin(c, s, first, second);
  }

  lemma NextPasses(c: Limits, s: Race, kind: Kind, ms: seq<SessionMetadata>, n: nat)
    requires n < |ms| <= c.inFlight && AllMayPass(c, s, kind, ms)
    ensures Reaches(c, Passed(s, kind, ms, n), Passed(s, kind, ms, n + 1))
  {
    assert Passes(c, s, kind, ms[n]);
    OnePasses(c, s, kind, ms, n);
    ReachesByOne(c, Passed(s, kind, ms, n), Check(kind, n, ms[n]), Passed(s, kind, ms, n + 1));
  }

  ghost predicate Link(c: Limits, states: seq<Race>, k: nat)
    requires k + 1 < |states|
  {
    Reaches(c, states[k], states[k + 1])
  }

  lemma {:induction false} ChainReaches(c: Limits, states: seq<Race>, n: nat)
    requires 0 < n < |states| && forall k :: 0 <= k < |states| - 1 ==> Link(c, states, k)
    ensures Reaches(c, states[0], states[n])
  {
    assert Link(c, states, n - 1);
    if n > 1 {
      ChainReaches(c, states, n - 1);
      ReachesOn(c, states[0], states[n - 1], states[n]);
    }
  }

  /** All the tasks pass the check while there is still room. */
  lemma AllPass(c: Limits, s: Race, kind: Kind, ms: seq<SessionMetadata>)
    requires ms != [] && |ms| <= c.inFlight && AllMayPass(c, s, kind, ms)
    ensures Reaches(c, Passed(s, kind, ms, 0), Passed(s, kind, ms, |ms|))
  {
    var states := seq(|ms| + 1, n requires 0 <= n <= |ms| => Passed(s, kind, ms, n));
    forall k | 0 <= k < |states| - 1 ensures Link(c, states, k) {
      NextPasses(c, s, kind, ms, k);
    }
    ChainReaches(c, states, |ms|);
  }

  ghost function NewIds(ms: seq<SessionMetadata>, lo: nat): set<SessionId> {
    set i | lo <= i < |ms| :: ms[i].id
  }

  ghost function Insertion(kind: Kind, t: TaskId): Step {
    if kind == Registrations then InsertSession(t) else InsertPooled(t, 0)
  }

  /** The ids that the insertions of this kind add to. */
  ghost function Present(kind: Kind, s: Race): set<SessionId> {
    if kind == Registrations then s.reg.sessions.Keys else s.pool.meta.Keys
  }

  ghost predicate Share(ms: seq<SessionMetadata>, lo: nat, key: string) {
    forall i :: lo <= i < |ms| ==> ms[i].Key() == key
  }

  lemma InsertSlot(c: Limits, s: Race, kind: Kind, ms: seq<SessionMetadata>, lo: nat, key: string)
    requires lo < |ms| && s.tasks == Slots(kind, ms, lo, |ms|)
    ensures Enabled(c, s, Insertion(kind, lo))
    ensures var s' := Take(c, s, Insertion(kind, lo));
            && s'.tasks == Slots(kind, ms, lo + 1, |ms|)
            && Present(kind, s') == Present(kind, s) + {ms[lo].id}
            && (kind == Poolings && ms[lo].Key() == key ==> |Ids(s'.pool.pools, key)| == |Ids(s.pool.pools, key)| + 1)
  {
  }

  lemma FirstIsNew(present: set<SessionId>, ms: seq<SessionMetadata>, lo: nat)
    requires lo < |ms|
    ensures present + NewIds(ms, lo) == present + {ms[lo].id} + NewIds(ms, lo + 1)
  {
    assert NewIds(ms, lo) == {ms[lo].id} + NewIds(ms, lo + 1);
  }

  /** Then each of them inserts; `key` is the pool key they share, if they pool. */
  lemma {:induction false} AllInsert(c: Limits, s: Race, kind: Kind, ms: seq<SessionMetadata>, lo: nat, key: string)
      returns (steps: seq<Step>)
    requires lo <= |ms| && s.tasks == Slots(kind, ms, lo, |ms|)
    ensures IsRun(c, s, steps)
    ensures Present(kind, After(c, s, steps)) == Present(kind, s) + NewIds(ms, lo)
    ensures kind == Poolings && Share(ms, lo, key) ==>
              |Ids(After(c, s, steps).pool.pools, key)| == |Ids(s.pool.pools, key)| + |ms| - lo
    decreases |ms| - lo
  {
    if lo == |ms| {
      steps := [];
    } else {
      var step := Insertion(kind, lo);
      InsertSlot(c, s, kind, ms, lo, key);
      var next := Take(c, s, step);
      var rest := AllInsert(c, next, kind, ms, lo + 1, key);
      OneMoreStep(c, s, step, rest);
      steps := [step] + rest;
      FirstIsNew(Present(kind, s), ms, lo);
    }
  }

  lemma {:induction false} NewIdCount(ms: seq<SessionMetadata>, lo: nat)
    requires lo <= |ms| && forall i, j :: 0 <= i < j < |ms| ==> ms[i].id != ms[j].id
    ensures |NewIds(ms, lo)| == |ms| - lo
    decreases |ms| - lo
  {
    if lo < |ms| {
      NewIdCount(ms, lo + 1);
      assert NewIds(ms, lo) == {ms[lo].id} + NewIds(ms, lo + 1);
    }
  }

  /** `inFlight` sessions with new ids, all of which pass the check. */
  ghost predicate Rush(c: Limits, s: Race, kind: Kind, ms: seq<SessionMetadata>) {
    && s.tasks == map[] && |ms| == c.inFlight
    && (forall i, j :: 0 <= i < j < |ms| ==> ms[i].id != ms[j].id)
    && (forall i :: 0 <= i < |ms| ==> ms[i].id !in Present(kind, s))
    && AllMayPass(c, s, kind, ms)
  }

  lemma AllGetIn(c: Limits, s: Race, kind: Kind, ms: seq<SessionMetadata>, key: string) returns (steps: seq<Step>)
    requires Rush(c, s, kind, ms)
    ensures IsRun(c, s, steps)
    ensures |Present(kind, After(c, s, steps))| == |Present(kind, s)| + c.inFlight
    ensures kind == Poolings && Share(ms, 0, key) ==>
              |Ids(After(c, s, steps).pool.pools, key)| == |Ids(s.pool.pools, key)| + c.inFlight
  {
    var passed := Passed(s, kind, ms, |ms|);
    assert Passed(s, kind, ms, 0) == s;
    var checks: seq<Step> := [];
    if ms != [] {
      AllPass(c, s, kind, ms);
      checks :| IsRun(c, s, checks) && After(c, s, checks) == passed;
    }
    var inserts := AllInsert(c, passed, kind, ms, 0, key);
    steps := RunsJoin(c, s, checks, inserts);
    NewIdCount(ms, 0);
    assert Present(kind, s) !! NewIds(ms, 0);
  }

  /** The registry bound cannot be improved: with one place left, `inFlight` tasks can all get in. */
  lemma RegistryBoundAttained(c: Limits, s: Race, ms: seq<SessionMetadata>) returns (steps: seq<Step>)
    requires Rush(c, s, Registrations, ms) && |s.reg.sessions| == c.registry.maxSessions - 1
    ensures IsRun(c, s, steps)
    ensures |After(c, s, steps).reg.sessions| == c.registry.maxSessions + c.inFlight - 1
  {
    steps := AllGetIn(c, s, Registrations, ms, "");
    assert |After(c, s, steps).reg.sessions.Keys| == |s.reg.sessions.Keys| + c.inFlight;
  }

  /** Nor can those of the pool, in total and for one key. */
  lemma PoolBoundsAttained(c: Limits, s: Race, ms: seq<SessionMetadata>, key: string) returns (steps: seq<Step>)
    requires Rush(c, s, Poolings, ms) && Share(ms, 0, key)
    ensures IsRun(c, s, steps)
    ensures |s.pool.meta| == c.pool.maxTotalSessions - 1 ==>
              |After(c, s, steps).pool.meta| == c.pool.maxTotalSessions + c.inFlight - 1
    ensures |Ids(s.pool.pools, key)| == Max(1, c.pool.maxSessionsPerConnection) - 1 ==>
              |Ids(After(c, s, steps).pool.pools, key)| == Max(1, c.pool.maxSessionsPerConnection) + c.inFlight - 1
  {
    steps := AllGetIn(c, s, Poolings, ms, key);
    assert |After(c, s, steps).pool.meta.Keys| == |s.pool.meta.Keys| + c.inFlight;
  }

  // ----- Why there are at most `max_clients` tasks -----

  function Accepts(events: seq<bool>): nat {
    if events == [] then 0 else Accepts(events[..|events| - 1]) + (if events[|events| - 1] then 1 else 0)
  }

  /** The daemon's accept loop over its accept results (true for a connection, false for an error). The counter only
      grows, so over its lifetime the daemon serves the first `maxClients` connections and no more. */
  method AcceptLoop(events: seq<bool>, maxClients: nat) returns (served: seq<nat>)
    ensures |served| == Min(Accepts(events), maxClients)
    ensures forall i :: 0 <= i < |served| ==> served[i] == i + 1
  {
    served := [];
    var clientCount := 0;
    for i := 0 to |events|
      invariant clientCount == Accepts(events[..i])
      invariant |served| == Min(clientCount, maxClients)
      invariant forall j :: 0 <= j < |served| ==> served[j] == j + 1
    {
      assert events[..i + 1][..i] == events[..i];
      if events[i] {
        clientCount := clientCount + 1;
        if clientCount <= maxClients {
          served := served + [clientCount];
        }
      }
    }
    assert events[..|events|] == events;
  }
}
