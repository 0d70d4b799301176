/** Concurrent create requests: looking into the pool and using what was found are two steps, each with its own clock
    reading, and other requests and ticks may come in between (crates/client/src/daemon/handler.rs). */
module Reuse {
  import opened Common
  import opened Session
  import opened Manager
  import opened Handler
  import IdIndex
  import P = Pool

  type TaskId = nat

  /** What the look of a request was for and what it was handed. */
  datatype Outcome = Outcome(key: string, found: Option<SessionId>)

  /** The handler and the create requests between their look and what follows it. */
  datatype Race = Race(h: HandlerState, looks: map<TaskId, Outcome>)

  /** `Whole` is any other request or a tick, `Use` the use of a session that a connect or a command has chosen
      before. */
  datatype Step =
    | Whole(q: Request)
    | Look(t: TaskId, key: string, now: Time)
    | Act(t: TaskId, m: SessionMetadata, now: Time)
    | Use(id: SessionId, now: Time)

  /** The second half of a create request; a session that can no longer be used is replaced by a new one. */
  function ActOn(c: ManagerConfig, h: HandlerState, found: Option<SessionId>, m: SessionMetadata, now: Time)
    : (HandlerState, Response)
  {
    match found
    case Some(id) =>
      var (used, e) := UseSession(c, h.mgr, id, now);
      if e.None? then (h.(mgr := used), SessionCreated(id, true))
      else CreateAndConnect(c, h.(mgr := used), m, now)
    case None => CreateAndConnect(c, h, m, now)
  }

  ghost predicate Enabled(s: Race, step: Step) {
    match step
    case Whole(q) => Proper(s.h, q)
    case Look(t, _, _) => t !in s.looks
    case Act(t, m, now) => t in s.looks && s.looks[t].key == m.Key() && Proper(s.h, Create(m, now))
    case Use(_, _) => true
  }

  function Take(c: ManagerConfig, s: Race, step: Step): Race
    requires step.Act? ==> step.t in s.looks
  {
    match step
    case Whole(q) => s.(h := Handle(c, s.h, q).0)
    case Look(t, key, now) => s.(looks := s.looks[t := Outcome(key, FindReusable(c, s.h.mgr, key, now))])
    case Act(t, m, now) => Race(ActOn(c, s.h, s.looks[t].found, m, now).0, s.looks - {t})
    case Use(id, now) => s.(h := s.h.(mgr := UseSession(c, s.h.mgr, id, now).0))
  }

  ghost predicate IsRun(c: ManagerConfig, s: Race, steps: seq<Step>)
    decreases |steps|
  {
    steps == [] || (Enabled(s, steps[0]) && IsRun(c, Take(c, s, steps[0]), steps[1..]))
  }

  ghost function After(c: ManagerConfig, s: Race, steps: seq<Step>): Race
    requires IsRun(c, s, steps)
    decreases |steps|
  {
    if steps == [] then s else After(c, Take(c, s, steps[0]), steps[1..])
  }

  /** With nothing in between the two halves are the whole request. */
  lemma LookThenActIsCreate(c: ManagerConfig, h: HandlerState, m: SessionMetadata, now: Time)
    ensures ActOn(c, h, FindReusable(c, h.mgr, m.Key(), now), m, now) == HandleCreate(c, h, m, now)
  {
  }

  /** So a request may always come in halves: they can follow each other, and leave what the whole leaves. */
  lemma HalvesAreTheWhole(c: ManagerConfig, s: Race, t: TaskId, m: SessionMetadata, now: Time)
    requires t !in s.looks && Proper(s.h, Create(m, now))
    ensures var halves, whole := [Look(t, m.Key(), now), Act(t, m, now)], [Whole(Create(m, now))];
            && IsRun(c, s, halves) && IsRun(c, s, whole)
            && After(c, s, halves) == After(c, s, whole) == s.(h := HandleCreate(c, s.h, m, now).0)
  {
    var look := Look(t, m.Key(), now);
    var s' := Take(c, s, look);
    RunOfOne(c, s, Whole(Create(m, now)));
    RunOfOne(c, s', Act(t, m, now));
    assert [look, Act(t, m, now)][1..] == [Act(t, m, now)];
    LookThenActIsCreate(c, s.h, m, now);
    assert s'.looks - {t} == s.looks;
  }

  lemma RunOfOne(c: ManagerConfig, s: Race, step: Step)
    requires Enabled(s, step)
    ensures IsRun(c, s, [step]) && After(c, s, [step]) == Take(c, s, step)
  {
    assert [step][1..] == [];
  }

  // ----- What every step keeps -----

  lemma ActKeepsInv(c: ManagerConfig, h: HandlerState, found: Option<SessionId>, m: SessionMetadata, now: Time)
    requires HandlerInv(c, h) && Proper(h, Create(m, now))
    ensures HandlerInv(c, ActOn(c, h, found, m, now).0)
  {
    if found.Some? && found.value in h.mgr.reg.sessions {
      UseKeepsHandlerInv(c, h, found.value, now);
    } else {
      CreateAndConnectKeepsInv(c, h, m, now);
      CreateAndConnectSettles(c, h, m, now);
    }
  }

  lemma StepKeepsInv(c: ManagerConfig, s: Race, step: Step)
    requires HandlerInv(c, s.h) && Enabled(s, step)
    ensures HandlerInv(c, Take(c, s, step).h)
  {
    match step
    case Whole(q) => StepKeepsHandlerInv(c, s.h, q);
    case Look(_, _, _) =>
    case Act(t, m, now) => ActKeepsInv(c, s.h, s.looks[t].found, m, now);
    case Use(id, now) => UseKeepsHandlerInv(c, s.h, id, now);
  }

  /** A use takes the session out of the pool and brings no other one in. */
  lemma UseEmpties(c: ManagerConfig, h: HandlerState, id: SessionId, now: Time)
    requires HandlerInv(c, h)
    ensures UseSession(c, h.mgr, id, now).0.pool.meta.Keys == h.mgr.pool.meta.Keys - {id}
  {
    if id in h.mgr.reg.sessions {
      UseActivates(c, h.mgr, id, now);
    }
  }

  lemma ActKeepsOut(c: ManagerConfig, h: HandlerState, found: Option<SessionId>, m: SessionMetadata, now: Time,
                    id: SessionId)
    requires HandlerInv(c, h) && Proper(h, Create(m, now))
    ensures id !in h.mgr.pool.meta || found == Some(id) ==> id !in ActOn(c, h, found, m, now).0.mgr.pool.meta
  {
    if found.Some? {
      UseEmpties(c, h, found.value, now);
    }
    if found.None? || found.value !in h.mgr.reg.sessions {
      CreateAndConnectEffect(c, h, m, now);
    }
  }

  /** Only its own disconnect puts a session into the pool. */
  ghost predicate Disconnects(step: Step, id: SessionId) {
    step.Whole? && step.q.Disconnect? && step.q.id == id
  }

  ghost predicate Uses(s: Race, step: Step, id: SessionId) {
    || (step.Act? && step.t in s.looks && s.looks[step.t].found == Some(id))
    || (step.Use? && step.id == id)
  }

  lemma StepKeepsOut(c: ManagerConfig, s: Race, step: Step, id: SessionId)
    requires HandlerInv(c, s.h) && Enabled(s, step) && !Disconnects(step, id)
    ensures id !in s.h.mgr.pool.meta || Uses(s, step, id) ==> id !in Take(c, s, step).h.mgr.pool.meta
  {
    match step
    case Whole(q) => if id !in s.h.mgr.pool.meta { StepKeepsUnpooled(c, s.h, q, id); }
    case Look(_, _, _) =>
    case Act(t, m, now) => ActKeepsOut(c, s.h, s.looks[t].found, m, now, id);
    case Use(x, now) => UseEmpties(c, s.h, x, now);
  }

  ghost predicate NeverDisconnects(steps: seq<Step>, id: SessionId) {
    forall i :: 0 <= i < |steps| ==> !Disconnects(steps[i], id)
  }

  /** Main result: however looks, uses, requests and ticks interleave, a session out of the pool is not handed out by
      the pool again before it is disconnected. */
  lemma {:induction false} NotHandedOutTwice(c: ManagerConfig, s: Race, steps: seq<Step>, id: SessionId, key: string,
                                             now: Time)
    requires HandlerInv(c, s.h) && IsRun(c, s, steps) && NeverDisconnects(steps, id)
    requires id !in s.h.mgr.pool.meta
    ensures FindReusable(c, After(c, s, steps).h.mgr, key, now) != Some(id)
    decreases |steps|
  {
    if steps == [] {
    } else {
      assert !Disconnects(steps[0], id);
      StepKeepsOut(c, s, steps[0], id);
      StepKeepsInv(c, s, steps[0]);
      assert NeverDisconnects(steps[1..], id) by {
        assert forall i :: 0 <= i < |steps| - 1 ==> steps[1..][i] == steps[i + 1];
      }
      NotHandedOutTwice(c, Take(c, s, steps[0]), steps[1..], id, key, now);
    }
  }

  // ----- When two requests are handed the same session -----

  ghost predicate NobodyUses(c: ManagerConfig, s: Race, steps: seq<Step>, id: SessionId)
    requires IsRun(c, s, steps)
    decreases |steps|
  {
    steps == [] || (!Uses(s, steps[0], id) && NobodyUses(c, Take(c, s, steps[0]), steps[1..], id))
  }

  lemma {:induction false} HandedOutMeansUnused(c: ManagerConfig, s: Race, steps: seq<Step>, id: SessionId,
                                                key: string, now: Time)
    requires HandlerInv(c, s.h) && IsRun(c, s, steps) && NeverDisconnects(steps, id)
    requires FindReusable(c, After(c, s, steps).h.mgr, key, now) == Some(id)
    ensures NobodyUses(c, s, steps, id)
    decreases |steps|
  {
    if steps == [] {
    } else {
      var next, rest := Take(c, s, steps[0]), steps[1..];
      assert !Disconnects(steps[0], id);
      StepKeepsOut(c, s, steps[0], id);
      StepKeepsInv(c, s, steps[0]);
      assert NeverDisconnects(rest, id) by {
        assert forall i :: 0 <= i < |steps| - 1 ==> rest[i] == steps[i + 1];
      }
      if Uses(s, steps[0], id) {
        NotHandedOutTwice(c, next, rest, id, key, now);
      }
      HandedOutMeansUnused(c, next, rest, id, key, now);
    }
  }

  /** `id` is what a look under this key at this moment is handed: the first of the best eligible entries. */
  ghost predicate IsNext(c: ManagerConfig, p: P.PoolState, key: string, now: Time, id: SessionId) {
    c.pool.enabled && c.pool.preferReuse && P.FirstOfBest(c.pool, p, IdIndex.Ids(p.pools, key), id, now)
  }

  /** Main result: a look at `first` and, after any steps without a disconnect of `id`, a look at `second` are both
      handed `id` exactly if `id` is the next entry in both pools, each at its own clock reading; and then nobody has
      used it in between. */
  lemma SharedIff(c: ManagerConfig, s: Race, steps: seq<Step>, key: string, first: Time, second: Time, id: SessionId)
    requires HandlerInv(c, s.h) && IsRun(c, s, steps) && NeverDisconnects(steps, id)
    ensures var s' := After(c, s, steps);
            var shared := FindReusable(c, s.h.mgr, key, first) == Some(id) == FindReusable(c, s'.h.mgr, key, second);
            && (shared <==> IsNext(c, s.h.mgr.pool, key, first, id) && IsNext(c, s'.h.mgr.pool, key, second, id))
            && (shared ==> NobodyUses(c, s, steps, id))
  {
    var s' := After(c, s, steps);
    P.FoundIffFirstOfBest(c.pool, s.h.mgr.pool, key, first, id);
    P.FoundIffFirstOfBest(c.pool, s'.h.mgr.pool, key, second, id);
    if FindReusable(c, s'.h.mgr, key, second) == Some(id) {
      HandedOutMeansUnused(c, s, steps, id, key, second);
    }
  }

  /** If `id` is the only entry under the key, every later look before its use is handed it too, and none after. */
  lemma OnlyEntryIsShared(c: ManagerConfig, s: Race, t: TaskId, key: string, first: Time, second: Time, id: SessionId,
                          used: Time)
    requires HandlerInv(c, s.h) && t !in s.looks && second >= first
    requires IdIndex.Ids(s.h.mgr.pool.pools, key) == [id]
    requires FindReusable(c, s.h.mgr, key, first) == Some(id)
    ensures Take(c, s, Look(t, key, second)).looks[t].found == Some(id)
    ensures forall later :: FindReusable(c, Take(c, s, Use(id, used)).h.mgr, key, later) != Some(id)
  {
    assert id in IdIndex.Ids(s.h.mgr.pool.pools, key);
    EligibleIsFound(c.pool, s.h.mgr.pool, id, key, second);
    StepKeepsOut(c, s, Use(id, used), id);
    StepKeepsInv(c, s, Use(id, used));
    forall later ensures FindReusable(c, Take(c, s, Use(id, used)).h.mgr, key, later) != Some(id) {
      NotHandedOutTwice(c, Take(c, s, Use(id, used)), [], id, key, later);
    }
  }

  /** A request that was handed `id` gets it exactly if it is still registered when the request acts, also if another
      request has used it in the meantime. */
  lemma ActGetsItIff(c: ManagerConfig, h: HandlerState, id: SessionId, m: SessionMetadata, now: Time)
    requires HandlerInv(c, h) && Proper(h, Create(m, now))
    ensures var (h', r) := ActOn(c, h, Some(id), m, now);
            && (r == SessionCreated(id, true) <==> id in h.mgr.reg.sessions)
            && (id in h.mgr.reg.sessions ==>
                  && id in h'.mgr.reg.sessions
                  && h'.mgr.reg.sessions[id].useCount == h.mgr.reg.sessions[id].useCount + 1)
  {
    if id in h.mgr.reg.sessions {
      UseActivates(c, h.mgr, id, now);
    } else {
      CreateAndConnectEffect(c, h, m, now);
    }
  }

  /** Two looks before any use need not agree: once a second, less used entry is old enough, it is preferred. */
  lemma LooksCanDiffer() returns (c: P.PoolConfig, p: P.PoolState)
    ensures P.Mirror(p) && P.WithinLimits(c, p) && IdIndex.Ids(p.pools, "k") == [0, 1]
    ensures P.FindSession(c, p, "k", 5 * SECOND) == Some(0)
    ensures P.FindSession(c, p, "k", 8 * SECOND) == Some(1)
  {
    c := P.PoolConfig(true, 5, 50, true, 5);
    p := P.PoolState(map["k" := [0, 1]],
                     map[0 := P.Pooled("k", 0, Normal, 12), 1 := P.Pooled("k", 3 * SECOND, Normal, 1)]);
    ScoresOfTwo(p.meta[0], p.meta[1]);
    var ids := IdIndex.Ids(p.pools, "k");
    assert P.FirstAt(c, p, ids, 0, 5 * SECOND, 0);
    P.FoundIffFirstOfBest(c, p, "k", 5 * SECOND, 0);
    assert P.FirstAt(c, p, ids, 1, 8 * SECOND, 1);
    P.FoundIffFirstOfBest(c, p, "k", 8 * SECOND, 1);
  }

  lemma ScoresOfTwo(worn: P.Pooled, idle: P.Pooled)
    requires worn == P.Pooled("k", 0, Normal, 12) && idle == P.Pooled("k", 3 * SECOND, Normal, 1)
    ensures P.Score(worn, 5 * SECOND) == 75 == P.Score(worn, 8 * SECOND) && P.Score(idle, 8 * SECOND) == 85
  {
  }
}
