/** The locks of the session daemon and the order in which its operations take them.
    A lock serves its waiters first come, first served, as the source's asynchronous locks do: a reader queues behind
    a waiting writer. */
module Locks {
  import opened Common

  datatype Lock =
    | Sessions | NameIndex | ConnectionIndex
    | Pools | PoolMetadata
    | Metrics | History | Lifetimes | IdleTimes
    | Clients

  datatype Mode = Read | Write

  datatype Action = Acquire(lock: Lock, mode: Mode) | Release(lock: Lock)

  // ----- The operations -----

  /** The stretches of the registry, pool, metrics and handler code between which no lock is held. */
  datatype Section =
    | RegisterCheck(checksNames: bool)
    | IndexedWrite(indexed: bool)          // register and unregister after the check
    | SessionsRead                         // get, list_all, list_by_status, list_by_tags, count, exists
    | SessionsWrite                        // update_status, mark_used
    | UpdateMetadata(keyChanged: bool, nameChanged: bool)
    | ClearRegistry
    | PoolRead                             // limit check, find_session, get_stats, expiry scan
    | PoolWrite                            // add and remove, clear
    | PoolListRead
    | PoolMetadataRead
    | MetricsRead
    | MetricsWrite                         // connection outcomes and status changes
    | MetricsAndHistory                    // creation and usage
    | MetricsAll                           // closure and reset
    | HistoryWrite
    | ClientTable
    | NameListing(found: bool)             // list_by_name with the name index
    | ConnectionListing(found: bool)       // list_by_connection_key

  /** A guard is released when its scope ends. */
  function Guard(lock: Lock, mode: Mode, body: seq<Action>): seq<Action> {
    [Acquire(lock, mode)] + body + [Release(lock)]
  }

  function When(condition: bool, body: seq<Action>): seq<Action> {
    if condition then body else []
  }

  function Script(section: Section): seq<Action> {
    match section
    case RegisterCheck(checksNames) => Guard(Sessions, Read, When(checksNames, Guard(NameIndex, Read, [])))
    case IndexedWrite(indexed) =>
      Guard(Sessions, Write, []) + (When(indexed, Guard(NameIndex, Write, [])) + Guard(ConnectionIndex, Write, []))
    case SessionsRead => Guard(Sessions, Read, [])
    case SessionsWrite => Guard(Sessions, Write, [])
    case UpdateMetadata(keyChanged, nameChanged) =>
      Guard(Sessions, Write,
            When(keyChanged, Guard(ConnectionIndex, Write, [])) + When(nameChanged, Guard(NameIndex, Write, [])))
    case ClearRegistry => Guard(Sessions, Write, Guard(NameIndex, Write, Guard(ConnectionIndex, Write, [])))
    case PoolRead => Guard(Pools, Read, Guard(PoolMetadata, Read, []))
    case PoolWrite => Guard(Pools, Write, Guard(PoolMetadata, Write, []))
    case PoolListRead => Guard(Pools, Read, [])
    case PoolMetadataRead => Guard(PoolMetadata, Read, [])
    case MetricsRead => Guard(Metrics, Read, [])
    case MetricsWrite => Guard(Metrics, Write, [])
    case MetricsAndHistory => Guard(Metrics, Write, Guard(History, Write, []))
    case MetricsAll =>
      Guard(Metrics, Write, Guard(History, Write, Guard(Lifetimes, Write, Guard(IdleTimes, Write, []))))
    case HistoryWrite => Guard(History, Write, [])
    case ClientTable => Guard(Clients, Write, [])
    case NameListing(found) => Guard(NameIndex, Read, When(found, Guard(Sessions, Read, [])))
    case ConnectionListing(found) => Guard(ConnectionIndex, Read, When(found, Guard(Sessions, Read, [])))
  }

  /** Every operation of the manager and of the handler is a sequence of sections. */
  function Program(sections: seq<Section>): seq<Action> {
    if sections == [] then [] else Script(sections[0]) + Program(sections[1..])
  }

  type TaskId = nat

  /** What a task still has to do, the locks it holds, and whether its next acquisition is already queued. */
  datatype Task = Task(rest: seq<Action>, held: map<Lock, Mode>, queued: bool)

  datatype System = System(tasks: map<TaskId, Task>, queues: map<Lock, seq<TaskId>>)

  const START := System(map[], map[])

  function Queue(s: System, lock: Lock): seq<TaskId> {
    if lock in s.queues then s.queues[lock] else []
  }

  function Requeue(queues: map<Lock, seq<TaskId>>, lock: Lock, waiting: seq<TaskId>): map<Lock, seq<TaskId>> {
    if waiting == [] then queues - {lock} else queues[lock := waiting]
  }

  // ----- Steps -----

  datatype Step = Spawn(id: TaskId, sections: seq<Section>) | Enqueue(id: TaskId) | Grant(id: TaskId) | Drop(id: TaskId)

  /** No holder stands in the way: a writer needs the lock free, a reader needs it free of writers. */
  ghost predicate Compatible(s: System, lock: Lock, mode: Mode) {
    forall t :: t in s.tasks && lock in s.tasks[t].held ==> mode == Read && s.tasks[t].held[lock] == Read
  }

  ghost predicate Enabled(s: System, step: Step) {
    match step
    case Spawn(t, _) => t !in s.tasks
    case Enqueue(t) => t in s.tasks && !s.tasks[t].queued && s.tasks[t].rest != [] && s.tasks[t].rest[0].Acquire?
    case Grant(t) =>
      && t in s.tasks && s.tasks[t].queued && s.tasks[t].rest != [] && s.tasks[t].rest[0].Acquire?
      && Queue(s, s.tasks[t].rest[0].lock) != [] && Queue(s, s.tasks[t].rest[0].lock)[0] == t
      && Compatible(s, s.tasks[t].rest[0].lock, s.tasks[t].rest[0].mode)
    case Drop(t) => t in s.tasks && !s.tasks[t].queued && s.tasks[t].rest != [] && s.tasks[t].rest[0].Release?
  }

  ghost function Take(s: System, step: Step): System
    requires Enabled(s, step)
  {
    match step
    case Spawn(t, sections) => s.(tasks := s.tasks[t := Task(Program(sections), map[], false)])
    case Enqueue(t) =>
      var task := s.tasks[t];
      var lock := task.rest[0].lock;
      System(s.tasks[t := task.(queued := true)], Requeue(s.queues, lock, Queue(s, lock) + [t]))
    case Grant(t) =>
      var task := s.tasks[t];
      var a := task.rest[0];
      System(s.tasks[t := Task(task.rest[1..], task.held[a.lock := a.mode], false)],
             Requeue(s.queues, a.lock, Queue(s, a.lock)[1..]))
    case Drop(t) =>
      var task := s.tasks[t];
      s.(tasks := s.tasks[t := Task(task.rest[1..], task.held - {task.rest[0].lock}, false)])
  }

  // ----- The discipline -----

  /** The order of the locks: an index that is listed comes before the primary map, any other index after it.
      A shared name index is one nobody writes; taking it for reading needs no place in the order. */
  datatype Discipline = Discipline(namesFirst: bool, keysFirst: bool, namesShared: bool)

  function Rank(d: Discipline, lock: Lock): nat {
    match lock
    case NameIndex => if d.namesFirst then 0 else 3
    case ConnectionIndex => if d.keysFirst then 1 else 4
    case Sessions => 2
    case Pools => 5
    case PoolMetadata => 6
    case Metrics => 7
    case History => 8
    case Lifetimes => 9
    case IdleTimes => 10
    case Clients => 11
  }

  predicate Shared(d: Discipline, lock: Lock) {
    d.namesShared && lock == NameIndex
  }

  predicate Allowed(d: Discipline, a: Action, held: set<Lock>)
    requires a.Acquire?
  {
    && a.lock !in held
    && if Shared(d, a.lock) then a.mode == Read
       else forall h :: h in held && !Shared(d, h) ==> Rank(d, h) < Rank(d, a.lock)
  }

  /** Locks are taken as allowed and released only when held; `base` is what is still held at the end. */
  predicate Ordered(d: Discipline, rest: seq<Action>, held: set<Lock>, base: set<Lock>) {
    if rest == [] then held == base
    else match rest[0]
      case Acquire(lock, _) => Allowed(d, rest[0], held) && Ordered(d, rest[1..], held + {lock}, base)
      case Release(lock) => lock in held && Ordered(d, rest[1..], held - {lock}, base)
  }

  ghost predicate TaskOrdered(d: Discipline, task: Task) {
    && Ordered(d, task.rest, task.held.Keys, {})
    && forall lock :: lock in task.held && Shared(d, lock) ==> task.held[lock] == Read
  }

  ghost predicate TasksOrdered(d: Discipline, s: System) {
    forall t :: t in s.tasks ==> TaskOrdered(d, s.tasks[t])
  }

  /** The lock task `t` is queued for, if it is queued. */
  ghost predicate WaitsFor(s: System, t: TaskId, lock: Lock) {
    && t in s.tasks && s.tasks[t].queued
    && s.tasks[t].rest != [] && s.tasks[t].rest[0].Acquire? && s.tasks[t].rest[0].lock == lock
  }

  /** Each queue lists, once each, exactly the tasks waiting for its lock, and a queued task waits for some lock. */
  ghost predicate QueuesFit(s: System) {
    && (forall t :: t in s.tasks && s.tasks[t].queued ==> s.tasks[t].rest != [] && s.tasks[t].rest[0].Acquire?)
    && (forall lock, t :: t in Queue(s, lock) <==> WaitsFor(s, t, lock))
    && (forall lock :: NoDup(Queue(s, lock)))
  }

  ghost predicate Disciplined(d: Discipline, s: System) {
    TasksOrdered(d, s) && QueuesFit(s)
  }

  /** Only programs that keep to the order are started. */
  ghost predicate Starts(d: Discipline, step: Step) {
    step.Spawn? ==> Ordered(d, Program(step.sections), {}, {})
  }

  lemma StepKeepsOrder(d: Discipline, s: System, step: Step)
    requires TasksOrdered(d, s) && Enabled(s, step) && Starts(d, step)
    ensures TasksOrdered(d, Take(s, step))
  {
    match step
    case Spawn(_, _) =>
      var none: map<Lock, Mode> := map[];
      assert none.Keys == {};
    case Enqueue(_) =>
    case Grant(t) =>
      var a := s.tasks[t].rest[0];
      assert TaskOrdered(d, s.tasks[t]);
      assert s.tasks[t].held[a.lock := a.mode].Keys == s.tasks[t].held.Keys + {a.lock};
    case Drop(t) =>
      var task := s.tasks[t];
      assert TaskOrdered(d, task);
      assert (task.held - {task.rest[0].lock}).Keys == task.held.Keys - {task.rest[0].lock};
  }

  lemma EnqueueKeepsQueues(s: System, t: TaskId)
    requires QueuesFit(s) && Enabled(s, Enqueue(t))
    ensures QueuesFit(Take(s, Enqueue(t)))
  {
    var s' := Take(s, Enqueue(t));
    var lock := s.tasks[t].rest[0].lock;
    assert t !in Queue(s, lock);
    forall l, x ensures x in Queue(s', l) <==> WaitsFor(s', x, l) {
      assert x in Queue(s, l) <==> WaitsFor(s, x, l);
    }
    forall l ensures NoDup(Queue(s', l)) {
      assert NoDup(Queue(s, l));
    }
  }

  lemma GrantKeepsQueues(s: System, t: TaskId)
    requires QueuesFit(s) && Enabled(s, Grant(t))
    ensures QueuesFit(Take(s, Grant(t)))
  {
    var s' := Take(s, Grant(t));
    var lock := s.tasks[t].rest[0].lock;
    var q := Queue(s, lock);
    assert q == [t] + q[1..] && t !in q[1..];
    forall l, x ensures x in Queue(s', l) <==> WaitsFor(s', x, l) {
      assert x in Queue(s, l) <==> WaitsFor(s, x, l);
      assert t in Queue(s, l) <==> WaitsFor(s, t, l);
    }
    forall l ensures NoDup(Queue(s', l)) {
      assert NoDup(Queue(s, l));
    }
  }

  lemma QuietStepKeepsQueues(s: System, step: Step)
    requires QueuesFit(s) && Enabled(s, step) && (step.Spawn? || step.Drop?)
    ensures QueuesFit(Take(s, step))
  {
    var s' := Take(s, step);
    forall l, x ensures x in Queue(s', l) <==> WaitsFor(s', x, l) {
      assert x in Queue(s, l) <==> WaitsFor(s, x, l);
    }
    forall l ensures NoDup(Queue(s', l)) {
      assert NoDup(Queue(s, l));
    }
  }

  lemma StepKeepsDiscipline(d: Discipline, s: System, step: Step)
    requires Disciplined(d, s) && Enabled(s, step) && Starts(d, step)
    ensures Disciplined(d, Take(s, step))
  {
    StepKeepsOrder(d, s, step);
    match step
    case Spawn(_, _) => QuietStepKeepsQueues(s, step);
    case Enqueue(t) => EnqueueKeepsQueues(s, t);
    case Grant(t) => GrantKeepsQueues(s, t);
    case Drop(_) => QuietStepKeepsQueues(s, step);
  }

  /** How much further up the order a task that waits for `lock` can be blocked. */
  function Distance(d: Discipline, lock: Lock): nat {
    if Shared(d, lock) then 0 else 12 - Rank(d, lock)
  }

  /** Who stands in the way of a waiter waits, if at all, for a lock further up. */
  lemma HolderIsFurther(d: Discipline, s: System, waiter: TaskId, holder: TaskId, lock: Lock)
    requires Disciplined(d, s) && WaitsFor(s, waiter, lock)
    requires holder in s.tasks && lock in s.tasks[holder].held
    requires !(s.tasks[waiter].rest[0].mode == Read && s.tasks[holder].held[lock] == Read)
    ensures s.tasks[holder].rest != []
    ensures s.tasks[holder].queued ==> Distance(d, s.tasks[holder].rest[0].lock) < Distance(d, lock)
  {
    assert TaskOrdered(d, s.tasks[waiter]) && TaskOrdered(d, s.tasks[holder]);
    assert lock in s.tasks[holder].held.Keys;
    assert !Shared(d, lock);
  }

  /** Follow the chain of holders upwards from a queued task until something can move. */
  lemma {:induction false} ChainMoves(d: Discipline, s: System, t: TaskId) returns (step: Step)
    requires Disciplined(d, s) && t in s.tasks && s.tasks[t].queued
    ensures Enabled(s, step) && !step.Spawn?
    decreases Distance(d, s.tasks[t].rest[0].lock)
  {
    var lock := s.tasks[t].rest[0].lock;
    assert WaitsFor(s, t, lock) && t in Queue(s, lock);
    var head := Queue(s, lock)[0];
    assert head in Queue(s, lock) && WaitsFor(s, head, lock);
    var mode := s.tasks[head].rest[0].mode;
    if Compatible(s, lock, mode) {
      step := Grant(head);
    } else {
      var holder :| holder in s.tasks && lock in s.tasks[holder].held
                    && !(mode == Read && s.tasks[holder].held[lock] == Read);
      HolderIsFurther(d, s, head, holder, lock);
      if s.tasks[holder].queued {
        step := ChainMoves(d, s, holder);
      } else if s.tasks[holder].rest[0].Acquire? {
        step := Enqueue(holder);
      } else {
        step := Drop(holder);
      }
    }
  }

  ghost predicate Unfinished(s: System, t: TaskId) {
    t in s.tasks && s.tasks[t].rest != []
  }

  ghost predicate CanMove(s: System) {
    exists step :: Enabled(s, step) && !step.Spawn?
  }

  lemma SomethingMoves(d: Discipline, s: System, t: TaskId)
    requires Disciplined(d, s) && Unfinished(s, t)
    ensures CanMove(s)
  {
    if s.tasks[t].queued {
      var step := ChainMoves(d, s, t);
    } else if s.tasks[t].rest[0].Acquire? {
      assert Enabled(s, Enqueue(t));
    } else {
      assert TaskOrdered(d, s.tasks[t]);
      assert Enabled(s, Drop(t));
    }
  }

  ghost predicate IsRun(s: System, steps: seq<Step>)
    decreases |steps|
  {
    steps == [] || (Enabled(s, steps[0]) && IsRun(Take(s, steps[0]), steps[1..]))
  }

  ghost function After(s: System, steps: seq<Step>): System
    requires IsRun(s, steps)
    decreases |steps|
  {
    if steps == [] then s else After(Take(s, steps[0]), steps[1..])
  }

  /** Every task of the run is made of the given sections. */
  ghost predicate Uses(steps: seq<Step>, available: set<Section>) {
    forall k, j :: 0 <= k < |steps| && steps[k].Spawn? && 0 <= j < |steps[k].sections| ==>
      steps[k].sections[j] in available
  }

  /** However many tasks are started from these sections and however they interleave, while one is unfinished some
      task can take a step. */
  ghost predicate DeadlockFree(available: set<Section>) {
    forall steps, t :: Uses(steps, available) && IsRun(START, steps) && Unfinished(After(START, steps), t) ==>
      CanMove(After(START, steps))
  }

  // ----- What the locks protect -----

  /** A lock is held for writing by one task alone, or for reading by any number. */
  ghost predicate Exclusive(s: System) {
    forall t, u, lock ::
      t in s.tasks && u in s.tasks && t != u && lock in s.tasks[t].held && lock in s.tasks[u].held ==>
      s.tasks[t].held[lock] == Read && s.tasks[u].held[lock] == Read
  }

  /** Another task holds nothing of what this one writes, and reads only what this one reads. */
  ghost predicate Apart(mine: map<Lock, Mode>, others: map<Lock, Mode>) {
    forall lock :: lock in mine && lock in others ==> mine[lock] == Read && others[lock] == Read
  }

  lemma ApartFromEach(s: System, t: TaskId, held: map<Lock, Mode>, task: Task, queues: map<Lock, seq<TaskId>>)
    requires Exclusive(s) && task.held == held
    requires forall u :: u in s.tasks && u != t ==> Apart(held, s.tasks[u].held)
    ensures Exclusive(System(s.tasks[t := task], queues))
  {
    var s' := System(s.tasks[t := task], queues);
    forall x, u, lock |
      x in s'.tasks && u in s'.tasks && x != u && lock in s'.tasks[x].held && lock in s'.tasks[u].held
      ensures s'.tasks[x].held[lock] == Read && s'.tasks[u].held[lock] == Read
    {
      if x == t {
        assert Apart(held, s.tasks[u].held);
      } else if u == t {
        assert Apart(held, s.tasks[x].held);
      }
    }
  }

  lemma StepKeepsExclusive(s: System, step: Step)
    requires Exclusive(s) && Enabled(s, step)
    ensures Exclusive(Take(s, step))
  {
    var s', t := Take(s, step), step.id;
    ApartFromEach(s, t, s'.tasks[t].held, s'.tasks[t], s'.queues);
  }

  lemma {:induction false} RunIsExclusive(s: System, steps: seq<Step>)
    requires Exclusive(s) && IsRun(s, steps)
    ensures Exclusive(After(s, steps))
    decreases |steps|
  {
    if steps == [] {
    } else {
      StepKeepsExclusive(s, steps[0]);
      RunIsExclusive(Take(s, steps[0]), steps[1..]);
    }
  }

  /** Main result: in every run, whatever its sections, no two tasks are inside one lock unless both only read. */
  lemma NobodyWritesBesideAnother(steps: seq<Step>)
    requires IsRun(START, steps)
    ensures Exclusive(After(START, steps))
  {
    RunIsExclusive(START, steps);
  }

  /** The data a section reads or writes, as the lock that guards it in the mode for that. */
  function Touches(section: Section): set<Action> {
    match section
    case RegisterCheck(checksNames) => {Acquire(Sessions, Read)} + If(checksNames, Acquire(NameIndex, Read))
    case IndexedWrite(indexed) =>
      {Acquire(Sessions, Write)} + If(indexed, Acquire(NameIndex, Write)) + {Acquire(ConnectionIndex, Write)}
    case SessionsRead => {Acquire(Sessions, Read)}
    case SessionsWrite => {Acquire(Sessions, Write)}
    case UpdateMetadata(keyChanged, nameChanged) =>
      {Acquire(Sessions, Write)} + (If(keyChanged, Acquire(ConnectionIndex, Write))
                                    + If(nameChanged, Acquire(NameIndex, Write)))
    case ClearRegistry => {Acquire(Sessions, Write), Acquire(NameIndex, Write), Acquire(ConnectionIndex, Write)}
    case PoolRead => {Acquire(Pools, Read), Acquire(PoolMetadata, Read)}
    case PoolWrite => {Acquire(Pools, Write), Acquire(PoolMetadata, Write)}
    case PoolListRead => {Acquire(Pools, Read)}
    case PoolMetadataRead => {Acquire(PoolMetadata, Read)}
    case MetricsRead => {Acquire(Metrics, Read)}
    case MetricsWrite => {Acquire(Metrics, Write)}
    case MetricsAndHistory => {Acquire(Metrics, Write), Acquire(History, Write)}
    case MetricsAll =>
      {Acquire(Metrics, Write), Acquire(History, Write), Acquire(Lifetimes, Write), Acquire(IdleTimes, Write)}
    case HistoryWrite => {Acquire(History, Write)}
    case ClientTable => {Acquire(Clients, Write)}
    case NameListing(found) => {Acquire(NameIndex, Read)} + If(found, Acquire(Sessions, Read))
    case ConnectionListing(found) => {Acquire(ConnectionIndex, Read)} + If(found, Acquire(Sessions, Read))
  }

  function If(condition: bool, a: Action): set<Action> {
    if condition then {a} else {}
  }

  function Taken(rest: seq<Action>): set<Action> {
    set a | a in rest && a.Acquire?
  }

  lemma GuardTakes(lock: Lock, mode: Mode, rest: seq<Action>)
    ensures Taken(Guard(lock, mode, rest)) == {Acquire(lock, mode)} + Taken(rest)
  {
  }

  lemma JoinTakes(a: seq<Action>, b: seq<Action>)
    ensures Taken(a + b) == Taken(a) + Taken(b)
  {
  }

  lemma WhenTakes(condition: bool, lock: Lock, mode: Mode)
    ensures Taken(When(condition, Guard(lock, mode, []))) == If(condition, Acquire(lock, mode))
  {
    GuardTakes(lock, mode, []);
    assert Taken([]) == {};
  }

  lemma NestedTakes(outer: Lock, outerMode: Mode, inner: Lock, mode: Mode)
    ensures Taken(Guard(outer, outerMode, Guard(inner, mode, []))) == {Acquire(outer, outerMode), Acquire(inner, mode)}
  {
    GuardTakes(inner, mode, []);
    GuardTakes(outer, outerMode, Guard(inner, mode, []));
    assert Taken([]) == {};
  }

  lemma RegistryScriptsTake(section: Section)
    requires section.RegisterCheck? || section.IndexedWrite? || section.UpdateMetadata? || section.ClearRegistry?
             || section.NameListing? || section.ConnectionListing?
    ensures Taken(Script(section)) == Touches(section)
  {
    match section
    case RegisterCheck(checksNames) =>
      WhenTakes(checksNames, NameIndex, Read);
      GuardTakes(Sessions, Read, When(checksNames, Guard(NameIndex, Read, [])));
    case IndexedWrite(indexed) =>
      var names, keys := When(indexed, Guard(NameIndex, Write, [])), Guard(ConnectionIndex, Write, []);
      WhenTakes(true, Sessions, Write);
      WhenTakes(indexed, NameIndex, Write);
      WhenTakes(true, ConnectionIndex, Write);
      JoinTakes(names, keys);
      JoinTakes(Guard(Sessions, Write, []), names + keys);
    case UpdateMetadata(keyChanged, nameChanged) =>
      var keys := When(keyChanged, Guard(ConnectionIndex, Write, []));
      var names := When(nameChanged, Guard(NameIndex, Write, []));
      WhenTakes(keyChanged, ConnectionIndex, Write);
      WhenTakes(nameChanged, NameIndex, Write);
      JoinTakes(keys, names);
      GuardTakes(Sessions, Write, keys + names);
    case ClearRegistry =>
      NestedTakes(NameIndex, Write, ConnectionIndex, Write);
      GuardTakes(Sessions, Write, Guard(NameIndex, Write, Guard(ConnectionIndex, Write, [])));
    case NameListing(found) =>
      WhenTakes(found, Sessions, Read);
      GuardTakes(NameIndex, Read, When(found, Guard(Sessions, Read, [])));
    case ConnectionListing(found) =>
      WhenTakes(found, Sessions, Read);
      GuardTakes(ConnectionIndex, Read, When(found, Guard(Sessions, Read, [])));
  }

  /** Each section takes the locks of the data it touches, each in its mode, and no others. */
  lemma ScriptsTakeWhatTheyTouch(section: Section)
    ensures Taken(Script(section)) == Touches(section)
  {
    match section
    case SessionsRead => WhenTakes(true, Sessions, Read);
    case SessionsWrite => WhenTakes(true, Sessions, Write);
    case PoolRead => NestedTakes(Pools, Read, PoolMetadata, Read);
    case PoolWrite => NestedTakes(Pools, Write, PoolMetadata, Write);
    case PoolListRead => WhenTakes(true, Pools, Read);
    case PoolMetadataRead => WhenTakes(true, PoolMetadata, Read);
    case MetricsRead => WhenTakes(true, Metrics, Read);
    case MetricsWrite => WhenTakes(true, Metrics, Write);
    case MetricsAndHistory => NestedTakes(Metrics, Write, History, Write);
    case MetricsAll =>
      NestedTakes(Lifetimes, Write, IdleTimes, Write);
      GuardTakes(History, Write, Guard(Lifetimes, Write, Guard(IdleTimes, Write, [])));
      GuardTakes(Metrics, Write, Guard(History, Write, Guard(Lifetimes, Write, Guard(IdleTimes, Write, []))));
    case HistoryWrite => WhenTakes(true, History, Write);
    case ClientTable => WhenTakes(true, Clients, Write);
    case _ => RegistryScriptsTake(section);
  }

  // ----- Which sections are safe together -----

  /** A listing by name must not meet a section that writes the name index inside the primary map, nor both one that
      reads it there and one that writes it alone. A listing by connection key must not meet a section that writes
      the connection index inside the primary map. */
  ghost predicate Safe(available: set<Section>) {
    && (NameListing(true) in available ==>
          && ClearRegistry !in available
          && (forall keyChanged :: UpdateMetadata(keyChanged, true) !in available)
          && !(RegisterCheck(true) in available && IndexedWrite(true) in available))
    && (ConnectionListing(true) in available ==>
          && ClearRegistry !in available
          && (forall nameChanged :: UpdateMetadata(true, nameChanged) !in available))
  }

  function DisciplineOf(available: set<Section>): Discipline {
    Discipline(NameListing(true) in available, ConnectionListing(true) in available,
               NameListing(true) in available && RegisterCheck(true) in available)
  }

  lemma {:induction false} Then(d: Discipline, first: seq<Action>, second: seq<Action>,
                                held: set<Lock>, between: set<Lock>, base: set<Lock>)
    requires Ordered(d, first, held, between) && Ordered(d, second, between, base)
    ensures Ordered(d, first + second, held, base)
  {
    if first == [] {
      assert first + second == second;
    } else {
      assert (first + second)[1..] == first[1..] + second;
      match first[0]
      case Acquire(lock, _) => Then(d, first[1..], second, held + {lock}, between, base);
      case Release(lock) => Then(d, first[1..], second, held - {lock}, between, base);
    }
  }

  lemma GuardOrdered(d: Discipline, lock: Lock, mode: Mode, body: seq<Action>, held: set<Lock>)
    requires Allowed(d, Acquire(lock, mode), held) && Ordered(d, body, held + {lock}, held + {lock})
    ensures Ordered(d, Guard(lock, mode, body), held, held)
  {
    assert (held + {lock}) - {lock} == held;
    assert [Release(lock)][1..] == [];
    Then(d, body, [Release(lock)], held + {lock}, held + {lock}, held);
    var all := Guard(lock, mode, body);
    assert all[1..] == body + [Release(lock)];
  }

  lemma SingleOrdered(d: Discipline, lock: Lock, mode: Mode)
    requires Shared(d, lock) ==> mode == Read
    ensures Ordered(d, Guard(lock, mode, []), {}, {})
  {
    GuardOrdered(d, lock, mode, [], {});
  }

  lemma NestedOrdered(d: Discipline, outer: Lock, outerMode: Mode, inner: Lock, mode: Mode)
    requires Shared(d, outer) ==> outerMode == Read
    requires Allowed(d, Acquire(inner, mode), {} + {outer})
    ensures Ordered(d, Guard(outer, outerMode, Guard(inner, mode, [])), {}, {})
  {
    GuardOrdered(d, inner, mode, [], {} + {outer});
    GuardOrdered(d, outer, outerMode, Guard(inner, mode, []), {});
  }

  lemma IndexedWriteOrdered(d: Discipline, indexed: bool)
    requires indexed ==> !d.namesShared
    ensures Ordered(d, Script(IndexedWrite(indexed)), {}, {})
  {
    SingleOrdered(d, Sessions, Write);
    SingleOrdered(d, ConnectionIndex, Write);
    if indexed {
      SingleOrdered(d, NameIndex, Write);
    }
    Then(d, When(indexed, Guard(NameIndex, Write, [])), Guard(ConnectionIndex, Write, []), {}, {}, {});
    Then(d, Guard(Sessions, Write, []),
         When(indexed, Guard(NameIndex, Write, [])) + Guard(ConnectionIndex, Write, []), {}, {}, {});
  }

  lemma UpdateOrdered(d: Discipline, keyChanged: bool, nameChanged: bool)
    requires keyChanged ==> !d.keysFirst
    requires nameChanged ==> !d.namesFirst && !d.namesShared
    ensures Ordered(d, Script(UpdateMetadata(keyChanged, nameChanged)), {}, {})
  {
    var held := {} + {Sessions};
    var keys := When(keyChanged, Guard(ConnectionIndex, Write, []));
    var names := When(nameChanged, Guard(NameIndex, Write, []));
    if keyChanged {
      GuardOrdered(d, ConnectionIndex, Write, [], held);
    }
    if nameChanged {
      GuardOrdered(d, NameIndex, Write, [], held);
    }
    Then(d, keys, names, held, held, held);
    GuardOrdered(d, Sessions, Write, keys + names, {});
  }

  lemma ClearOrdered(d: Discipline)
    requires !d.namesFirst && !d.keysFirst && !d.namesShared
    ensures Ordered(d, Script(ClearRegistry), {}, {})
  {
    GuardOrdered(d, ConnectionIndex, Write, [], {} + {Sessions} + {NameIndex});
    GuardOrdered(d, NameIndex, Write, Guard(ConnectionIndex, Write, []), {} + {Sessions});
    GuardOrdered(d, Sessions, Write, Guard(NameIndex, Write, Guard(ConnectionIndex, Write, [])), {});
  }

  lemma ClosureOrdered(d: Discipline)
    ensures Ordered(d, Script(MetricsAll), {}, {})
  {
    var first: set<Lock> := {} + {Metrics};
    var idle := Guard(IdleTimes, Write, []);
    var lifetimes := Guard(Lifetimes, Write, idle);
    GuardOrdered(d, IdleTimes, Write, [], first + {History} + {Lifetimes});
    GuardOrdered(d, Lifetimes, Write, idle, first + {History});
    GuardOrdered(d, History, Write, lifetimes, first);
    GuardOrdered(d, Metrics, Write, Guard(History, Write, lifetimes), {});
  }

  /** Each section of a safe set keeps to the order of that set. */
  lemma ScriptsAreOrdered(available: set<Section>, section: Section)
    requires Safe(available) && section in available
    ensures Ordered(DisciplineOf(available), Script(section), {}, {})
  {
    var d := DisciplineOf(available);
    match section
    case RegisterCheck(checksNames) =>
      if checksNames {
        NestedOrdered(d, Sessions, Read, NameIndex, Read);
      } else {
        SingleOrdered(d, Sessions, Read);
      }
    case IndexedWrite(indexed) => IndexedWriteOrdered(d, indexed);
    case UpdateMetadata(keyChanged, nameChanged) => UpdateOrdered(d, keyChanged, nameChanged);
    case ClearRegistry => ClearOrdered(d);
    case NameListing(found) =>
      if found {
        NestedOrdered(d, NameIndex, Read, Sessions, Read);
      } else {
        SingleOrdered(d, NameIndex, Read);
      }
    case ConnectionListing(found) =>
      if found {
        NestedOrdered(d, ConnectionIndex, Read, Sessions, Read);
      } else {
        SingleOrdered(d, ConnectionIndex, Read);
      }
    case PoolRead => NestedOrdered(d, Pools, Read, PoolMetadata, Read);
    case PoolWrite => NestedOrdered(d, Pools, Write, PoolMetadata, Write);
    case MetricsAndHistory => NestedOrdered(d, Metrics, Write, History, Write);
    case MetricsAll => ClosureOrdered(d);
    case SessionsRead => SingleOrdered(d, Sessions, Read);
    case SessionsWrite => SingleOrdered(d, Sessions, Write);
    case PoolListRead => SingleOrdered(d, Pools, Read);
    case PoolMetadataRead => SingleOrdered(d, PoolMetadata, Read);
    case MetricsRead => SingleOrdered(d, Metrics, Read);
    case MetricsWrite => SingleOrdered(d, Metrics, Write);
    case HistoryWrite => SingleOrdered(d, History, Write);
    case ClientTable => SingleOrdered(d, Clients, Write);
  }

  /** So does every operation, being a sequence of sections. */
  lemma {:induction false} OperationsAreOrdered(available: set<Section>, sections: seq<Section>)
    requires Safe(available) && forall j :: 0 <= j < |sections| ==> sections[j] in available
    ensures Ordered(DisciplineOf(available), Program(sections), {}, {})
  {
    if sections == [] {
    } else {
      ScriptsAreOrdered(available, sections[0]);
      OperationsAreOrdered(available, sections[1..]);
      Then(DisciplineOf(available), Script(sections[0]), Program(sections[1..]), {}, {}, {});
    }
  }

  lemma {:induction false} RunKeepsDiscipline(available: set<Section>, s: System, steps: seq<Step>)
    requires Safe(available) && Uses(steps, available)
    requires Disciplined(DisciplineOf(available), s) && IsRun(s, steps)
    ensures Disciplined(DisciplineOf(available), After(s, steps))
    decreases |steps|
  {
    if steps == [] {
    } else {
      var first := steps[0];
      if first.Spawn? {
        OperationsAreOrdered(available, first.sections);
      }
      StepKeepsDiscipline(DisciplineOf(available), s, first);
      RunKeepsDiscipline(available, Take(s, first), steps[1..]);
    }
  }

  lemma NoDeadlock(available: set<Section>)
    requires Safe(available)
    ensures DeadlockFree(available)
  {
    forall steps, t | Uses(steps, available) && IsRun(START, steps) && Unfinished(After(START, steps), t)
      ensures CanMove(After(START, steps))
    {
      RunKeepsDiscipline(available, START, steps);
      SomethingMoves(DisciplineOf(available), After(START, steps), t);
    }
  }

  // ----- The deadlocks of the other sets -----

  /** A run of tasks made of these sections leads from the one state to the other. */
  ghost predicate Reaches(available: set<Section>, s: System, s': System) {
    exists steps :: Uses(steps, available) && IsRun(s, steps) && After(s, steps) == s'
  }

  lemma RunOfOneMore(s: System, first: Step, rest: seq<Step>)
    requires Enabled(s, first) && IsRun(Take(s, first), rest)
    ensures IsRun(s, [first] + rest) && After(s, [first] + rest) == After(Take(s, first), rest)
  {
    assert ([first] + rest)[1..] == rest;
  }

  lemma {:induction false} RunThenRun(s: System, first: seq<Step>, second: seq<Step>, available: set<Section>)
      returns (steps: seq<Step>)
    requires IsRun(s, first) && IsRun(After(s, first), second) && Uses(first, available) && Uses(second, available)
    ensures IsRun(s, steps) && After(s, steps) == After(After(s, first), second) && Uses(steps, available)
    decreases |first|
  {
    if first == [] {
      steps := second;
    } else {
      var rest := RunThenRun(Take(s, first[0]), first[1..], second, available);
      RunOfOneMore(s, first[0], rest);
      steps := [first[0]] + rest;
    }
  }

  lemma ReachesOn(available: set<Section>, s: System, between: System, s': System)
    requires Reaches(available, s, between) && Reaches(available, between, s')
    ensures Reaches(available, s, s')
  {
    var first :| Uses(first, available) && IsRun(s, first) && After(s, first) == between;
    var second :| Uses(second, available) && IsRun(between, second) && After(between, second) == s';
    var steps := RunThenRun(s, first, second, available);
  }

  lemma ReachesByOne(available: set<Section>, s: System, step: Step)
    requires Enabled(s, step) && Uses([step], available)
    ensures Reaches(available, s, Take(s, step))
  {
    RunOfOneMore(s, step, []);
    assert [step] + [] == [step];
  }

  lemma ReachesQueued(available: set<Section>, s: System, t: TaskId, lock: Lock, s': System)
    requires t in s.tasks && !s.tasks[t].queued && s.tasks[t].rest != []
    requires s.tasks[t].rest[0].Acquire? && s.tasks[t].rest[0].lock == lock
    requires s'.tasks == s.tasks[t := s.tasks[t].(queued := true)]
    requires s'.queues == s.queues[lock := Queue(s, lock) + [t]]
    ensures Reaches(available, s, s')
  {
    ReachesByOne(available, s, Enqueue(t));
  }

  /** The task after its next action, taken without waiting. */
  function Advanced(task: Task): Task
    requires task.rest != []
  {
    match task.rest[0]
    case Acquire(lock, mode) => Task(task.rest[1..], task.held[lock := mode], false)
    case Release(lock) => Task(task.rest[1..], task.held - {lock}, false)
  }

  /** Where nobody waits, a task whose next lock is free takes its next action. */
  lemma ReachesAdvanced(available: set<Section>, s: System, t: TaskId)
    requires s.queues == map[] && t in s.tasks && !s.tasks[t].queued && s.tasks[t].rest != []
    requires s.tasks[t].rest[0].Acquire? ==> Compatible(s, s.tasks[t].rest[0].lock, s.tasks[t].rest[0].mode)
    ensures Reaches(available, s, System(s.tasks[t := Advanced(s.tasks[t])], map[]))
  {
    var s' := System(s.tasks[t := Advanced(s.tasks[t])], map[]);
    if s.tasks[t].rest[0].Acquire? {
      var lock := s.tasks[t].rest[0].lock;
      var waiting := Take(s, Enqueue(t));
      assert Queue(waiting, lock) == [t];
      assert Take(waiting, Grant(t)).tasks == s'.tasks;
      assert Take(waiting, Grant(t)).queues == s'.queues;
      ReachesByOne(available, s, Enqueue(t));
      ReachesByOne(available, waiting, Grant(t));
      ReachesOn(available, s, waiting, s');
    } else {
      ReachesByOne(available, s, Drop(t));
    }
  }

  /** The tasks just started, each of one section. */
  ghost function Fresh(sections: seq<Section>): map<TaskId, Task> {
    map t: TaskId | 0 <= t < |sections| :: Task(Script(sections[t]), map[], false)
  }

  lemma {:induction false} ReachesFresh(available: set<Section>, sections: seq<Section>)
    requires forall j :: 0 <= j < |sections| ==> sections[j] in available
    ensures Reaches(available, START, System(Fresh(sections), map[]))
  {
    if sections == [] {
      var none: seq<Step> := [];
      assert Fresh(sections) == map[];
      assert IsRun(START, none) && After(START, none) == START && Uses(none, available);
    } else {
      var n := |sections| - 1;
      ReachesFresh(available, sections[..n]);
      var before := System(Fresh(sections[..n]), map[]);
      var step := Spawn(n, [sections[n]]);
      assert Program([sections[n]]) == Script(sections[n]);
      assert Take(before, step).tasks == Fresh(sections);
      ReachesByOne(available, before, step);
      ReachesOn(available, START, before, Take(before, step));
    }
  }

  lemma StuckIsDeadlock(available: set<Section>, s: System, t: TaskId)
    requires Reaches(available, START, s) && Unfinished(s, t) && !CanMove(s)
    ensures !DeadlockFree(available)
  {
    var steps :| Uses(steps, available) && IsRun(START, steps) && After(START, steps) == s;
  }

  /** Two tasks and nobody waiting. */
  ghost function Two(first: Task, second: Task): System {
    System(map[0 := first, 1 := second], map[])
  }

  lemma FirstAdvances(available: set<Section>, first: Task, second: Task)
    requires !first.queued && first.rest != []
    requires first.rest[0].Acquire? ==> first.rest[0].lock !in first.held && first.rest[0].lock !in second.held
    ensures Reaches(available, Two(first, second), Two(Advanced(first), second))
  {
    ReachesAdvanced(available, Two(first, second), 0);
    assert Two(first, second).tasks[0 := Advanced(first)] == Two(Advanced(first), second).tasks;
  }

  lemma SecondAdvances(available: set<Section>, first: Task, second: Task)
    requires !second.queued && second.rest != []
    requires second.rest[0].Acquire? ==> second.rest[0].lock !in first.held && second.rest[0].lock !in second.held
    ensures Reaches(available, Two(first, second), Two(first, Advanced(second)))
  {
    ReachesAdvanced(available, Two(first, second), 1);
    assert Two(first, second).tasks[1 := Advanced(second)] == Two(first, Advanced(second)).tasks;
  }

  /** The sections that write the index while they hold the primary map. */
  predicate WritesInside(section: Section, index: Lock) {
    || section == ClearRegistry
    || (section.UpdateMetadata? && if index == NameIndex then section.nameChanged else section.keyChanged)
  }

  /** Such a section holds the primary map for writing and is about to ask for the index. */
  ghost predicate AsksInside(task: Task, index: Lock) {
    && task.rest != [] && task.rest[0] == Acquire(index, Write) && !task.queued
    && Sessions in task.held && task.held[Sessions] == Write && index !in task.held
  }

  lemma WriterGetsInside(available: set<Section>, section: Section, index: Lock, other: Task) returns (writer: Task)
    requires (index == NameIndex || index == ConnectionIndex) && WritesInside(section, index) && other.held == map[]
    ensures AsksInside(writer, index)
    ensures Reaches(available, Two(Task(Script(section), map[], false), other), Two(writer, other))
  {
    var start := Task(Script(section), map[], false);
    assert start.rest[0] == Acquire(Sessions, Write);
    FirstAdvances(available, start, other);
    writer := Advanced(start);
    if writer.rest[0].lock != index {
      var inner := writer;
      assert inner.rest[0] == Acquire(if section == ClearRegistry then NameIndex else ConnectionIndex, Write);
      FirstAdvances(available, inner, other);
      writer := Advanced(inner);
      ReachesOn(available, Two(start, other), Two(inner, other), Two(writer, other));
      if section.UpdateMetadata? {
        var leaving := writer;
        assert leaving.rest[0] == Release(ConnectionIndex);
        FirstAdvances(available, leaving, other);
        writer := Advanced(leaving);
        ReachesOn(available, Two(start, other), Two(leaving, other), Two(writer, other));
      }
    }
  }

  /** A listing that holds the index and is about to ask for the primary map. */
  ghost predicate AsksOutside(task: Task, index: Lock) {
    && task.rest != [] && task.rest[0] == Acquire(Sessions, Read) && !task.queued
    && task.held == map[index := Read]
  }

  ghost function Crossed(writer: Task, listing: Task, index: Lock): System {
    System(map[0 := writer.(queued := true), 1 := listing.(queued := true)], map[index := [0], Sessions := [1]])
  }

  lemma CrossedIsStuck(writer: Task, listing: Task, index: Lock)
    requires index != Sessions && AsksInside(writer, index) && AsksOutside(listing, index)
    ensures !CanMove(Crossed(writer, listing, index))
  {
    var s := Crossed(writer, listing, index);
    assert !Compatible(s, index, Write) by { assert index in s.tasks[1].held; }
    assert !Compatible(s, Sessions, Read) by { assert Sessions in s.tasks[0].held; }
  }

  lemma ReachesCrossed(available: set<Section>, writer: Task, listing: Task, index: Lock)
    requires index != Sessions && AsksInside(writer, index) && AsksOutside(listing, index)
    ensures Reaches(available, Two(writer, listing), Crossed(writer, listing, index))
  {
    var s, last := Two(writer, listing), Crossed(writer, listing, index);
    var between := Take(s, Enqueue(0));
    assert Queue(s, index) + [0] == [0] && Queue(between, Sessions) + [1] == [1];
    assert Take(between, Enqueue(1)).tasks == last.tasks;
    assert Take(between, Enqueue(1)).queues == last.queues;
    ReachesByOne(available, s, Enqueue(0));
    ReachesByOne(available, between, Enqueue(1));
    ReachesOn(available, s, between, last);
  }

  predicate ListsBy(section: Section, index: Lock) {
    section == if index == NameIndex then NameListing(true) else ConnectionListing(true)
  }

  /** A section that writes an index inside the primary map and a listing by that index can stop for ever: each holds
      what the other one waits for. */
  lemma ListingCanDeadlock(available: set<Section>, section: Section, listing: Section, index: Lock)
    requires index == NameIndex || index == ConnectionIndex
    requires section in available && listing in available && WritesInside(section, index) && ListsBy(listing, index)
    ensures !DeadlockFree(available)
  {
    var first, second := Task(Script(section), map[], false), Task(Script(listing), map[], false);
    ReachesFresh(available, [section, listing]);
    assert Fresh([section, listing]) == Two(first, second).tasks;
    var writer := WriterGetsInside(available, section, index, second);
    ReachesOn(available, START, Two(first, second), Two(writer, second));
    assert second.rest[0] == Acquire(index, Read);
    SecondAdvances(available, writer, second);
    var lister := Advanced(second);
    ReachesOn(available, START, Two(writer, second), Two(writer, lister));
    ReachesCrossed(available, writer, lister, index);
    var last := Crossed(writer, lister, index);
    ReachesOn(available, START, Two(writer, lister), last);
    CrossedIsStuck(writer, lister, index);
    assert Unfinished(last, 0);
    StuckIsDeadlock(available, last, 0);
  }

  /** A registration check, a listing by name and two registrations past their checks. */
  ghost function Four(check: Task, listing: Task, indexing: Task, storing: Task): System {
    System(map[0 := check, 1 := listing, 2 := indexing, 3 := storing], map[])
  }

  const CHECKING := Task(Script(RegisterCheck(true)), map[], false)
  const LISTING := Task(Script(NameListing(true)), map[], false)
  const STORING := Task(Script(IndexedWrite(true)), map[], false)

  /** A registration whose session is stored and not yet indexed. */
  const STORED := Advanced(STORING)
  const INDEXING := Advanced(STORED)
  const CHECKED := Advanced(CHECKING)
  const LISTED := Advanced(LISTING)

  lemma WhatIsNext()
    ensures CHECKING.rest[0] == Acquire(Sessions, Read) && LISTING.rest[0] == Acquire(NameIndex, Read)
    ensures STORING.rest[0] == Acquire(Sessions, Write) && STORED.rest[0] == Release(Sessions)
    ensures STORED.held == map[Sessions := Write] && INDEXING.held == map[]
    ensures INDEXING.rest != [] && INDEXING.rest[0] == Acquire(NameIndex, Write)
    ensures CHECKED.rest != [] && CHECKED.rest[0] == Acquire(NameIndex, Read) && CHECKED.held == map[Sessions := Read]
    ensures LISTED.rest != [] && LISTED.rest[0] == Acquire(Sessions, Read) && LISTED.held == map[NameIndex := Read]
  {
    assert STORED.rest == [Release(Sessions)] + INDEXING.rest;
  }

  lemma OneOfFourAdvances(available: set<Section>, s: System, t: TaskId, s': System)
    requires s.queues == map[] && t in s.tasks && !s.tasks[t].queued && s.tasks[t].rest != []
    requires s.tasks[t].rest[0].Acquire? ==> Compatible(s, s.tasks[t].rest[0].lock, s.tasks[t].rest[0].mode)
    requires s'.queues == map[] && s'.tasks == s.tasks[t := Advanced(s.tasks[t])]
    ensures Reaches(available, s, s')
  {
    ReachesAdvanced(available, s, t);
  }

  lemma ReachesStored(available: set<Section>)
    ensures Reaches(available, Four(CHECKING, LISTING, STORING, STORING), Four(CHECKING, LISTING, INDEXING, STORING))
  {
    WhatIsNext();
    var s0, s1 := Four(CHECKING, LISTING, STORING, STORING), Four(CHECKING, LISTING, STORED, STORING);
    OneOfFourAdvances(available, s0, 2, s1);
    OneOfFourAdvances(available, s1, 2, Four(CHECKING, LISTING, INDEXING, STORING));
    ReachesOn(available, s0, s1, Four(CHECKING, LISTING, INDEXING, STORING));
  }

  lemma CheckTakesSessions(available: set<Section>, check: Task, listing: Task, indexing: Task, storing: Task)
    requires listing.held == indexing.held == storing.held == map[] && check.held == map[] && !check.queued
    requires check.rest != [] && check.rest[0] == Acquire(Sessions, Read)
    ensures Reaches(available, Four(check, listing, indexing, storing),
                    Four(Advanced(check), listing, indexing, storing))
  {
    OneOfFourAdvances(available, Four(check, listing, indexing, storing), 0,
                      Four(Advanced(check), listing, indexing, storing));
  }

  lemma ListingTakesIndex(available: set<Section>, check: Task, listing: Task, indexing: Task, storing: Task)
    requires listing.held == indexing.held == storing.held == map[] && NameIndex !in check.held && !listing.queued
    requires listing.rest != [] && listing.rest[0] == Acquire(NameIndex, Read)
    ensures Reaches(available, Four(check, listing, indexing, storing),
                    Four(check, Advanced(listing), indexing, storing))
  {
    OneOfFourAdvances(available, Four(check, listing, indexing, storing), 1,
                      Four(check, Advanced(listing), indexing, storing));
  }

  /** The indexing registration has stored its session, the check and the listing hold their first locks. */
  lemma ReachesFourHolding(available: set<Section>)
    ensures Reaches(available, Four(CHECKING, LISTING, STORING, STORING), Four(CHECKED, LISTED, INDEXING, STORING))
  {
    WhatIsNext();
    ReachesStored(available);
    CheckTakesSessions(available, CHECKING, LISTING, INDEXING, STORING);
    ListingTakesIndex(available, CHECKED, LISTING, INDEXING, STORING);
    var s, checked := Four(CHECKING, LISTING, STORING, STORING), Four(CHECKED, LISTING, INDEXING, STORING);
    ReachesOn(available, s, Four(CHECKING, LISTING, INDEXING, STORING), checked);
    ReachesOn(available, s, checked, Four(CHECKED, LISTED, INDEXING, STORING));
  }

  /** The two writers wait, each for a lock that a reader holds. */
  ghost function WritersWait(check: Task, listing: Task, indexing: Task, storing: Task): System {
    System(map[0 := check, 1 := listing, 2 := indexing.(queued := true), 3 := storing.(queued := true)],
           map[NameIndex := [2], Sessions := [3]])
  }

  lemma ReachesWritersWait(available: set<Section>, check: Task, listing: Task, indexing: Task, storing: Task)
    requires !indexing.queued && indexing.rest != [] && indexing.rest[0] == Acquire(NameIndex, Write)
    requires !storing.queued && storing.rest != [] && storing.rest[0] == Acquire(Sessions, Write)
    ensures Reaches(available, Four(check, listing, indexing, storing), WritersWait(check, listing, indexing, storing))
  {
    var s, last := Four(check, listing, indexing, storing), WritersWait(check, listing, indexing, storing);
    var between := Take(s, Enqueue(2));
    assert Queue(s, NameIndex) + [2] == [2] && Queue(between, Sessions) + [3] == [3];
    assert Take(between, Enqueue(3)).tasks == last.tasks;
    assert Take(between, Enqueue(3)).queues == last.queues;
    ReachesByOne(available, s, Enqueue(2));
    ReachesByOne(available, between, Enqueue(3));
    ReachesOn(available, s, between, last);
  }

  /** The check waits behind the one writer and the listing behind the other. */
  ghost function Interlocked(check: Task, listing: Task, indexing: Task, storing: Task): System {
    System(map[0 := check.(queued := true), 1 := listing.(queued := true),
               2 := indexing.(queued := true), 3 := storing.(queued := true)],
           map[NameIndex := [2] + [0], Sessions := [3] + [1]])
  }

  lemma ReachesInterlocked(available: set<Section>, check: Task, listing: Task, indexing: Task, storing: Task)
    requires !check.queued && check.rest != [] && check.rest[0] == Acquire(NameIndex, Read)
    requires !listing.queued && listing.rest != [] && listing.rest[0] == Acquire(Sessions, Read)
    ensures Reaches(available, WritersWait(check, listing, indexing, storing),
                    Interlocked(check, listing, indexing, storing))
  {
    var s, last := WritersWait(check, listing, indexing, storing), Interlocked(check, listing, indexing, storing);
    var between := System(s.tasks[0 := check.(queued := true)], s.queues[NameIndex := [2] + [0]]);
    assert Queue(s, NameIndex) == [2] && Queue(between, Sessions) == [3];
    assert between.tasks[1 := listing.(queued := true)] == last.tasks;
    assert between.queues[Sessions := [3] + [1]] == last.queues;
    ReachesQueued(available, s, 0, NameIndex, between);
    ReachesQueued(available, between, 1, Sessions, last);
    ReachesOn(available, s, between, last);
  }

  lemma InterlockedIsStuck(check: Task, listing: Task, indexing: Task, storing: Task)
    requires check.held == map[Sessions := Read] && listing.held == map[NameIndex := Read]
    requires indexing.rest != [] && indexing.rest[0] == Acquire(NameIndex, Write)
    requires storing.rest != [] && storing.rest[0] == Acquire(Sessions, Write)
    requires check.rest != [] && check.rest[0] == Acquire(NameIndex, Read)
    requires listing.rest != [] && listing.rest[0] == Acquire(Sessions, Read)
    ensures !CanMove(Interlocked(check, listing, indexing, storing))
  {
    var s := Interlocked(check, listing, indexing, storing);
    assert !Compatible(s, NameIndex, Write) by { assert NameIndex in s.tasks[1].held; }
    assert !Compatible(s, Sessions, Write) by { assert Sessions in s.tasks[0].held; }
  }

  lemma ReachesFourWaiting(available: set<Section>)
    ensures Reaches(available, Four(CHECKING, LISTING, STORING, STORING),
                    Interlocked(CHECKED, LISTED, INDEXING, STORING))
    ensures !CanMove(Interlocked(CHECKED, LISTED, INDEXING, STORING))
  {
    WhatIsNext();
    ReachesFourHolding(available);
    ReachesWritersWait(available, CHECKED, LISTED, INDEXING, STORING);
    ReachesInterlocked(available, CHECKED, LISTED, INDEXING, STORING);
    InterlockedIsStuck(CHECKED, LISTED, INDEXING, STORING);
    var s, waiting := Four(CHECKING, LISTING, STORING, STORING), WritersWait(CHECKED, LISTED, INDEXING, STORING);
    ReachesOn(available, s, Four(CHECKED, LISTED, INDEXING, STORING), waiting);
    ReachesOn(available, s, waiting, Interlocked(CHECKED, LISTED, INDEXING, STORING));
  }

  lemma ReachesFour(available: set<Section>)
    requires NameListing(true) in available && RegisterCheck(true) in available && IndexedWrite(true) in available
    ensures Reaches(available, START, Four(CHECKING, LISTING, STORING, STORING))
  {
    var sections := [RegisterCheck(true), NameListing(true), IndexedWrite(true), IndexedWrite(true)];
    ReachesFresh(available, sections);
    var started, four := Fresh(sections), Four(CHECKING, LISTING, STORING, STORING).tasks;
    assert started.Keys == four.Keys == {0, 1, 2, 3};
    assert started[0] == four[0] && started[1] == four[1] && started[2] == four[2] && started[3] == four[3];
    assert started == four;
  }

  /** No metadata update is needed: registrations alone can stop for ever against a listing by name. */
  lemma RegistrationsCanDeadlock(available: set<Section>)
    requires NameListing(true) in available && RegisterCheck(true) in available && IndexedWrite(true) in available
    ensures !DeadlockFree(available)
  {
    var s, last := Four(CHECKING, LISTING, STORING, STORING), Interlocked(CHECKED, LISTED, INDEXING, STORING);
    ReachesFour(available);
    ReachesFourWaiting(available);
    ReachesOn(available, START, s, last);
    assert Unfinished(last, 0) by { WhatIsNext(); }
    StuckIsDeadlock(available, last, 0);
  }

  /** Main result: which sections may run together, in any number of tasks and any interleaving, without ever all
      being stuck. */
  lemma DeadlockFreeIff(available: set<Section>)
    ensures DeadlockFree(available) <==> Safe(available)
  {
    if Safe(available) {
      NoDeadlock(available);
    } else if NameListing(true) in available && RegisterCheck(true) in available && IndexedWrite(true) in available {
      RegistrationsCanDeadlock(available);
    } else {
      var index := if NameListing(true) in available && exists s :: s in available && WritesInside(s, NameIndex)
                   then NameIndex else ConnectionIndex;
      var section :| section in available && WritesInside(section, index);
      var listing := if index == NameIndex then NameListing(true) else ConnectionListing(true);
      ListingCanDeadlock(available, section, listing, index);
    }
  }
}
