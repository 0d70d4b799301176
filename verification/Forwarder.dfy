/** The remote server's port forwarder: accept loops and relay tasks that write events into one buffer, which polls
    drain (crates/remote/src/main.rs, crates/core/src/protocol/buffer.rs). */
module Forwarder {
  import opened Common

  type ConnId = nat
  type PortNo = nat

  datatype Item =
    | NewConnection(id: ConnId, port: PortNo)
    | PortForwardData(id: ConnId, data: seq<nat>)
    | CloseConnection(id: ConnId)
    | ClipboardContent(content: string)

  // ----- The response buffer -----

  datatype Buffer = Buffer(items: seq<Item>, pending: map<ConnId, PortNo>, closed: seq<ConnId>)

  /** What the four `add_*` methods do. */
  function Add(b: Buffer, item: Item): Buffer {
    match item
    case NewConnection(id, port) => b.(items := b.items + [item], pending := b.pending[id := port])
    case CloseConnection(id) => Buffer(b.items + [item], b.pending - {id}, b.closed + [id])
    case PortForwardData(_, _) => b.(items := b.items + [item])
    case ClipboardContent(_) => b.(items := b.items + [item])
  }

  /** Whatever is added goes to the end; an announced connection becomes pending, and a close ends that and is noted. */
  lemma AddAppends(b: Buffer, item: Item)
    ensures var after := Add(b, item);
            && after.items == b.items + [item]
            && after.closed == b.closed + (if item.CloseConnection? then [item.id] else [])
            && after.pending.Keys == (if item.NewConnection? then b.pending.Keys + {item.id}
                                      else if item.CloseConnection? then b.pending.Keys - {item.id} else b.pending.Keys)
            && (item.NewConnection? ==> after.pending[item.id] == item.port)
            && (forall id :: id in after.pending && (item.NewConnection? ==> id != item.id) ==>
                  id in b.pending && after.pending[id] == b.pending[id])
  {
  }

  class ResponseBuffer {
    var items: seq<Item>
    var pendingConnections: map<ConnId, PortNo>
    var closedConnections: seq<ConnId>

    ghost function State(): Buffer
      reads this
    {
      Buffer(items, pendingConnections, closedConnections)
    }

    constructor ()
      ensures State() == Buffer([], map[], [])
    {
      items, pendingConnections, closedConnections := [], map[], [];
    }

    method AddNewConnection(id: ConnId, port: PortNo)
      modifies this
      ensures State() == Add(old(State()), NewConnection(id, port))
    {
      pendingConnections := pendingConnections[id := port];
      items := items + [NewConnection(id, port)];
    }

    method AddCloseConnection(id: ConnId)
      modifies this
      ensures State() == Add(old(State()), CloseConnection(id))
    {
      pendingConnections := pendingConnections - {id};
      closedConnections := closedConnections + [id];
      items := items + [CloseConnection(id)];
    }

    method AddPortForwardData(id: ConnId, data: seq<nat>)
      modifies this
      ensures State() == Add(old(State()), PortForwardData(id, data))
    {
      items := items + [PortForwardData(id, data)];
    }

    method AddClipboardContent(content: string)
      modifies this
      ensures State() == Add(old(State()), ClipboardContent(content))
    {
      items := items + [ClipboardContent(content)];
    }

    /** Hands over all items; the connection bookkeeping stays. */
    method TakeItems() returns (taken: seq<Item>)
      modifies this`items
      ensures taken == old(items) && items == []
    {
      taken := items;
      items := [];
    }
  }

  // ----- The tasks -----

  /** Where the task of one connection stands. */
  datatype Phase =
    | Accepted(port: PortNo)
    | Announced
    | Relaying
    | Leaving
    | Finished

  /** `drained` are the batches handed to polls so far; `stopping` holds while a stop has the connection table locked
      and lists the ids it still has to remove. */
  datatype Server = Server(
    nextId: ConnId,
    buffer: Buffer,
    drained: seq<seq<Item>>,
    active: set<ConnId>,
    tasks: map<ConnId, Phase>,
    stopping: Option<seq<ConnId>>)

  const START := Server(1, Buffer([], map[], []), [], {}, map[], None)

  datatype Step =
    | Accept(port: PortNo)
    | Announce(id: ConnId)
    | ConnectTarget(id: ConnId)
    | ConnectFails(id: ConnId)
    | RelayData(id: ConnId, data: seq<nat>)
    | RelayEnds(id: ConnId)
    | RelayCloses(id: ConnId)
    | StopBegins(port: PortNo, order: seq<ConnId>)
    | StopRemoves
    | StopEnds
    | Poll
    | GetClipboard(content: string)

  /** A stop keeps the table locked, so no task enters or leaves it meanwhile; requests are served one at a time, so
      there is no poll either. */
  ghost predicate Enabled(s: Server, step: Step) {
    match step
    case Accept(_) => true
    case Announce(id) => id in s.tasks && s.tasks[id].Accepted?
    case ConnectTarget(id) => id in s.tasks && s.tasks[id].Announced? && s.stopping.None?
    case ConnectFails(id) => id in s.tasks && s.tasks[id].Announced?
    case RelayData(id, _) => id in s.tasks && s.tasks[id].Relaying?
    case RelayEnds(id) => id in s.tasks && s.tasks[id].Relaying? && s.stopping.None?
    case RelayCloses(id) => id in s.tasks && s.tasks[id].Leaving?
    case StopBegins(_, order) => s.stopping.None? && Enumerates(order, s.active)
    case StopRemoves => s.stopping.Some? && s.stopping.value != []
    case StopEnds => s.stopping == Some([])
    case Poll => s.stopping.None?
    case GetClipboard(_) => s.stopping.None?
  }

  /** The items a step adds to the buffer. */
  ghost function Added(s: Server, step: Step): seq<Item>
    requires Enabled(s, step)
  {
    match step
    case Announce(id) => [NewConnection(id, s.tasks[id].port)]
    case ConnectFails(id) => [CloseConnection(id)]
    case RelayData(id, data) => [PortForwardData(id, data)]
    case RelayCloses(id) => [CloseConnection(id)]
    case StopRemoves => [CloseConnection(s.stopping.value[0])]
    case GetClipboard(content) => [ClipboardContent(content)]
    case _ => []
  }

  ghost function Take(s: Server, step: Step): Server
    requires Enabled(s, step)
  {
    match step
    case Accept(port) => s.(nextId := s.nextId + 1, tasks := s.tasks[s.nextId := Accepted(port)])
    case Announce(id) =>
      s.(buffer := Add(s.buffer, NewConnection(id, s.tasks[id].port)), tasks := s.tasks[id := Announced])
    case ConnectTarget(id) => s.(active := s.active + {id}, tasks := s.tasks[id := Relaying])
    case ConnectFails(id) => s.(buffer := Add(s.buffer, CloseConnection(id)), tasks := s.tasks[id := Finished])
    case RelayData(id, data) => s.(buffer := Add(s.buffer, PortForwardData(id, data)))
    case RelayEnds(id) => s.(active := s.active - {id}, tasks := s.tasks[id := Leaving])
    case RelayCloses(id) => s.(buffer := Add(s.buffer, CloseConnection(id)), tasks := s.tasks[id := Finished])
    case StopBegins(_, order) => s.(stopping := Some(order))
    case StopRemoves =>
      var id := s.stopping.value[0];
      s.(active := s.active - {id}, buffer := Add(s.buffer, CloseConnection(id)),
         stopping := Some(s.stopping.value[1..]))
    case StopEnds => s.(stopping := None)
    case Poll => s.(drained := s.drained + [s.buffer.items], buffer := s.buffer.(items := []))
    case GetClipboard(content) =>
      s.(drained := s.drained + [s.buffer.items + [ClipboardContent(content)]], buffer := s.buffer.(items := []))
  }

  ghost predicate IsRun(s: Server, steps: seq<Step>)
    decreases |steps|
  {
    steps == [] || (Enabled(s, steps[0]) && IsRun(Take(s, steps[0]), steps[1..]))
  }

  ghost function After(s: Server, steps: seq<Step>): Server
    requires IsRun(s, steps)
    decreases |steps|
  {
    if steps == [] then s else After(Take(s, steps[0]), steps[1..])
  }

  function Accepts(steps: seq<Step>): nat {
    if steps == [] then 0 else CountIf(steps[0].Accept?) + Accepts(steps[1..])
  }

  /** Connections are numbered in the order in which they are accepted, without gaps. */
  lemma {:induction false} AcceptsAreNumbered(s: Server, steps: seq<Step>)
    requires IsRun(s, steps)
    ensures After(s, steps).nextId == s.nextId + Accepts(steps)
    decreases |steps|
  {
    if steps == [] {
    } else {
      AcceptsAreNumbered(Take(s, steps[0]), steps[1..]);
    }
  }

  /** Everything the steps of a run add, in order. */
  ghost function AllAdded(s: Server, steps: seq<Step>): seq<Item>
    requires IsRun(s, steps)
    decreases |steps|
  {
    if steps == [] then [] else Added(s, steps[0]) + AllAdded(Take(s, steps[0]), steps[1..])
  }

  /** What the requests have taken out of the buffer and what the next one will take. */
  ghost function Log(s: Server): seq<Item> {
    Flatten(s.drained) + s.buffer.items
  }

  lemma StepExtendsLog(s: Server, step: Step)
    requires Enabled(s, step)
    ensures Log(Take(s, step)) == Log(s) + Added(s, step)
  {
    if step.Poll? {
      FlattenAppend(s.drained, s.buffer.items);
    } else if step.GetClipboard? {
      FlattenAppend(s.drained, s.buffer.items + Added(s, step));
    }
  }

  /** Main result: for every interleaving, the drained batches followed by the buffer are everything ever added, in
      order. */
  lemma {:induction false} NothingLostOrReordered(s: Server, steps: seq<Step>)
    requires IsRun(s, steps)
    ensures Log(After(s, steps)) == Log(s) + AllAdded(s, steps)
    decreases |steps|
  {
    if steps == [] {
    } else {
      StepExtendsLog(s, steps[0]);
      NothingLostOrReordered(Take(s, steps[0]), steps[1..]);
      assert Log(s) + Added(s, steps[0]) + AllAdded(Take(s, steps[0]), steps[1..])
          == Log(s) + (Added(s, steps[0]) + AllAdded(Take(s, steps[0]), steps[1..]));
    }
  }

  // ----- The events of one connection -----

  predicate Concerns(item: Item, id: ConnId) {
    match item
    case NewConnection(x, _) => x == id
    case PortForwardData(x, _) => x == id
    case CloseConnection(x) => x == id
    case ClipboardContent(_) => false
  }

  /** The items of the log that concern one connection, in order. */
  function Events(log: seq<Item>, id: ConnId): seq<Item> {
    if log == [] then [] else
      Events(log[..|log| - 1], id) + (if Concerns(log[|log| - 1], id) then [log[|log| - 1]] else [])
  }

  function Closes(events: seq<Item>): nat {
    if events == [] then 0 else
      Closes(events[..|events| - 1]) + (if events[|events| - 1].CloseConnection? then 1 else 0)
  }

  lemma EventsAppend(log: seq<Item>, item: Item, id: ConnId)
    ensures Events(log + [item], id) == if Concerns(item, id) then Events(log, id) + [item] else Events(log, id)
  {
    assert (log + [item])[..|log|] == log;
    assert Events(log, id) + [] == Events(log, id);
  }

  lemma ClosesAppend(events: seq<Item>, item: Item)
    ensures Closes(events + [item]) == Closes(events) + (if item.CloseConnection? then 1 else 0)
  {
    assert (events + [item])[..|events|] == events;
  }

  /** The events begin with the only NewConnection. */
  ghost predicate Introduced(events: seq<Item>) {
    events != [] && events[0].NewConnection? && forall i :: 1 <= i < |events| ==> !events[i].NewConnection?
  }

  ghost predicate EndsClosed(events: seq<Item>) {
    events != [] && events[|events| - 1].CloseConnection?
  }

  /** What the events of a connection look like in each phase. */
  ghost predicate Story(phase: Phase, active: bool, events: seq<Item>) {
    match phase
    case Accepted(_) => events == [] && !active
    case Announced => Introduced(events) && Closes(events) == 0 && !active
    case Relaying => Introduced(events) && Closes(events) == CountIf(!active)
    case Leaving => Introduced(events) && Closes(events) <= 1 && !active
    case Finished => Introduced(events) && 1 <= Closes(events) <= 2 && !active && EndsClosed(events)
  }

  ghost predicate HasStory(s: Server, id: ConnId, events: seq<Item>) {
    if id in s.tasks then id < s.nextId && Story(s.tasks[id], id in s.active, events)
    else events == [] && id !in s.active
  }

  ghost predicate StoryOf(s: Server, id: ConnId) {
    HasStory(s, id, Events(Log(s), id))
  }

  ghost predicate Sound(s: Server) {
    && (forall id :: StoryOf(s, id))
    && (s.stopping.Some? ==> Enumerates(s.stopping.value, s.active))
  }

  lemma StoryGrows(events: seq<Item>, item: Item)
    requires Introduced(events) && !item.NewConnection?
    ensures Introduced(events + [item])
    ensures Closes(events + [item]) == Closes(events) + CountIf(item.CloseConnection?)
    ensures item.CloseConnection? ==> EndsClosed(events + [item])
  {
    ClosesAppend(events, item);
  }

  /** The connection a step is about, if it is about one. */
  ghost function Subject(s: Server, step: Step): Option<ConnId>
    requires Enabled(s, step)
  {
    match step
    case Accept(_) => Some(s.nextId)
    case StopRemoves => Some(s.stopping.value[0])
    case StopBegins(_, _) => None
    case StopEnds => None
    case Poll => None
    case GetClipboard(_) => None
    case _ => Some(step.id)
  }

  /** The events of a connection after a step, given those before it. */
  ghost function Extended(s: Server, step: Step, id: ConnId, events: seq<Item>): seq<Item>
    requires Enabled(s, step)
  {
    if Added(s, step) != [] && Subject(s, step) == Some(id) then events + [Added(s, step)[0]] else events
  }

  lemma EventsAfterStep(s: Server, step: Step, id: ConnId)
    requires Enabled(s, step)
    ensures Events(Log(Take(s, step)), id) == Extended(s, step, id, Events(Log(s), id))
  {
    StepExtendsLog(s, step);
    if Added(s, step) == [] {
      assert Log(s) + [] == Log(s);
    } else {
      EventsAppend(Log(s), Added(s, step)[0], id);
    }
  }

  lemma OthersKeepTheirStory(s: Server, step: Step, id: ConnId, events: seq<Item>)
    requires Enabled(s, step) && HasStory(s, id, events) && Subject(s, step) != Some(id)
    ensures HasStory(Take(s, step), id, events)
  {
  }

  lemma SilentStepKeepsStory(s: Server, step: Step, id: ConnId, events: seq<Item>)
    requires Enabled(s, step) && HasStory(s, id, events) && Subject(s, step) == Some(id)
    requires (step.Accept? && id !in s.tasks) || step.ConnectTarget? || step.RelayEnds?
    ensures HasStory(Take(s, step), id, events)
  {
  }

  lemma AnnouncementBegins(item: Item)
    requires item.NewConnection?
    ensures Introduced([] + [item]) && Closes([] + [item]) == 0
  {
    assert Closes([]) == 0;
    ClosesAppend([], item);
  }

  lemma AnnouncementKeepsStory(s: Server, id: ConnId, events: seq<Item>)
    requires Enabled(s, Announce(id)) && HasStory(s, id, events)
    ensures HasStory(Take(s, Announce(id)), id, events + [NewConnection(id, s.tasks[id].port)])
  {
    AnnouncementBegins(NewConnection(id, s.tasks[id].port));
  }

  lemma EventKeepsStory(s: Server, step: Step, id: ConnId, events: seq<Item>)
    requires Enabled(s, step) && HasStory(s, id, events) && Subject(s, step) == Some(id)
    requires step.ConnectFails? || step.RelayData? || step.RelayCloses? || (step.StopRemoves? && id in s.active)
    ensures HasStory(Take(s, step), id, events + [Added(s, step)[0]])
  {
    StoryGrows(events, Added(s, step)[0]);
  }

  lemma SubjectKeepsItsStory(s: Server, step: Step, id: ConnId, events: seq<Item>)
    requires Enabled(s, step) && HasStory(s, id, events) && Subject(s, step) == Some(id)
    requires step.Accept? ==> id !in s.tasks
    requires step.StopRemoves? ==> id in s.active
    ensures HasStory(Take(s, step), id, Extended(s, step, id, events))
  {
    if step.Accept? || step.ConnectTarget? || step.RelayEnds? {
      SilentStepKeepsStory(s, step, id, events);
    } else if step.Announce? {
      AnnouncementKeepsStory(s, id, events);
    } else {
      EventKeepsStory(s, step, id, events);
    }
  }

  lemma StepKeepsSound(s: Server, step: Step)
    requires Sound(s) && Enabled(s, step)
    ensures Sound(Take(s, step))
  {
    if step.Accept? { assert StoryOf(s, s.nextId); }
    if step.StopRemoves? {
      var order := s.stopping.value;
      assert order == [order[0]] + order[1..];
      assert order[0] in Elements(order) && order[0] !in order[1..];
      assert Elements(order[1..]) == Elements(order) - {order[0]};
    }
    forall id: ConnId ensures StoryOf(Take(s, step), id) {
      assert StoryOf(s, id);
      EventsAfterStep(s, step, id);
      if Subject(s, step) == Some(id) {
        SubjectKeepsItsStory(s, step, id, Events(Log(s), id));
      } else {
        OthersKeepTheirStory(s, step, id, Events(Log(s), id));
      }
    }
  }

  lemma {:induction false} RunKeepsSound(s: Server, steps: seq<Step>)
    requires Sound(s) && IsRun(s, steps)
    ensures Sound(After(s, steps))
    decreases |steps|
  {
    if steps == [] {
    } else {
      StepKeepsSound(s, steps[0]);
      RunKeepsSound(Take(s, steps[0]), steps[1..]);
    }
  }

  // ----- How often a connection is closed -----

  /** Whether this step is a stop removing the connection. */
  ghost predicate IsStopOf(s: Server, step: Step, id: ConnId)
    requires Enabled(s, step)
  {
    step.StopRemoves? && s.stopping.value[0] == id
  }

  /** How often the stops of a run remove the connection. */
  ghost function Stops(s: Server, steps: seq<Step>, id: ConnId): nat
    requires IsRun(s, steps)
    decreases |steps|
  {
    if steps == [] then 0 else CountIf(IsStopOf(s, steps[0], id)) + Stops(Take(s, steps[0]), steps[1..], id)
  }

  ghost predicate HasFinished(s: Server, id: ConnId) {
    id in s.tasks && s.tasks[id] == Finished
  }

  /** A connection is closed once by its own task and once by every stop that removes it. */
  lemma StepBooksCloses(s: Server, step: Step, id: ConnId, events: seq<Item>)
    requires s.nextId !in s.tasks && Enabled(s, step)
    ensures Closes(Extended(s, step, id, events)) + CountIf(HasFinished(s, id))
         == Closes(events) + CountIf(IsStopOf(s, step, id)) + CountIf(HasFinished(Take(s, step), id))
  {
    if Extended(s, step, id, events) != events {
      ClosesAppend(events, Added(s, step)[0]);
    }
  }

  lemma {:induction false} RunBooksCloses(s: Server, steps: seq<Step>, id: ConnId)
    requires Sound(s) && IsRun(s, steps)
    ensures Closes(Events(Log(After(s, steps)), id)) + CountIf(HasFinished(s, id))
         == Closes(Events(Log(s), id)) + Stops(s, steps, id) + CountIf(HasFinished(After(s, steps), id))
    decreases |steps|
  {
    if steps == [] {
    } else {
      assert StoryOf(s, s.nextId);
      EventsAfterStep(s, steps[0], id);
      StepBooksCloses(s, steps[0], id, Events(Log(s), id));
      StepKeepsSound(s, steps[0]);
      RunBooksCloses(Take(s, steps[0]), steps[1..], id);
    }
  }

  /** Main result: in the log of any run the events of a connection, if there are any, begin with its only
      NewConnection; they hold one CloseConnection for every stop that removed the connection, of which there is at
      most one, and one more, the last event, once its task has finished. */
  lemma ConnectionStories(steps: seq<Step>, id: ConnId)
    requires IsRun(START, steps)
    ensures var s := After(START, steps);
            var events := Events(Log(s), id);
            && (events != [] ==> Introduced(events))
            && Stops(START, steps, id) <= 1
            && Closes(events) == Stops(START, steps, id) + CountIf(HasFinished(s, id))
            && (HasFinished(s, id) ==> EndsClosed(events))
  {
    RunKeepsSound(START, steps);
    RunBooksCloses(START, steps, id);
    assert StoryOf(After(START, steps), id);
  }

  // ----- Bookkeeping -----

  /** The ids of the CloseConnection items of a log, in order. */
  function ClosedIds(log: seq<Item>): seq<ConnId> {
    if log == [] then [] else
      ClosedIds(log[..|log| - 1]) + (if log[|log| - 1].CloseConnection? then [log[|log| - 1].id] else [])
  }

  ghost predicate IsPending(b: Buffer, id: ConnId, events: seq<Item>) {
    id in b.pending <==> events != [] && Closes(events) == 0
  }

  ghost predicate PendingFits(s: Server, id: ConnId) {
    IsPending(s.buffer, id, Events(Log(s), id))
  }

  /** Pending are the connections announced and not yet closed; the closed list is that of the log, never drained. */
  ghost predicate Booked(s: Server) {
    && s.buffer.closed == ClosedIds(Log(s))
    && forall id :: PendingFits(s, id)
  }

  lemma ClosedIdsAppend(log: seq<Item>, item: Item)
    ensures ClosedIds(log + [item]) == ClosedIds(log) + (if item.CloseConnection? then [item.id] else [])
  {
    assert (log + [item])[..|log|] == log;
  }

  /** The same for a buffer to which one item is added. */
  lemma AddKeepsPending(b: Buffer, item: Item, id: ConnId, events: seq<Item>)
    requires IsPending(b, id, events)
    requires Concerns(item, id) ==> (item.NewConnection? <==> events == [])
    ensures IsPending(Add(b, item), id, if Concerns(item, id) then events + [item] else events)
  {
    if Concerns(item, id) {
      ClosesAppend(events, item);
    }
  }

  /** An item is the first of its connection exactly if it announces it. */
  lemma FirstIsAnnouncement(s: Server, step: Step, id: ConnId, events: seq<Item>)
    requires HasStory(s, id, events) && Enabled(s, step) && Added(s, step) != [] && Concerns(Added(s, step)[0], id)
    requires step.StopRemoves? ==> id in s.active
    ensures Added(s, step)[0].NewConnection? <==> events == []
    ensures Subject(s, step) == Some(id)
  {
  }

  lemma StepKeepsPending(s: Server, step: Step, id: ConnId, events: seq<Item>)
    requires HasStory(s, id, events) && IsPending(s.buffer, id, events) && Enabled(s, step)
    requires step.StopRemoves? && Subject(s, step) == Some(id) ==> id in s.active
    ensures IsPending(Take(s, step).buffer, id, Extended(s, step, id, events))
  {
    if Added(s, step) != [] {
      var item := Added(s, step)[0];
      if Concerns(item, id) {
        FirstIsAnnouncement(s, step, id, events);
      }
      AddKeepsPending(s.buffer, item, id, events);
      assert Take(s, step).buffer.pending == Add(s.buffer, item).pending;
    }
  }

  lemma AddedIsClosed(s: Server, step: Step, log: seq<Item>)
    requires s.buffer.closed == ClosedIds(log) && Enabled(s, step) && Added(s, step) != []
    ensures Take(s, step).buffer.closed == ClosedIds(log + [Added(s, step)[0]])
  {
    ClosedIdsAppend(log, Added(s, step)[0]);
  }

  lemma StepKeepsClosedList(s: Server, step: Step)
    requires s.buffer.closed == ClosedIds(Log(s)) && Enabled(s, step)
    ensures Take(s, step).buffer.closed == ClosedIds(Log(Take(s, step)))
  {
    StepExtendsLog(s, step);
    var log := Log(s);
    if Added(s, step) == [] {
      assert log + [] == log;
    } else {
      assert Added(s, step) == [Added(s, step)[0]];
      AddedIsClosed(s, step, log);
    }
  }

  lemma StepKeepsBooked(s: Server, step: Step)
    requires Sound(s) && Booked(s) && Enabled(s, step)
    ensures Booked(Take(s, step))
  {
    StepKeepsClosedList(s, step);
    if step.StopRemoves? {
      assert s.stopping.value[0] in Elements(s.stopping.value);
    }
    forall id: ConnId ensures PendingFits(Take(s, step), id) {
      assert StoryOf(s, id) && PendingFits(s, id);
      EventsAfterStep(s, step, id);
      StepKeepsPending(s, step, id, Events(Log(s), id));
    }
  }

  lemma {:induction false} RunKeepsBooked(s: Server, steps: seq<Step>)
    requires Sound(s) && Booked(s) && IsRun(s, steps)
    ensures Booked(After(s, steps))
    decreases |steps|
  {
    if steps == [] {
    } else {
      StepKeepsSound(s, steps[0]);
      StepKeepsBooked(s, steps[0]);
      RunKeepsBooked(Take(s, steps[0]), steps[1..]);
    }
  }

  /** Main result: in every run a connection that can be written to has been announced and not closed, pending and
      closed connections are what the log says, and no connection is active without being pending. */
  lemma ActiveIsPending(steps: seq<Step>)
    requires IsRun(START, steps)
    ensures var s := After(START, steps);
            && s.active <= s.buffer.pending.Keys
            && s.buffer.closed == ClosedIds(Log(s))
            && forall id :: id in s.buffer.pending <==> Events(Log(s), id) != [] && Closes(Events(Log(s), id)) == 0
  {
    RunKeepsSound(START, steps);
    RunKeepsBooked(START, steps);
    var s := After(START, steps);
    forall id: ConnId
      ensures id in s.buffer.pending <==> Events(Log(s), id) != [] && Closes(Events(Log(s), id)) == 0
    {
      assert PendingFits(s, id);
    }
    forall id: ConnId | id in s.active ensures id in s.buffer.pending.Keys {
      assert StoryOf(s, id) && PendingFits(s, id);
    }
  }

  // ----- What a stop does -----

  /** A stop under way holds back nothing but what needs the connection table: connections are still accepted,
      announced, refused and closed, and data still flows. */
  lemma StopBlocksOnlyTheTable(s: Server, id: ConnId, data: seq<nat>)
    requires s.stopping.Some? && id in s.tasks
    ensures s.tasks[id].Accepted? ==> Enabled(s, Announce(id))
    ensures s.tasks[id].Announced? ==> Enabled(s, ConnectFails(id)) && !Enabled(s, ConnectTarget(id))
    ensures s.tasks[id].Relaying? ==> Enabled(s, RelayData(id, data)) && !Enabled(s, RelayEnds(id))
    ensures s.tasks[id].Leaving? ==> Enabled(s, RelayCloses(id))
    ensures Enabled(s, Accept(id)) && !Enabled(s, Poll)
  {
  }

  lemma StopRemovesOne(s: Server, step: Step, id: ConnId)
    requires Sound(s) && Enabled(s, step) && s.stopping.Some? && !step.StopEnds?
    ensures Take(s, step).stopping.Some? && Take(s, step).active <= s.active
    ensures CountIf(IsStopOf(s, step, id)) == CountIf(id in s.active) - CountIf(id in Take(s, step).active)
  {
    if step.StopRemoves? {
      assert s.stopping.value[0] in Elements(s.stopping.value);
    }
  }

  /** While a stop is under way, whatever the other tasks do, it removes each connection once and none comes in. */
  lemma {:induction false} StopKeepsRemoving(s: Server, steps: seq<Step>, id: ConnId)
    requires Sound(s) && s.stopping.Some? && IsRun(s, steps) && StopEnds !in steps
    ensures After(s, steps).stopping.Some? && Sound(After(s, steps)) && After(s, steps).active <= s.active
    ensures Stops(s, steps, id) == CountIf(id in s.active) - CountIf(id in After(s, steps).active)
    decreases |steps|
  {
    if steps == [] {
    } else {
      StopRemovesOne(s, steps[0], id);
      StepKeepsSound(s, steps[0]);
      StopKeepsRemoving(Take(s, steps[0]), steps[1..], id);
    }
  }

  /** Main result: a stop, however the other tasks interleave with it, ends with no active connection and has removed
      every connection that was active when it began, whatever its port, exactly once, and no other. So it spares the
      connections of other ports exactly when there are none. */
  lemma StopRemovesEveryPort(before: seq<Step>, port: PortNo, order: seq<ConnId>, during: seq<Step>)
    requires IsRun(START, before) && Enabled(After(START, before), StopBegins(port, order))
    requires IsRun(Take(After(START, before), StopBegins(port, order)), during) && StopEnds !in during
    requires Enabled(After(Take(After(START, before), StopBegins(port, order)), during), StopEnds)
    ensures var s := After(START, before);
            var begun := Take(s, StopBegins(port, order));
            var ended := Take(After(begun, during), StopEnds);
            && ended.active == {} && ended.stopping.None?
            && (forall id :: Stops(begun, during, id) == CountIf(id in s.active))
            && s.active <= s.buffer.pending.Keys
            && ((forall id :: id in s.active && s.buffer.pending[id] != port ==> Stops(begun, during, id) == 0) <==>
                (forall id :: id in s.active ==> s.buffer.pending[id] == port))
  {
    var s := After(START, before);
    RunKeepsSound(START, before);
    ActiveIsPending(before);
    StepKeepsSound(s, StopBegins(port, order));
    var begun := Take(s, StopBegins(port, order));
    StopKeepsRemoving(begun, during, 0);
    assert Elements([]) == After(begun, during).active;
    forall id: ConnId ensures Stops(begun, during, id) == CountIf(id in s.active) {
      StopKeepsRemoving(begun, during, id);
    }
  }

  lemma OneRelaying(steps: seq<Step>) returns (s: Server)
    requires steps == [Accept(80), Announce(1), ConnectTarget(1)]
    ensures IsRun(START, steps) && After(START, steps) == s
    ensures s.active == {1} && s.stopping.None? && 1 in s.buffer.pending && s.buffer.pending[1] == 80
  {
    var s1 := Take(START, Accept(80));
    var s2 := Take(s1, Announce(1));
    s := Take(s2, ConnectTarget(1));
    assert steps[1..] == [Announce(1), ConnectTarget(1)] && steps[1..][1..] == [ConnectTarget(1)];
    assert [ConnectTarget(1)][1..] == [];
    assert After(START, steps) == After(s1, steps[1..]) == After(s2, [ConnectTarget(1)]) == After(s, []) == s;
  }

  lemma OneRemoved(s: Server, port: PortNo)
    requires s.active == {1} && s.stopping.None?
    ensures Enabled(s, StopBegins(port, [1]))
    ensures var begun := Take(s, StopBegins(port, [1]));
            && IsRun(begun, [StopRemoves])
            && Stops(begun, [StopRemoves], 1) == 1 && Enabled(After(begun, [StopRemoves]), StopEnds)
  {
    assert Elements([1]) == {1};
    var begun := Take(s, StopBegins(port, [1]));
    assert [StopRemoves][1..] == [] && begun.stopping.value[1..] == [];
    assert After(begun, [StopRemoves]) == Take(begun, StopRemoves);
  }

  /** A run in which stopping one port removes the connection of another one. */
  lemma StopHitsOtherPort()
    ensures var before, during := [Accept(80), Announce(1), ConnectTarget(1)], [StopRemoves];
            && IsRun(START, before)
            && var s := After(START, before);
            && 1 in s.active && 1 in s.buffer.pending && s.buffer.pending[1] == 80
            && Enabled(s, StopBegins(81, [1]))
            && var begun := Take(s, StopBegins(81, [1]));
            && IsRun(begun, during) && Stops(begun, during, 1) == 1 && Enabled(After(begun, during), StopEnds)
  {
    var s := OneRelaying([Accept(80), Announce(1), ConnectTarget(1)]);
    OneRemoved(s, 81);
  }
}
