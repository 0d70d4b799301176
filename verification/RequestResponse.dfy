/** Concurrent callers of one client and the sequential server loop
    (crates/client/src/client_transport.rs, crates/remote/src/main.rs). */
module RequestResponse {
  import opened Common

  type CallId = nat

  /** Requests and responses are opaque; a response carries the call whose request it was computed from. */
  datatype Request = Request(call: CallId, body: nat, oversize: bool)
  datatype Response = Response(call: CallId, body: nat)

  /** Where a call of `send_request` stands: waiting for the channel lock, holding it before the send, holding it
      after the send, or finished. */
  datatype Phase =
    | Waiting(request: Request)
    | Holding(request: Request)
    | Sent(request: Request)
    | Answered(response: Response)
    | Failed

  datatype Server = Ready | Busy(request: Request) | Stopped

  /** `holder` is the call that has the channel lock; the two queues are what is written and not yet received. */
  datatype System = System(
    calls: map<CallId, Phase>,
    holder: Option<CallId>,
    requests: seq<Request>,
    responses: seq<Response>,
    server: Server)

  const START := System(map[], None, [], [], Ready)

  datatype Step =
    | Call(id: CallId, body: nat, oversize: bool)
    | Lock(id: CallId)
    | Send(id: CallId)
    | Receive(id: CallId)
    | ReceiveError(id: CallId)
    | Fetch
    | Respond(body: nat)
    | ServerFails
    | Abandon(id: CallId)

  ghost predicate Enabled(s: System, step: Step) {
    match step
    case Call(id, _, _) => id !in s.calls
    case Lock(id) => s.holder.None? && id in s.calls && s.calls[id].Waiting?
    case Send(id) => id in s.calls && s.calls[id].Holding?
    case Receive(id) => id in s.calls && s.calls[id].Sent? && s.responses != []
    // the stream ends: the server has stopped and nothing is left to read
    case ReceiveError(id) => id in s.calls && s.calls[id].Sent? && s.server.Stopped? && s.responses == []
    case Fetch => s.server.Ready? && s.requests != []
    case Respond(_) => s.server.Busy?
    // the request cannot be read, or its response cannot be sent: the server loop ends
    case ServerFails => (s.server.Ready? && s.requests != []) || s.server.Busy?
    // the caller's future is dropped between its send and its receive: the lock guard goes with it
    case Abandon(id) => id in s.calls && s.calls[id].Sent?
  }

  ghost function Take(s: System, step: Step): System
    requires Enabled(s, step)
  {
    match step
    case Call(id, body, oversize) => s.(calls := s.calls[id := Waiting(Request(id, body, oversize))])
    case Lock(id) => s.(holder := Some(id), calls := s.calls[id := Holding(s.calls[id].request)])
    case Send(id) =>
      var q := s.calls[id].request;
      if q.oversize then s.(holder := None, calls := s.calls[id := Failed])
      else s.(requests := s.requests + [q], calls := s.calls[id := Sent(q)])
    case Receive(id) =>
      s.(holder := None, responses := s.responses[1..], calls := s.calls[id := Answered(s.responses[0])])
    case ReceiveError(id) => s.(holder := None, calls := s.calls[id := Failed])
    case Fetch => s.(server := Busy(s.requests[0]), requests := s.requests[1..])
    case Respond(body) => s.(server := Ready, responses := s.responses + [Response(s.server.request.call, body)])
    case ServerFails => s.(server := Stopped, requests := if s.server.Ready? then s.requests[1..] else s.requests)
    case Abandon(id) => s.(holder := None, calls := s.calls[id := Failed])
  }

  ghost predicate IsRun(s: System, steps: seq<Step>)
    decreases |steps|
  {
    steps == [] || (Enabled(s, steps[0]) && IsRun(Take(s, steps[0]), steps[1..]))
  }

  ghost function After(s: System, steps: seq<Step>): System
    requires IsRun(s, steps)
    decreases |steps|
  {
    if steps == [] then s else After(Take(s, steps[0]), steps[1..])
  }

  /** Nothing is written and unread, and the server computes nothing. */
  ghost predicate Quiet(s: System) {
    s.requests == [] && s.responses == [] && s.server.Ready?
  }

  /** Exactly one item is outstanding, and it belongs to `id`: its request, its computation or its response. */
  ghost predicate InFlight(s: System, id: CallId) {
    || (|s.requests| == 1 && s.requests[0].call == id && s.server.Ready? && s.responses == [])
    || (s.requests == [] && s.server.Busy? && s.server.request.call == id && s.responses == [])
    || (s.requests == [] && s.server.Ready? && |s.responses| == 1 && s.responses[0].call == id)
  }

  /** The phase of call `id` fits its name and the lock. */
  ghost predicate PhaseFits(id: CallId, phase: Phase, holder: Option<CallId>) {
    match phase
    case Waiting(q) => q.call == id && holder != Some(id)
    case Holding(q) => q.call == id && holder == Some(id)
    case Sent(q) => q.call == id && holder == Some(id)
    case Answered(r) => r.call == id && holder != Some(id)
    case Failed => holder != Some(id)
  }

  /** The lock holder that has sent its request, if there is one, owns the one outstanding item. */
  ghost predicate Matched(s: System) {
    && (forall id :: id in s.calls ==> PhaseFits(id, s.calls[id], s.holder))
    && (s.holder.Some? ==> s.holder.value in s.calls)
    && (if s.server.Stopped? then s.responses == []
        else if s.holder.Some? && s.calls[s.holder.value].Sent? then InFlight(s, s.holder.value)
        else Quiet(s))
  }

  lemma StepKeepsMatched(s: System, step: Step)
    requires Matched(s) && Enabled(s, step) && !step.Abandon?
    ensures Matched(Take(s, step))
  {
    match step
    case Call(id, _, _) => assert s.holder != Some(id);
    case Lock(_) =>
    case Send(id) => assert PhaseFits(id, s.calls[id], s.holder);
    case Receive(id) => assert PhaseFits(id, s.calls[id], s.holder);
    case ReceiveError(id) => assert PhaseFits(id, s.calls[id], s.holder);
    case Fetch =>
    case Respond(_) =>
    case ServerFails =>
  }

  /** The steps contain no abandonment. */
  ghost predicate NobodyAbandoned(steps: seq<Step>) {
    forall i :: 0 <= i < |steps| ==> !steps[i].Abandon?
  }

  /** Every call that got a response got its own. */
  ghost predicate OwnResponses(s: System) {
    forall id :: id in s.calls && s.calls[id].Answered? ==> s.calls[id].response.call == id
  }

  lemma {:induction false} RunKeepsMatched(s: System, steps: seq<Step>)
    requires Matched(s) && IsRun(s, steps) && NobodyAbandoned(steps)
    ensures Matched(After(s, steps))
    decreases |steps|
  {
    if steps == [] {
    } else {
      StepKeepsMatched(s, steps[0]);
      RunKeepsMatched(Take(s, steps[0]), steps[1..]);
    }
  }

  /** Main result: with any number of concurrent callers, none of them abandoned after its send, every call that gets a
      response gets the one computed for its own request; and while the server runs, nothing is outstanding whenever
      the lock is free, a rejected oversize send included. */
  lemma EveryCallGetsItsOwnResponse(steps: seq<Step>)
    requires IsRun(START, steps) && NobodyAbandoned(steps)
    ensures var s := After(START, steps);
            && OwnResponses(s)
            && (s.holder.None? && !s.server.Stopped? ==> s.requests == [] && s.responses == [] && s.server.Ready?)
            && |s.responses| <= 1
  {
    RunKeepsMatched(START, steps);
    var s := After(START, steps);
    assert forall id :: id in s.calls ==> PhaseFits(id, s.calls[id], s.holder);
  }

  /** No caller is left hanging by the others: while a call is unfinished, some step other than a new call or an
      abandonment is possible. */
  lemma CallersMakeProgress(s: System, id: CallId) returns (step: Step)
    requires Matched(s) && id in s.calls && !s.calls[id].Answered? && !s.calls[id].Failed?
    ensures Enabled(s, step) && !step.Call? && !step.Abandon? && !step.ServerFails?
  {
    if s.holder.None? {
      assert PhaseFits(id, s.calls[id], s.holder);
      step := Lock(id);
    } else {
      var h := s.holder.value;
      assert PhaseFits(h, s.calls[h], s.holder);
      step := if s.calls[h].Holding? then Send(h)
              else if s.server.Stopped? then ReceiveError(h)
              else if s.requests != [] then Fetch
              else if s.server.Busy? then Respond(0)
              else Receive(h);
    }
  }

  lemma RunOfOneMore(s: System, first: Step, rest: seq<Step>)
    requires Enabled(s, first) && IsRun(Take(s, first), rest)
    ensures IsRun(s, [first] + rest) && After(s, [first] + rest) == After(Take(s, first), rest)
  {
    assert ([first] + rest)[1..] == rest;
  }

  lemma {:induction false} RunsJoin(s: System, first: seq<Step>, second: seq<Step>)
    requires IsRun(s, first) && IsRun(After(s, first), second)
    ensures IsRun(s, first + second) && After(s, first + second) == After(After(s, first), second)
    decreases |first|
  {
    if first == [] {
      assert first + second == second;
    } else {
      assert (first + second)[1..] == first[1..] + second;
      RunsJoin(Take(s, first[0]), first[1..], second);
    }
  }

  /** A new call takes the lock and sends its request. */
  lemma NewcomerSends(s: System, next: CallId) returns (steps: seq<Step>)
    requires s.holder.None? && next !in s.calls
    ensures IsRun(s, steps) && NobodyAbandoned(steps)
    ensures After(s, steps) == s.(holder := Some(next), calls := s.calls[next := Sent(Request(next, 0, false))],
                                  requests := s.requests + [Request(next, 0, false)])
  {
    var q := Request(next, 0, false);
    var s1 := Take(s, Call(next, 0, false));
    var s2 := Take(s1, Lock(next));
    var s3 := Take(s2, Send(next));
    assert s3.calls == s.calls[next := Sent(q)];
    RunOfOneMore(s2, Send(next), []);
    RunOfOneMore(s1, Lock(next), [Send(next)] + []);
    RunOfOneMore(s, Call(next, 0, false), [Lock(next)] + ([Send(next)] + []));
    steps := [Call(next, 0, false)] + ([Lock(next)] + ([Send(next)] + []));
  }

  /** A running server brings the item of `owner` that is ahead to its response. */
  lemma ServerAnswers(s: System, owner: CallId) returns (steps: seq<Step>)
    requires || (s.responses != [] && s.responses[0].call == owner)
             || (s.responses == [] && s.server.Busy? && s.server.request.call == owner)
             || (s.responses == [] && s.server.Ready? && s.requests != [] && s.requests[0].call == owner)
    ensures IsRun(s, steps) && NobodyAbandoned(steps)
    ensures var s' := After(s, steps);
            s'.calls == s.calls && s'.holder == s.holder && s'.responses != [] && s'.responses[0].call == owner
  {
    if s.responses != [] {
      steps := [];
    } else if s.server.Busy? {
      RunOfOneMore(s, Respond(0), []);
      steps := [Respond(0)] + [];
    } else {
      var s1 := Take(s, Fetch);
      RunOfOneMore(s1, Respond(0), []);
      RunOfOneMore(s, Fetch, [Respond(0)] + []);
      steps := [Fetch] + ([Respond(0)] + []);
    }
  }

  /** With an item of call `owner` outstanding and the lock free, a newcomer can be handed the response of `owner`. */
  lemma NewcomerTakesOver(s: System, owner: CallId, next: CallId) returns (steps: seq<Step>)
    requires s.holder.None? && InFlight(s, owner) && next !in s.calls
    ensures IsRun(s, steps) && NobodyAbandoned(steps)
    ensures var s' := After(s, steps);
            next in s'.calls && s'.calls[next].Answered? && s'.calls[next].response.call == owner
  {
    var sending := NewcomerSends(s, next);
    var sent := After(s, sending);
    var answering := ServerAnswers(sent, owner);
    var answered := After(sent, answering);
    RunOfOneMore(answered, Receive(next), []);
    RunsJoin(sent, answering, [Receive(next)] + []);
    RunsJoin(s, sending, answering + ([Receive(next)] + []));
    steps := sending + (answering + ([Receive(next)] + []));
  }

  /** A server that fails takes what it was working on with it: nothing of the call is left, and its caller sees the
      end of the stream. */
  lemma FailureReachesTheCaller(s: System, id: CallId)
    requires Matched(s) && Enabled(s, ServerFails) && s.holder == Some(id) && id in s.calls && s.calls[id].Sent?
    ensures var s' := Take(s, ServerFails);
            s'.requests == [] && s'.responses == [] && Enabled(s', ReceiveError(id))
  {
    assert PhaseFits(id, s.calls[id], s.holder);
  }

  /** The exact condition on one abandonment: it leaves calls and items matched exactly when the server has stopped. */
  lemma AbandonKeepsMatchedIff(s: System, id: CallId)
    requires Matched(s) && Enabled(s, Abandon(id))
    ensures Matched(Take(s, Abandon(id))) <==> s.server.Stopped?
  {
    assert PhaseFits(id, s.calls[id], s.holder);
  }

  lemma {:induction false} RunStaysOwn(s: System, steps: seq<Step>)
    requires Matched(s) && IsRun(s, steps) && NobodyAbandoned(steps)
    ensures OwnResponses(After(s, steps))
  {
    RunKeepsMatched(s, steps);
    var s' := After(s, steps);
    forall id | id in s'.calls && s'.calls[id].Answered? ensures s'.calls[id].response.call == id {
      assert PhaseFits(id, s'.calls[id], s'.holder);
    }
  }

  /** Main result: abandoning one caller between its send and its receive is harmless, in every continuation without a
      further abandonment, exactly when the server has already stopped; with a running server some later caller can be
      handed the abandoned call's response. */
  lemma AbandonmentIsHarmlessIff(s: System, id: CallId)
    requires Matched(s) && Enabled(s, Abandon(id))
    ensures (forall steps :: IsRun(Take(s, Abandon(id)), steps) && NobodyAbandoned(steps) ==>
               OwnResponses(After(Take(s, Abandon(id)), steps)))
       <==> s.server.Stopped?
  {
    var s' := Take(s, Abandon(id));
    AbandonKeepsMatchedIff(s, id);
    assert PhaseFits(id, s.calls[id], s.holder);
    if s.server.Stopped? {
      forall steps | IsRun(s', steps) && NobodyAbandoned(steps) ensures OwnResponses(After(s', steps)) {
        RunStaysOwn(s', steps);
      }
    } else {
      var next := Above(s'.calls.Keys);
      var steps := NewcomerTakesOver(s', id, next);
      assert !OwnResponses(After(s', steps));
    }
  }

  /** A whole run in which this happens. */
  lemma AbandonedCallerMisleadsTheNext() returns (steps: seq<Step>)
    ensures IsRun(START, steps)
    ensures var s := After(START, steps); 1 in s.calls && s.calls[1].Answered? && s.calls[1].response.call == 0
  {
    var sending := NewcomerSends(START, 0);
    var s1 := After(START, sending);
    var s2 := Take(s1, Abandon(0));
    var rest := NewcomerTakesOver(s2, 0, 1);
    RunOfOneMore(s1, Abandon(0), rest);
    RunsJoin(START, sending, [Abandon(0)] + rest);
    steps := sending + ([Abandon(0)] + rest);
  }
}
