/** The SSH channel adapter: chunks from the SSH library turned into a byte stream with leftovers
    (crates/client/src/transport/ssh.rs). Channel data as in section 5.2 of RFC 4254. */
module SshAdapter {
  import opened Common
  import opened Framing

  /** Chunks received and not yet polled, whether the sender is gone, and the rest of the chunk polled last. */
  datatype Adapter = Adapter(queue: seq<seq<Byte>>, hungUp: bool, readBuf: seq<Byte>)

  datatype Poll = Ready(bytes: seq<Byte>) | Pending

  /** `remaining` is the room in the caller's buffer; a Ready result without bytes means end of stream to the caller. */
  function Polled(a: Adapter, remaining: nat): (Adapter, Poll) {
    if a.readBuf != [] then
      var n := Min(remaining, |a.readBuf|);
      (a.(readBuf := a.readBuf[n..]), Ready(a.readBuf[..n]))
    else if a.queue != [] then
      var n := Min(remaining, |a.queue[0]|);
      (a.(queue := a.queue[1..], readBuf := a.queue[0][n..]), Ready(a.queue[0][..n]))
    else if a.hungUp then (a, Ready([]))
    else (a, Pending)
  }

  function Undelivered(a: Adapter): seq<Byte> {
    a.readBuf + Flatten(a.queue)
  }

  lemma PollConserves(a: Adapter, remaining: nat)
    ensures var (a', r) := Polled(a, remaining);
            match r
            case Ready(bytes) => |bytes| <= remaining && bytes + Undelivered(a') == Undelivered(a)
            case Pending => a' == a && Undelivered(a) == [] && !a.hungUp
  {
    if a.readBuf != [] {
      var n := Min(remaining, |a.readBuf|);
      assert a.readBuf[..n] + (a.readBuf[n..] + Flatten(a.queue)) == a.readBuf + Flatten(a.queue);
    } else if a.queue != [] {
      var n := Min(remaining, |a.queue[0]|);
      assert a.queue[0][..n] + (a.queue[0][n..] + Flatten(a.queue[1..])) == a.queue[0] + Flatten(a.queue[1..]);
    }
  }

  ghost predicate NoEmptyChunk(queue: seq<seq<Byte>>) {
    forall i :: 0 <= i < |queue| ==> queue[i] != []
  }

  /** End of stream is reported while bytes are still to come exactly when an empty chunk stands in front of them. */
  lemma PrematureEndIff(a: Adapter, remaining: nat)
    requires remaining > 0
    ensures Polled(a, remaining).1 == Ready([]) && Undelivered(a) != []
       <==> a.readBuf == [] && a.queue != [] && a.queue[0] == [] && Flatten(a.queue[1..]) != []
  {
  }

  /** Without empty chunks it is reported exactly when everything has been delivered and the sender is gone. */
  lemma EndOfStreamIff(a: Adapter, remaining: nat)
    requires remaining > 0 && NoEmptyChunk(a.queue)
    ensures Polled(a, remaining).1 == Ready([]) <==> Undelivered(a) == [] && a.hungUp
  {
    if a.readBuf == [] && a.queue != [] {
      assert Flatten(a.queue) == a.queue[0] + Flatten(a.queue[1..]);
    }
  }

  // ----- Runs: chunks arrive, the reader polls -----

  datatype Step = Arrive(chunk: seq<Byte>) | DoPoll(remaining: nat) | HangUp

  /** The adapter, the chunks that have arrived and the bytes handed to the reader. */
  datatype Session = Session(adapter: Adapter, arrived: seq<seq<Byte>>, delivered: seq<Byte>)

  const START := Session(Adapter([], false, []), [], [])

  function Take(s: Session, step: Step): Session {
    match step
    case Arrive(chunk) =>
      if s.adapter.hungUp then s
      else s.(adapter := s.adapter.(queue := s.adapter.queue + [chunk]), arrived := s.arrived + [chunk])
    case DoPoll(remaining) =>
      var (a, r) := Polled(s.adapter, remaining);
      s.(adapter := a, delivered := s.delivered + (if r.Ready? then r.bytes else []))
    case HangUp => s.(adapter := s.adapter.(hungUp := true))
  }

  function Run(s: Session, steps: seq<Step>): Session
    decreases |steps|
  {
    if steps == [] then s else Run(Take(s, steps[0]), steps[1..])
  }

  lemma StepConserves(s: Session, step: Step)
    requires s.delivered + Undelivered(s.adapter) == Flatten(s.arrived)
    ensures var s' := Take(s, step); s'.delivered + Undelivered(s'.adapter) == Flatten(s'.arrived)
  {
    match step
    case Arrive(chunk) =>
      FlattenAppend(s.adapter.queue, chunk);
      FlattenAppend(s.arrived, chunk);
      assert s.delivered + (s.adapter.readBuf + (Flatten(s.adapter.queue) + chunk))
          == s.delivered + (s.adapter.readBuf + Flatten(s.adapter.queue)) + chunk;
    case DoPoll(remaining) =>
      PollConserves(s.adapter, remaining);
      var (a, r) := Polled(s.adapter, remaining);
      if r.Ready? {
        assert s.delivered + (r.bytes + Undelivered(a)) == s.delivered + r.bytes + Undelivered(a);
      }
    case HangUp =>
  }

  lemma {:induction false} RunConserves(s: Session, steps: seq<Step>)
    requires s.delivered + Undelivered(s.adapter) == Flatten(s.arrived)
    ensures var s' := Run(s, steps); s'.delivered + Undelivered(s'.adapter) == Flatten(s'.arrived)
    decreases |steps|
  {
    if steps == [] {
    } else {
      StepConserves(s, steps[0]);
      RunConserves(Take(s, steps[0]), steps[1..]);
    }
  }

  /** Main result: whatever the chunks and the read sizes, the reader gets the chunks' bytes in order. */
  lemma DeliversTheChunks(steps: seq<Step>)
    ensures var s := Run(START, steps); s.delivered + Undelivered(s.adapter) == Flatten(s.arrived)
  {
    RunConserves(START, steps);
  }

  // ----- Messages over the adapter -----

  /** `receive_binary` reading through the adapter, with room for `rooms[i] + 1` bytes at the i-th read. */
  function ReceiveOver(buffer: seq<Byte>, a: Adapter, rooms: seq<nat>): (seq<Byte>, Adapter, Outcome)
    decreases |rooms|
  {
    var first := FirstFrame(buffer);
    if first.Some? then (buffer[2 + |first.value|..], a, Received(first.value))
    else if rooms == [] then (buffer, a, Cancelled)
    else match Polled(a, rooms[0] + 1)
      case (_, Pending) => (buffer, a, Cancelled)
      case (a', Ready(bytes)) =>
        if bytes == [] then (buffer, a', ChannelClosed) else ReceiveOver(buffer + bytes, a', rooms[1..])
  }

  /** Without empty chunks, receiving through the adapter is receiving from the byte stream of what is undelivered,
      under some fragmentation. */
  lemma {:induction false} RefinesByteStream(buffer: seq<Byte>, a: Adapter, rooms: seq<nat>)
      returns (fragments: seq<nat>)
    requires NoEmptyChunk(a.queue)
    ensures var (buffer', a', outcome) := ReceiveOver(buffer, a, rooms);
            Receive(Link(buffer, Undelivered(a), a.hungUp), fragments)
            == (Link(buffer', Undelivered(a'), a'.hungUp), outcome)
    decreases |rooms|
  {
    fragments := [];
    if FirstFrame(buffer).None? && rooms != [] {
      var (a', r) := Polled(a, rooms[0] + 1);
      PollConserves(a, rooms[0] + 1);
      EndOfStreamIff(a, rooms[0] + 1);
      if r.Ready? && r.bytes != [] {
        var rest := RefinesByteStream(buffer + r.bytes, a', rooms[1..]);
        fragments := [|r.bytes|] + rest;
        assert fragments[1..] == rest;
        assert Undelivered(a)[..|r.bytes|] == r.bytes && Undelivered(a)[|r.bytes|..] == Undelivered(a');
      } else {
        fragments := [1];
      }
    }
  }

  lemma PollKeepsChunks(a: Adapter, remaining: nat)
    requires NoEmptyChunk(a.queue)
    ensures NoEmptyChunk(Polled(a, remaining).0.queue)
  {
  }

  lemma {:induction false} ReceiveKeepsChunks(buffer: seq<Byte>, a: Adapter, rooms: seq<nat>)
    requires NoEmptyChunk(a.queue)
    ensures NoEmptyChunk(ReceiveOver(buffer, a, rooms).1.queue)
    decreases |rooms|
  {
    if FirstFrame(buffer).None? && rooms != [] {
      PollKeepsChunks(a, rooms[0] + 1);
      var (a', r) := Polled(a, rooms[0] + 1);
      if r.Ready? && r.bytes != [] { ReceiveKeepsChunks(buffer + r.bytes, a', rooms[1..]); }
    }
  }

  // ----- Runs of a sender and a receiver over SSH -----

  /** `Carry`: the SSH library delivers that many of the bytes in transit as one chunk, wherever frames begin or end. */
  datatype SshStep = SendMessage(payload: seq<Byte>) | Carry(size: nat) | ReceiveMessage(rooms: seq<nat>) | Disconnect

  /** The receiver's buffer, its adapter, the bytes sent and not yet carried, and the payloads of both sides. */
  datatype SshLink = SshLink(
    buffer: seq<Byte>,
    adapter: Adapter,
    transit: seq<Byte>,
    sent: seq<seq<Byte>>,
    received: seq<seq<Byte>>)

  const UNUSED := SshLink([], Adapter([], false, []), [], [], [])

  /** An oversize payload is refused; nothing is sent or carried once the sender is gone. */
  function TakeSsh(s: SshLink, step: SshStep): SshLink {
    match step
    case SendMessage(p) =>
      if |p| > MAX_PAYLOAD || s.adapter.hungUp then s
      else s.(transit := s.transit + Encode(p), sent := s.sent + [p])
    case Carry(size) =>
      if size == 0 || size > |s.transit| || s.adapter.hungUp then s
      else s.(adapter := s.adapter.(queue := s.adapter.queue + [s.transit[..size]]), transit := s.transit[size..])
    case ReceiveMessage(rooms) =>
      var (buffer, a, outcome) := ReceiveOver(s.buffer, s.adapter, rooms);
      s.(buffer := buffer, adapter := a,
         received := if outcome.Received? then s.received + [outcome.payload] else s.received)
    case Disconnect => s.(adapter := s.adapter.(hungUp := true))
  }

  function RunSsh(s: SshLink, steps: seq<SshStep>): SshLink
    decreases |steps|
  {
    if steps == [] then s else RunSsh(TakeSsh(s, steps[0]), steps[1..])
  }

  /** What was sent is what was received, then what the receiver holds, then what is in transit. */
  ghost predicate FaithfulOverSsh(s: SshLink) {
    && Sendable(s.sent) && Sendable(s.received) && NoEmptyChunk(s.adapter.queue)
    && EncodeAll(s.sent) == EncodeAll(s.received) + (s.buffer + Undelivered(s.adapter) + s.transit)
  }

  lemma SendIsFaithful(s: SshLink, p: seq<Byte>)
    requires FaithfulOverSsh(s)
    ensures FaithfulOverSsh(TakeSsh(s, SendMessage(p)))
  {
    if |p| <= MAX_PAYLOAD && !s.adapter.hungUp {
      OneMoreSent(s.sent, EncodeAll(s.received), s.buffer + Undelivered(s.adapter), s.transit, p);
    }
  }

  lemma CarryIsFaithful(s: SshLink, size: nat)
    requires FaithfulOverSsh(s)
    ensures FaithfulOverSsh(TakeSsh(s, Carry(size)))
  {
    if 0 < size <= |s.transit| && !s.adapter.hungUp {
      var chunk, rest := s.transit[..size], s.transit[size..];
      FlattenAppend(s.adapter.queue, chunk);
      assert s.transit == chunk + rest;
      assert s.buffer + (s.adapter.readBuf + Flatten(s.adapter.queue)) + (chunk + rest)
          == s.buffer + (s.adapter.readBuf + (Flatten(s.adapter.queue) + chunk)) + rest;
    }
  }

  /** A receive over SSH takes at most one whole frame from what the receiver holds. */
  lemma ReceiveOverConserves(buffer: seq<Byte>, a: Adapter, rooms: seq<nat>)
    requires NoEmptyChunk(a.queue)
    ensures var (buffer', a', outcome) := ReceiveOver(buffer, a, rooms);
            && (outcome.Received? ==> |outcome.payload| <= MAX_PAYLOAD)
            && buffer + Undelivered(a)
            == (if outcome.Received? then Encode(outcome.payload) else []) + (buffer' + Undelivered(a'))
  {
    var fragments := RefinesByteStream(buffer, a, rooms);
    ReceiveConserves(Link(buffer, Undelivered(a), a.hungUp), fragments);
    var (link, outcome) := Receive(Link(buffer, Undelivered(a), a.hungUp), fragments);
    assert [] + (link.buffer + link.stream) == link.buffer + link.stream;
  }

  lemma TakenFirst(taken: seq<Byte>, held: seq<Byte>, transit: seq<Byte>)
    ensures taken + held + transit == taken + (held + transit)
  {
  }

  lemma OneMoreReceivedOverSsh(sent: seq<Byte>, received: seq<seq<Byte>>, p: seq<Byte>, before: seq<Byte>,
                               held: seq<Byte>,
                               transit: seq<Byte>)
    requires Sendable(received) && |p| <= MAX_PAYLOAD
    requires sent == EncodeAll(received) + (before + transit) && before == Encode(p) + held
    ensures Sendable(received + [p]) && sent == EncodeAll(received + [p]) + (held + transit)
  {
    OneMoreReceived(received, held + transit, p);
    TakenFirst(Encode(p), held, transit);
  }

  lemma ReceiveIsFaithful(s: SshLink, rooms: seq<nat>)
    requires FaithfulOverSsh(s)
    ensures FaithfulOverSsh(TakeSsh(s, ReceiveMessage(rooms)))
  {
    var (buffer, a, outcome) := ReceiveOver(s.buffer, s.adapter, rooms);
    ReceiveKeepsChunks(s.buffer, s.adapter, rooms);
    ReceiveOverConserves(s.buffer, s.adapter, rooms);
    var held := buffer + Undelivered(a);
    if outcome.Received? {
      OneMoreReceivedOverSsh(EncodeAll(s.sent), s.received, outcome.payload, s.buffer + Undelivered(s.adapter), held,
                             s.transit);
    } else {
      assert [] + held == held;
    }
  }

  lemma {:induction false} RunIsFaithfulOverSsh(s: SshLink, steps: seq<SshStep>)
    requires FaithfulOverSsh(s)
    ensures FaithfulOverSsh(RunSsh(s, steps))
    decreases |steps|
  {
    if steps == [] {
    } else {
      match steps[0] {
        case SendMessage(p) => SendIsFaithful(s, p);
        case Carry(size) => CarryIsFaithful(s, size);
        case ReceiveMessage(rooms) => ReceiveIsFaithful(s, rooms);
        case Disconnect =>
      }
      RunIsFaithfulOverSsh(TakeSsh(s, steps[0]), steps[1..]);
    }
  }

  /** When a receive reports the close, only an incomplete frame is left at the receiver. */
  lemma CloseLeavesNoFrame(buffer: seq<Byte>, a: Adapter, rooms: seq<nat>)
    requires NoEmptyChunk(a.queue) && ReceiveOver(buffer, a, rooms).2.ChannelClosed?
    ensures FirstFrame(buffer + Undelivered(a)).None?
  {
    var fragments := RefinesByteStream(buffer, a, rooms);
    ReceiveConserves(Link(buffer, Undelivered(a), a.hungUp), fragments);
    var (link, outcome) := Receive(Link(buffer, Undelivered(a), a.hungUp), fragments);
    assert buffer + Undelivered(a) == link.buffer + link.stream == link.buffer;
  }

  /** Where no whole frame is left at the receiver, nothing is missing exactly if nothing is in transit. */
  lemma MissingIffInTransit(sent: seq<seq<Byte>>, received: seq<seq<Byte>>, held: seq<Byte>, transit: seq<Byte>)
    requires Sendable(sent) && Sendable(received) && EncodeAll(sent) == EncodeAll(received) + (held + transit)
    requires FirstFrame(held).None?
    ensures received == sent <==> transit == []
  {
    UniqueDecoding(sent, received, held + transit);
    var missing := sent[|received|..];
    if missing == [] {
      assert |held| + |transit| == 0;
      assert received == sent;
    } else {
      FirstFrameOfEncoding(missing[0], EncodeAll(missing[1..]));
      assert transit == [] ==> held + transit == held;
    }
  }

  /** Main result: over SSH, however the bytes are cut into chunks and reads, the messages received are a prefix of the
      messages sent; and when a receive reports the close, they are all of them exactly if no bytes were lost in
      transit. */
  lemma ReceivedIsSentOverSsh(steps: seq<SshStep>, rooms: seq<nat>)
    ensures var s := RunSsh(UNUSED, steps);
            && s.received <= s.sent
            && (ReceiveOver(s.buffer, s.adapter, rooms).2.ChannelClosed? ==>
                  (s.received == s.sent <==> s.transit == []))
  {
    RunIsFaithfulOverSsh(UNUSED, steps);
    var s := RunSsh(UNUSED, steps);
    var held := s.buffer + Undelivered(s.adapter);
    UniqueDecoding(s.sent, s.received, held + s.transit);
    if ReceiveOver(s.buffer, s.adapter, rooms).2.ChannelClosed? {
      CloseLeavesNoFrame(s.buffer, s.adapter, rooms);
      MissingIffInTransit(s.sent, s.received, held, s.transit);
    }
  }

  /** Nothing need stay in transit: while the sender is there, all of it can be carried as one chunk. */
  lemma AllCanBeCarried(s: SshLink)
    requires !s.adapter.hungUp
    ensures TakeSsh(s, Carry(|s.transit|)).transit == []
    ensures Undelivered(TakeSsh(s, Carry(|s.transit|)).adapter) == Undelivered(s.adapter) + s.transit
  {
    FlattenAppend(s.adapter.queue, s.transit);
    if s.transit == [] {
      assert Undelivered(s.adapter) + [] == Undelivered(s.adapter);
    } else {
      assert s.transit[..|s.transit|] == s.transit;
      assert s.adapter.readBuf + (Flatten(s.adapter.queue) + s.transit) == Undelivered(s.adapter) + s.transit;
    }
  }

  /** A message of up to 65535 bytes is sent while the sender is there, and nothing else. */
  lemma SentOverSshIff(s: SshLink, p: seq<Byte>)
    ensures TakeSsh(s, SendMessage(p)).sent == if |p| <= 65535 && !s.adapter.hungUp then s.sent + [p] else s.sent
  {
    assert s.sent + [p] != s.sent;
  }

  /** Once the sender is gone and all messages have been received, a receive that polls reports the close. */
  lemma CloseIsReportedOverSsh(steps: seq<SshStep>, rooms: seq<nat>)
    requires var s := RunSsh(UNUSED, steps); s.received == s.sent && rooms != []
    ensures var s := TakeSsh(RunSsh(UNUSED, steps), Disconnect);
            ReceiveOver(s.buffer, s.adapter, rooms).2 == ChannelClosed
  {
    RunIsFaithfulOverSsh(UNUSED, steps);
    var before := RunSsh(UNUSED, steps);
    assert |before.buffer + Undelivered(before.adapter) + before.transit| == 0;
    var s := TakeSsh(before, Disconnect);
    assert s.buffer == [] && Undelivered(s.adapter) == [];
    EndOfStreamIff(s.adapter, rooms[0] + 1);
  }

  /** A reader that has been given everything sees the end of the stream once the sender has hung up. */
  lemma HangUpIsSeen(s: Session, remaining: nat)
    requires NoEmptyChunk(s.adapter.queue) && remaining > 0 && Undelivered(s.adapter) == []
    ensures Polled(Take(s, HangUp).adapter, remaining).1 == Ready([])
  {
    EndOfStreamIff(Take(s, HangUp).adapter, remaining);
  }

  // ----- The adapter object -----

  class SshChannelAdapter {
    var readRx: seq<seq<Byte>>
    var hungUp: bool
    var readBuf: seq<Byte>

    ghost function State(): Adapter
      reads this
    {
      Adapter(readRx, hungUp, readBuf)
    }

    constructor ()
      ensures State() == Adapter([], false, [])
    {
      readRx, hungUp, readBuf := [], false, [];
    }

    method PollRead(remaining: nat) returns (r: Poll)
      modifies this
      ensures (State(), r) == Polled(old(State()), remaining)
      ensures r.Ready? ==> r.bytes + Undelivered(State()) == Undelivered(old(State()))
    {
      PollConserves(State(), remaining);
      if readBuf != [] {
        var toCopy := Min(remaining, |readBuf|);
        var data := readBuf[..toCopy];
        readBuf := readBuf[toCopy..];
        return Ready(data);
      }
      if readRx != [] {
        var data := readRx[0];
        readRx := readRx[1..];
        var toCopy := Min(remaining, |data|);
        if toCopy < |data| {
          readBuf := readBuf + data[toCopy..];
        }
        assert readBuf == data[toCopy..];
        return Ready(data[..toCopy]);
      }
      r := if hungUp then Ready([]) else Pending;
    }
  }
}
