/** Length-prefixed messages over a byte stream that arrives in arbitrary pieces
    (crates/core/src/message_channel.rs). */
module Framing {
  import opened Common

  type Byte = b: int | 0 <= b < 256

  const MAX_PAYLOAD: nat := 65535

  /** Two bytes of length, big endian, then the payload. */
  function Encode(payload: seq<Byte>): (frame: seq<Byte>)
    requires |payload| <= MAX_PAYLOAD
    ensures |frame| == 2 + |payload|
  {
    [|payload| / 256, |payload| % 256] + payload
  }

  /** The length stands in front, its high byte first. */
  lemma FrameOnTheWire(payload: seq<Byte>)
    requires |payload| <= MAX_PAYLOAD
    ensures var frame := Encode(payload);
            && 256 * (frame[0] as int) + (frame[1] as int) == |payload| && frame[2..] == payload
  {
  }

  predicate Sendable(payloads: seq<seq<Byte>>) {
    forall i :: 0 <= i < |payloads| ==> |payloads[i]| <= MAX_PAYLOAD
  }

  function EncodeAll(payloads: seq<seq<Byte>>): seq<Byte>
    requires Sendable(payloads)
  {
    if payloads == [] then [] else Encode(payloads[0]) + EncodeAll(payloads[1..])
  }

  function PayloadLength(buffer: seq<Byte>): nat
    requires |buffer| >= 2
  {
    256 * (buffer[0] as int) + (buffer[1] as int)
  }

  /** The payload of the frame at the front of `buffer`, if it is complete. */
  function FirstFrame(buffer: seq<Byte>): (payload: Option<seq<Byte>>)
    ensures payload.Some? <==> |buffer| >= 2 && |buffer| >= 2 + PayloadLength(buffer)
    ensures payload.Some? ==> |payload.value| <= MAX_PAYLOAD && Encode(payload.value) <= buffer
  {
    if |buffer| < 2 || |buffer| < 2 + PayloadLength(buffer) then None
    else Some(buffer[2..2 + PayloadLength(buffer)])
  }

  lemma FirstFrameOfEncoding(payload: seq<Byte>, rest: seq<Byte>)
    requires |payload| <= MAX_PAYLOAD
    ensures FirstFrame(Encode(payload) + rest) == Some(payload)
  {
    var all := Encode(payload) + rest;
    assert all[2..2 + |payload|] == payload;
  }

  lemma {:induction false} EncodeAllAppend(payloads: seq<seq<Byte>>, last: seq<Byte>)
    requires Sendable(payloads) && |last| <= MAX_PAYLOAD
    ensures EncodeAll(payloads + [last]) == EncodeAll(payloads) + Encode(last)
  {
    if payloads == [] {
      assert EncodeAll([last]) == Encode(last) + EncodeAll([]);
    } else {
      assert (payloads + [last])[1..] == payloads[1..] + [last];
      EncodeAllAppend(payloads[1..], last);
    }
  }

  /** A stream of frames can be cut in only one way: if it starts with the frames of `got`, then `got` is the beginning
      of what was sent and the rest of the stream is the rest of what was sent. */
  lemma {:induction false} UniqueDecoding(sent: seq<seq<Byte>>, got: seq<seq<Byte>>, rest: seq<Byte>)
    requires Sendable(sent) && Sendable(got)
    requires EncodeAll(sent) == EncodeAll(got) + rest
    ensures got <= sent && rest == EncodeAll(sent[|got|..])
  {
    if got == [] {
      assert sent[0..] == sent;
    } else {
      var tail := EncodeAll(got[1..]) + rest;
      assert EncodeAll(sent) == Encode(got[0]) + tail;
      FirstFrameOfEncoding(got[0], tail);
      assert sent != [];
      FirstFrameOfEncoding(sent[0], EncodeAll(sent[1..]));
      assert EncodeAll(sent[1..]) == EncodeAll(sent)[|Encode(sent[0])|..] == tail;
      UniqueDecoding(sent[1..], got[1..], rest);
      assert sent[1..][|got[1..]|..] == sent[|got|..];
    }
  }

  // ----- The receiver, as a function of what it buffers and what is still in the stream -----

  /** `Cancelled`: the future was dropped while waiting for more bytes. */
  datatype Outcome = Received(payload: seq<Byte>) | ChannelClosed | Cancelled

  /** `buffer` is the receiver's `read_buffer`; `stream` is written and not yet read; `closed` once no more
      will come. */
  datatype Link = Link(buffer: seq<Byte>, stream: seq<Byte>, closed: bool)

  /** The size of one read: what the fragmentation allows, at least one byte and at most what is there. */
  function ReadSize(fragment: nat, available: nat): nat {
    if available == 0 then 0 else if fragment == 0 then 1 else if fragment <= available then fragment else available
  }

  /** One call of `receive_binary`. Each element of `fragments` is one wake-up of the read with that many bytes ready;
      when they run out, or when an open stream has nothing to read, the call is still waiting and is cancelled. */
  function Receive(link: Link, fragments: seq<nat>): (Link, Outcome)
    decreases |fragments|
  {
    var first := FirstFrame(link.buffer);
    if first.Some? then (link.(buffer := link.buffer[2 + |first.value|..]), Received(first.value))
    else if fragments == [] then (link, Cancelled)
    else
      var n := ReadSize(fragments[0], |link.stream|);
      if n == 0 then (if link.closed then (link, ChannelClosed) else (link, Cancelled))
      else Receive(link.(buffer := link.buffer + link.stream[..n], stream := link.stream[n..]), fragments[1..])
  }

  /** Nothing is lost or reordered by a call, cancelled or not; a close is reported only when the stream is exhausted
      and no complete frame is left. */
  lemma {:induction false} ReceiveConserves(link: Link, fragments: seq<nat>)
    ensures var (link', outcome) := Receive(link, fragments);
            && link'.closed == link.closed
            && (match outcome
                case Received(p) =>
                  |p| <= MAX_PAYLOAD && link.buffer + link.stream == Encode(p) + (link'.buffer + link'.stream)
                case ChannelClosed =>
                  && link.buffer + link.stream == link'.buffer + link'.stream
                  && link.closed && link'.stream == [] && FirstFrame(link'.buffer).None?
                case Cancelled => link.buffer + link.stream == link'.buffer + link'.stream)
    decreases |fragments|
  {
    var first := FirstFrame(link.buffer);
    if first.Some? {
      var p := first.value;
      assert link.buffer == Encode(p) + link.buffer[2 + |p|..];
    } else if fragments != [] {
      var n := ReadSize(fragments[0], |link.stream|);
      if n > 0 {
        var next := link.(buffer := link.buffer + link.stream[..n], stream := link.stream[n..]);
        assert next.buffer + next.stream == link.buffer + link.stream;
        ReceiveConserves(next, fragments[1..]);
      }
    }
  }

  /** A call that is woken often enough ends, with the first frame if the stream holds one. */
  lemma {:induction false} ReceiveDelivers(link: Link, fragments: seq<nat>)
    requires |fragments| > |link.stream|
    ensures var (link', outcome) := Receive(link, fragments);
            if FirstFrame(link.buffer + link.stream).Some?
            then outcome == Received(FirstFrame(link.buffer + link.stream).value)
            else outcome == if link.closed then ChannelClosed else Cancelled
    decreases |fragments|
  {
    var first := FirstFrame(link.buffer);
    if first.Some? {
      var p := first.value;
      assert link.buffer + link.stream == Encode(p) + (link.buffer[2 + |p|..] + link.stream);
      FirstFrameOfEncoding(p, link.buffer[2 + |p|..] + link.stream);
    } else {
      var n := ReadSize(fragments[0], |link.stream|);
      if n == 0 {
        assert link.buffer + link.stream == link.buffer;
      } else {
        var next := link.(buffer := link.buffer + link.stream[..n], stream := link.stream[n..]);
        assert next.buffer + next.stream == link.buffer + link.stream;
        ReceiveDelivers(next, fragments[1..]);
      }
    }
  }

  // ----- Runs of a sender and a receiver -----

  datatype Step = Send(payload: seq<Byte>) | Poll(fragments: seq<nat>) | Close

  /** The link, the payloads whose send succeeded and the payloads received, both in order. */
  datatype Exchange = Exchange(link: Link, sent: seq<seq<Byte>>, received: seq<seq<Byte>>)

  const START := Exchange(Link([], [], false), [], [])

  function Take(x: Exchange, step: Step): Exchange {
    match step
    case Send(p) =>
      if |p| > MAX_PAYLOAD || x.link.closed then x
      else x.(link := x.link.(stream := x.link.stream + Encode(p)), sent := x.sent + [p])
    case Poll(fragments) =>
      var (link, outcome) := Receive(x.link, fragments);
      x.(link := link, received := if outcome.Received? then x.received + [outcome.payload] else x.received)
    case Close => x.(link := x.link.(closed := true))
  }

  function Run(x: Exchange, steps: seq<Step>): Exchange
    decreases |steps|
  {
    if steps == [] then x else Run(Take(x, steps[0]), steps[1..])
  }

  /** What was sent is what was received followed by what is on the way. */
  ghost predicate Faithful(x: Exchange) {
    && Sendable(x.sent) && Sendable(x.received)
    && EncodeAll(x.sent) == EncodeAll(x.received) + (x.link.buffer + x.link.stream)
  }

  lemma OneMoreSent(sent: seq<seq<Byte>>, before: seq<Byte>, buffered: seq<Byte>, stream: seq<Byte>, p: seq<Byte>)
    requires Sendable(sent) && |p| <= MAX_PAYLOAD && EncodeAll(sent) == before + (buffered + stream)
    ensures Sendable(sent + [p]) && EncodeAll(sent + [p]) == before + (buffered + (stream + Encode(p)))
  {
    EncodeAllAppend(sent, p);
    assert before + (buffered + stream) + Encode(p) == before + (buffered + (stream + Encode(p)));
  }

  lemma OneMoreReceived(received: seq<seq<Byte>>, rest: seq<Byte>, p: seq<Byte>)
    requires Sendable(received) && |p| <= MAX_PAYLOAD
    ensures Sendable(received + [p]) && EncodeAll(received + [p]) + rest == EncodeAll(received) + (Encode(p) + rest)
  {
    EncodeAllAppend(received, p);
    assert EncodeAll(received) + Encode(p) + rest == EncodeAll(received) + (Encode(p) + rest);
  }

  lemma StepIsFaithful(x: Exchange, step: Step)
    requires Faithful(x)
    ensures Faithful(Take(x, step))
  {
    match step
    case Send(p) =>
      if |p| <= MAX_PAYLOAD && !x.link.closed {
        OneMoreSent(x.sent, EncodeAll(x.received), x.link.buffer, x.link.stream, p);
      }
    case Poll(fragments) =>
      ReceiveConserves(x.link, fragments);
      var (link, outcome) := Receive(x.link, fragments);
      if outcome.Received? {
        OneMoreReceived(x.received, link.buffer + link.stream, outcome.payload);
      }
    case Close =>
  }

  lemma {:induction false} RunIsFaithful(x: Exchange, steps: seq<Step>)
    requires Faithful(x)
    ensures Faithful(Run(x, steps))
    decreases |steps|
  {
    if steps == [] {
    } else {
      StepIsFaithful(x, steps[0]);
      RunIsFaithful(Take(x, steps[0]), steps[1..]);
    }
  }

  /** Main result: for any payloads, any fragmentation and any cancelled receives, the received list is a prefix of the
      accepted one; and when a receive reports the close, the two lists are equal. */
  lemma ReceivedIsSent(steps: seq<Step>, fragments: seq<nat>)
    ensures var x := Run(START, steps);
            && x.received <= x.sent
            && (Receive(x.link, fragments).1.ChannelClosed? ==> x.received == x.sent)
  {
    RunIsFaithful(START, steps);
    var x := Run(START, steps);
    UniqueDecoding(x.sent, x.received, x.link.buffer + x.link.stream);
    ReceiveConserves(x.link, fragments);
    var (link, outcome) := Receive(x.link, fragments);
    var missing := x.sent[|x.received|..];
    if missing != [] {
      FirstFrameOfEncoding(missing[0], EncodeAll(missing[1..]));
    }
    if outcome.ChannelClosed? {
      assert link.buffer == x.link.buffer + x.link.stream;
      assert missing == [];
    }
  }

  /** A payload of up to 65535 bytes is accepted while the stream is open, and nothing else. */
  lemma AcceptedIff(x: Exchange, p: seq<Byte>)
    ensures Take(x, Send(p)).sent == if |p| <= 65535 && !x.link.closed then x.sent + [p] else x.sent
  {
    assert x.sent + [p] != x.sent;
  }

  /** Once the stream is closed and all payloads have been received, a receive that is woken reports the close. */
  lemma CloseIsReported(steps: seq<Step>, fragments: seq<nat>)
    requires var x := Run(START, steps); x.received == x.sent && fragments != []
    ensures Receive(Take(Run(START, steps), Close).link, fragments).1 == ChannelClosed
  {
    RunIsFaithful(START, steps);
    var x := Run(START, steps);
    assert |x.link.buffer + x.link.stream| == 0;
  }

  lemma NextIsReceived(x: Exchange, fragments: seq<nat>)
    requires Faithful(x) && |x.received| < |x.sent| && |fragments| > |x.link.stream|
    ensures Receive(x.link, fragments).1 == Received(x.sent[|x.received|])
  {
    UniqueDecoding(x.sent, x.received, x.link.buffer + x.link.stream);
    var missing := x.sent[|x.received|..];
    assert missing != [];
    FirstFrameOfEncoding(missing[0], EncodeAll(missing[1..]));
    ReceiveDelivers(x.link, fragments);
  }

  /** Every complete frame is delivered: a receive that is woken often enough returns the next payload. */
  lemma NextPayloadIsDelivered(steps: seq<Step>, fragments: seq<nat>)
    requires var x := Run(START, steps); |x.received| < |x.sent| && |fragments| > |x.link.stream|
    ensures var x := Run(START, steps);
            Receive(x.link, fragments).1 == Received(x.sent[|x.received|])
  {
    RunIsFaithful(START, steps);
    NextIsReceived(Run(START, steps), fragments);
  }

  // ----- The channel object -----

  datatype SendResult = Sent | BufferOverflow(size: nat)

  /** One end of a stream: what the peer has written and this end has not read, and what this end has written. */
  class Stream {
    var unread: seq<Byte>
    var closed: bool
    var written: seq<Byte>

    constructor ()
      ensures unread == [] && !closed && written == []
    {
      unread, closed, written := [], false, [];
    }

    /** One read of at most `fragment` bytes (at least one if any is there). */
    method Read(fragment: nat) returns (bytes: seq<Byte>)
      modifies this`unread
      ensures |bytes| == ReadSize(fragment, |old(unread)|)
      ensures bytes + unread == old(unread)
    {
      var n := ReadSize(fragment, |unread|);
      bytes := unread[..n];
      unread := unread[n..];
    }

    method WriteU16(value: nat)
      requires value <= MAX_PAYLOAD
      modifies this`written
      ensures written == old(written) + [value / 256, value % 256]
    {
      written := written + [value / 256, value % 256];
    }

    method WriteAll(bytes: seq<Byte>)
      modifies this`written
      ensures written == old(written) + bytes
    {
      written := written + bytes;
    }
  }

  class MessageChannel {
    const inner: Stream
    var readBuffer: seq<Byte>

    ghost function State(): Link
      reads this, inner
    {
      Link(readBuffer, inner.unread, inner.closed)
    }

    constructor (stream: Stream)
      ensures inner == stream && readBuffer == []
    {
      inner := stream;
      readBuffer := [];
    }

    /** A payload that is too long writes nothing; any other is written as one frame. */
    method Send(payload: seq<Byte>) returns (r: SendResult)
      modifies inner`written
      ensures if |payload| <= MAX_PAYLOAD then r == Sent && inner.written == old(inner.written) + Encode(payload)
              else r == BufferOverflow(|payload|) && inner.written == old(inner.written)
    {
      if |payload| > MAX_PAYLOAD {
        return BufferOverflow(|payload|);
      }
      inner.WriteU16(|payload|);
      inner.WriteAll(payload);
      r := Sent;
    }

    method ReceiveBinary(fragments: seq<nat>) returns (outcome: Outcome)
      modifies this, inner`unread
      ensures (State(), outcome) == Receive(old(State()), fragments)
    {
      var i := 0;
      while true
        invariant 0 <= i <= |fragments|
        invariant Receive(State(), fragments[i..]) == Receive(old(State()), fragments)
        decreases |fragments| - i
      {
        if |readBuffer| >= 2 {
          var length := PayloadLength(readBuffer);
          if |readBuffer| >= 2 + length {
            var payload := readBuffer[2..2 + length];
            readBuffer := readBuffer[2 + length..];
            return Received(payload);
          }
        }
        if i == |fragments| {
          return Cancelled;
        }
        assert fragments[i..][1..] == fragments[i + 1..];
        ghost var before := inner.unread;
        var bytes := inner.Read(fragments[i]);
        assert before[..|bytes|] == bytes && before[|bytes|..] == inner.unread;
        if bytes == [] {
          return if inner.closed then ChannelClosed else Cancelled;
        }
        readBuffer := readBuffer + bytes;
        i := i + 1;
      }
    }
  }
}
