/** The batches of the response buffer on their way to the client: a batch is taken out of the buffer first and sent
    afterwards, and the server ends when the channel refuses it (crates/remote/src/main.rs). */
module Delivery {
  import opened Common
  import F = Forwarder
  import C = Framing

  /** How a batch is serialised. */
  type Encoder = seq<F.Item> -> seq<C.Byte>

  /** The server's event log, the link to the client, and whether the request loop still runs. */
  datatype Service = Service(server: F.Server, link: C.Exchange, running: bool)

  const START := Service(F.START, C.START, true)

  /** `Receive` is one call of the client's receive. */
  datatype Step = Serve(step: F.Step) | Receive(fragments: seq<nat>)

  predicate Answers(step: F.Step) {
    step.Poll? || step.GetClipboard?
  }

  /** Requests are served while the loop runs; the relay tasks may go on. */
  ghost predicate Enabled(s: Service, step: Step) {
    match step
    case Serve(f) => F.Enabled(s.server, f) && (Answers(f) || f.StopBegins? ==> s.running)
    case Receive(_) => true
  }

  /** The answer goes out as one message; a refused answer ends the loop and closes the stream. */
  function Answered(encode: Encoder, link: C.Exchange, batch: seq<F.Item>): C.Exchange {
    if |encode(batch)| <= C.MAX_PAYLOAD then C.Take(link, C.Send(encode(batch))) else C.Take(link, C.Close)
  }

  ghost function Take(encode: Encoder, s: Service, step: Step): Service
    requires Enabled(s, step)
  {
    match step
    case Serve(f) =>
      var server := F.Take(s.server, f);
      if Answers(f) then
        var batch := server.drained[|server.drained| - 1];
        Service(server, Answered(encode, s.link, batch), |encode(batch)| <= C.MAX_PAYLOAD)
      else s.(server := server)
    case Receive(fragments) => s.(link := C.Take(s.link, C.Poll(fragments)))
  }

  ghost predicate IsRun(encode: Encoder, s: Service, steps: seq<Step>)
    decreases |steps|
  {
    steps == [] || (Enabled(s, steps[0]) && IsRun(encode, Take(encode, s, steps[0]), steps[1..]))
  }

  ghost function After(encode: Encoder, s: Service, steps: seq<Step>): Service
    requires IsRun(encode, s, steps)
    decreases |steps|
  {
    if steps == [] then s else After(encode, Take(encode, s, steps[0]), steps[1..])
  }

  // ----- What is sent -----

  function Encodings(encode: Encoder, batches: seq<seq<F.Item>>): (payloads: seq<seq<C.Byte>>)
    ensures |payloads| == |batches| && forall i :: 0 <= i < |batches| ==> payloads[i] == encode(batches[i])
  {
    seq(|batches|, i requires 0 <= i < |batches| => encode(batches[i]))
  }

  predicate Fits(encode: Encoder, batch: seq<F.Item>) {
    |encode(batch)| <= C.MAX_PAYLOAD
  }

  /** The batches that came through: all of them, or all but the last, which was refused. */
  ghost predicate SentBut(encode: Encoder, drained: seq<seq<F.Item>>, sent: seq<seq<C.Byte>>, running: bool) {
    if running then
      && sent == Encodings(encode, drained)
      && (forall i :: 0 <= i < |drained| ==> Fits(encode, drained[i]))
    else
      && drained != [] && sent == Encodings(encode, drained[..|drained| - 1])
      && (forall i :: 0 <= i < |drained| - 1 ==> Fits(encode, drained[i]))
      && !Fits(encode, drained[|drained| - 1])
  }

  ghost predicate Sound(encode: Encoder, s: Service) {
    && SentBut(encode, s.server.drained, s.link.sent, s.running)
    && C.Faithful(s.link)
    && (s.link.link.closed <==> !s.running)
  }

  lemma OneMoreBatch(encode: Encoder, drained: seq<seq<F.Item>>, sent: seq<seq<C.Byte>>, batch: seq<F.Item>)
    requires SentBut(encode, drained, sent, true)
    ensures if Fits(encode, batch) then SentBut(encode, drained + [batch], sent + [encode(batch)], true)
            else SentBut(encode, drained + [batch], sent, false)
  {
    var more := drained + [batch];
    assert more[..|more| - 1] == drained;
    if Fits(encode, batch) {
      assert sent + [encode(batch)] == Encodings(encode, more);
    }
  }

  lemma AnswerIsLast(s: F.Server, step: F.Step)
    requires F.Enabled(s, step)
    ensures var after := F.Take(s, step).drained;
            if Answers(step) then after != [] && after == s.drained + [after[|after| - 1]] else after == s.drained
  {
  }

  lemma StepIsSound(encode: Encoder, s: Service, step: Step)
    requires Sound(encode, s) && Enabled(s, step)
    ensures Sound(encode, Take(encode, s, step))
  {
    match step
    case Serve(f) =>
      AnswerIsLast(s.server, f);
      if Answers(f) {
        var after := F.Take(s.server, f).drained;
        var batch := after[|after| - 1];
        OneMoreBatch(encode, s.server.drained, s.link.sent, batch);
        C.StepIsFaithful(s.link, if Fits(encode, batch) then C.Send(encode(batch)) else C.Close);
      }
    case Receive(fragments) =>
      C.StepIsFaithful(s.link, C.Poll(fragments));
      ReceiveKeepsClosed(s.link, fragments);
  }

  lemma ReceiveKeepsClosed(x: C.Exchange, fragments: seq<nat>)
    ensures C.Take(x, C.Poll(fragments)).link.closed == x.link.closed
  {
    C.ReceiveConserves(x.link, fragments);
  }

  lemma {:induction false} RunIsSound(encode: Encoder, s: Service, steps: seq<Step>)
    requires Sound(encode, s) && IsRun(encode, s, steps)
    ensures Sound(encode, After(encode, s, steps))
    decreases |steps|
  {
    if steps == [] {
    } else {
      StepIsSound(encode, s, steps[0]);
      RunIsSound(encode, Take(encode, s, steps[0]), steps[1..]);
    }
  }

  /** Main result: in every run what the client has received is a beginning of the batches taken out of the buffer, in
      order; all batches taken were sent exactly if every one of them fits a message, and otherwise exactly the last one
      is lost. */
  lemma AllSentIffAllFit(encode: Encoder, steps: seq<Step>)
    requires IsRun(encode, START, steps)
    ensures var s := After(encode, START, steps);
            var taken := s.server.drained;
            && s.link.received <= Encodings(encode, taken)
            && (s.link.sent == Encodings(encode, taken) <==> forall i :: 0 <= i < |taken| ==> Fits(encode, taken[i]))
            && (s.link.sent != Encodings(encode, taken) ==>
                  taken != [] && s.link.sent == Encodings(encode, taken[..|taken| - 1]))
  {
    assert C.Faithful(C.START);
    RunIsSound(encode, START, steps);
    var s := After(encode, START, steps);
    var taken := s.server.drained;
    C.UniqueDecoding(s.link.sent, s.link.received, s.link.link.buffer + s.link.link.stream);
    if !s.running {
      var sent := Encodings(encode, taken[..|taken| - 1]);
      assert sent == Encodings(encode, taken)[..|taken| - 1];
    }
  }

  /** The server's own steps of a run. */
  ghost function Served(steps: seq<Step>): seq<F.Step> {
    if steps == [] then []
    else if steps[0].Serve? then [steps[0].step] + Served(steps[1..])
    else Served(steps[1..])
  }

  /** The server goes through its own steps, so everything said of the event log holds here. */
  lemma {:induction false} ServerRunsItself(encode: Encoder, s: Service, steps: seq<Step>)
    requires IsRun(encode, s, steps)
    ensures F.IsRun(s.server, Served(steps)) && After(encode, s, steps).server == F.After(s.server, Served(steps))
    decreases |steps|
  {
    if steps == [] {
    } else {
      ServerRunsItself(encode, Take(encode, s, steps[0]), steps[1..]);
      if steps[0].Serve? {
        assert Served(steps)[0] == steps[0].step && Served(steps)[1..] == Served(steps[1..]);
      }
    }
  }

  /** A batch that was sent is received by the next receive that is woken often enough. */
  lemma NextBatchIsReceived(encode: Encoder, steps: seq<Step>, fragments: seq<nat>)
    requires IsRun(encode, START, steps)
    requires var x := After(encode, START, steps).link; |x.received| < |x.sent| && |fragments| > |x.link.stream|
    ensures var s := After(encode, START, steps);
            var received := Take(encode, s, Receive(fragments)).link.received;
            && |s.link.received| < |s.server.drained|
            && received == s.link.received + [encode(s.server.drained[|s.link.received|])]
  {
    assert C.Faithful(C.START);
    RunIsSound(encode, START, steps);
    C.NextIsReceived(After(encode, START, steps).link, fragments);
  }
}
