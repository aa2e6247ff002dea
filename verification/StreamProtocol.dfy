/** The message reader on top of the tcp reader, as a machine over the events it reacts to.

    A user callback is always the last thing a handler does, so a callback that asks for the next
    message is the next event.  Every failed assertion of the source is an `Aborted` outcome. */
module StreamProtocol {
  import opened Ascii
  import opened Wrappers
  import opened Framing
  import opened DemoFraming
  import opened DemoStreams
  import opened DemoFrames

  const INPUT_CAPACITY := 4096

  /** What read() returned: bytes, end of file with the errno of the moment, or an error. */
  datatype ReadResult = Data(bytes: string) | Eof(errno: int) | Again | Failed(errno: int)

  datatype Event =
    | Request(r: ReadResult)  // msg_stream_read; `r` is used if it gets as far as read()
    | Ready(r: ReadResult)    // read_ready_callback
    | Posted(r: ReadResult)   // postable_read, run by the runloop

  /** One call of a user callback. */
  datatype Call = Call(request: nat, message: Option<string>, error: int)

  datatype ReadState = Initial | Eagain | Stopped | ReadReady | Error

  datatype Stream = Stream(
    kind: Kind,
    mode: Mode, body: string,    // the parser
    queue: seq<string>,          // input_message_list
    readCb: Option<nat>,         // read_cb of the message stream, named by its request
    pending: bool,               // input_buffer and read_cb of the tcp reader
    readState: ReadState,
    posted: nat,                 // postable_read functors on the runloop
    requests: nat,               // requests made so far
    calls: seq<Call>,            // callbacks made so far
    chunks: seq<string>)         // what read() returned so far

  /** The source's assertions, and `NotPosted` for a functor that no runloop can run because nobody
      posted it. */
  datatype Site = RequestPending | ReadPending | NoBuffer | NothingRead | MessageTooLong | NotPosted

  datatype Outcome = Ok(s: Stream) | Aborted(site: Site)

  function Start(kind: Kind): Stream {
    Stream(kind, Idle, "", [], None, false, Initial, 0, 0, [], [])
  }

  function Parser(s: Stream): Framer { Framer(s.mode, s.body, []) }

  /** invoke_read_callback. */
  function Invoke(s: Stream, message: Option<string>, error: int): Stream {
    match s.readCb
    case None => s
    case Some(id) => s.(readCb := None, calls := s.calls + [Call(id, message, error)])
  }

  /** The first queued message, if any, goes to the waiting callback. */
  function HandOver(s: Stream): Stream
    requires s.queue != []
  {
    Invoke(s.(queue := s.queue[1..]), Some(s.queue[0]), 0)
  }

  /** tcp_read_callback. */
  function ReadCallback(s: Stream, bytes: string, error: int): Outcome {
    if error != 0 then Ok(Invoke(s, None, error))
    else if bytes == "" then Aborted(NothingRead)
    else
      match Chunk(s.kind, Parser(s), bytes)
      case Halted(_) => Aborted(MessageTooLong)
      case Framer(mode, body, msgs) =>
        var s1 := s.(mode := mode, body := body, queue := s.queue + msgs, chunks := s.chunks + [bytes]);
        Ok(if s1.queue != [] then HandOver(s1) else s1.(posted := s1.posted + 1))
  }

  /** try_read of the tcp reader. */
  function TryRead(s: Stream, r: ReadResult): Outcome {
    if !s.pending then Aborted(NoBuffer)
    else if s.readState.Error? || s.readState.Stopped? then Ok(s)
    else
      match r
      case Data(bytes) => ReadCallback(s.(readState := ReadReady, pending := false), bytes, 0)
      case Eof(errno) => ReadCallback(s.(pending := false), "", errno)
      case Again => Ok(s.(readState := Eagain))
      case Failed(errno) => ReadCallback(s.(pending := false), "", errno)
  }

  function TcpRead(s: Stream, r: ReadResult): Outcome {
    if s.pending then Aborted(ReadPending) else TryRead(s.(pending := true), r)
  }

  function Step(s: Stream, ev: Event): Outcome {
    match ev
    case Request(r) =>
      if s.readCb.Some? then Aborted(RequestPending) else
      var s1 := s.(readCb := Some(s.requests), requests := s.requests + 1);
      if s1.queue != [] then Ok(HandOver(s1)) else TcpRead(s1, r)
    case Ready(r) =>
      if s.readState.Error? || s.readState.Stopped? then Ok(s)
      else TryRead(s.(readState := ReadReady), r)
    case Posted(r) =>
      if s.posted == 0 then Aborted(NotPosted) else TcpRead(s.(posted := s.posted - 1), r)
  }

  function Run(s: Stream, events: seq<Event>): Outcome
    decreases |events|
  {
    if events == [] then Ok(s) else
    match Step(s, events[0])
    case Aborted(site) => Aborted(site)
    case Ok(next) => Run(next, events[1..])
  }

  // ----- the invariant

  /** The messages handed to callbacks. */
  function Delivered(calls: seq<Call>): seq<string> {
    if calls == [] then []
    else Delivered(calls[..|calls| - 1])
         + (match calls[|calls| - 1].message case None => [] case Some(m) => [m])
  }

  /** Requests are answered in order, each once; at most the last one is outstanding. */
  predicate Answered(s: Stream) {
    && (forall i :: 0 <= i < |s.calls| ==> s.calls[i].request == i)
    && (match s.readCb
        case None => |s.calls| == s.requests
        case Some(id) => |s.calls| == id && s.requests == id + 1)
    && (forall i :: 0 <= i < |s.calls| ==> (s.calls[i].message.Some? <==> s.calls[i].error == 0))
  }

  /** An outstanding request has exactly one way to go on: a pending read that hit EAGAIN, or one
      posted retry.  Messages wait only while nobody does. */
  predicate Waiting(s: Stream) {
    && (s.readCb.None? ==> !s.pending && s.posted == 0)
    && (s.readCb.Some? ==> s.queue == [] && if s.pending then s.posted == 0 && s.readState.Eagain? else s.posted == 1)
    && !s.readState.Error? && !s.readState.Stopped?
  }

  /** The parser and the messages are those of the reads so far. */
  predicate Parsed(s: Stream) {
    && NonEmpty(s.chunks) && |s.body| <= Capacity(s.kind)
    && Chunks(s.kind, Init, s.chunks) == Framer(s.mode, s.body, Delivered(s.calls) + s.queue)
  }

  ghost predicate Inv(s: Stream) { Answered(s) && Waiting(s) && Parsed(s) }

  // ----- what the environment owes

  predicate GoodResult(s: Stream, r: ReadResult) {
    match r
    case Data(bytes) => bytes != "" && !TooLong(s.kind, s.mode, |s.body|, bytes)
    case Eof(errno) => errno != 0
    case Again => true
    case Failed(errno) => errno != 0
  }

  /** The condition on an event, checkable before it: ask only when nothing is outstanding, signal
      readiness only while a read is pending, run only what was posted, report neither an empty
      read nor a zero errno, and send no message longer than its buffer. */
  predicate Allowed(s: Stream, ev: Event) {
    match ev
    case Request(r) => s.readCb.None? && (s.queue == [] ==> GoodResult(s, r))
    case Ready(r) => s.pending && GoodResult(s, r)
    case Posted(r) => s.posted > 0 && GoodResult(s, r)
  }

  ghost predicate AllowedRun(s: Stream, events: seq<Event>)
    decreases |events|
  {
    events == [] || (Allowed(s, events[0]) && Step(s, events[0]).Ok? && AllowedRun(Step(s, events[0]).s, events[1..]))
  }

  // ----- preservation

  lemma DeliveredExtends(calls: seq<Call>, call: Call)
    ensures Delivered(calls + [call])
         == Delivered(calls) + (match call.message case None => [] case Some(m) => [m])
  {
    assert (calls + [call])[..|calls|] == calls;
  }

  lemma HandOverKeeps(s: Stream)
    requires s.queue != [] && s.readCb.Some? && Answered(s) && Parsed(s)
    requires !s.pending && s.posted == 0 && !s.readState.Error? && !s.readState.Stopped?
    ensures Inv(HandOver(s))
  {
    hide Chunks, Chunk, Delivered;
    var call := Call(s.readCb.value, Some(s.queue[0]), 0);
    DeliveredExtends(s.calls, call);
    assert Delivered(s.calls) + [s.queue[0]] + s.queue[1..] == Delivered(s.calls) + s.queue;
  }

  lemma ErrorKeeps(s: Stream, error: int)
    requires error != 0 && s.readCb.Some? && Answered(s) && Parsed(s) && s.queue == []
    requires !s.pending && s.posted == 0 && !s.readState.Error? && !s.readState.Stopped?
    ensures Inv(Invoke(s, None, error))
  {
    hide Chunks, Chunk, Delivered;
    DeliveredExtends(s.calls, Call(s.readCb.value, None, error));
    assert Delivered(s.calls) + [] == Delivered(s.calls);
  }

  /** The reads so far, followed by one more. */
  lemma ReadOneMore(s: Stream, bytes: string)
    requires Parsed(s) && bytes != ""
    ensures NonEmpty(s.chunks + [bytes])
    ensures Chunks(s.kind, Init, s.chunks + [bytes])
         == Behind(Delivered(s.calls) + s.queue, Chunk(s.kind, Parser(s), bytes))
  {
    var out := Delivered(s.calls) + s.queue;
    ChunksConcat(s.kind, Init, s.chunks, [bytes]);
    assert |[bytes][1..]| == 0;
    assert Behind(out, Parser(s)) == Framer(s.mode, s.body, out) by { assert out + [] == out; }
    ChunkBehind(s.kind, out, Parser(s), bytes);
  }

  lemma DataKeeps(s: Stream, bytes: string)
    requires Answered(s) && Parsed(s) && s.readCb.Some? && s.queue == [] && bytes != ""
    requires !s.pending && s.posted == 0 && !s.readState.Error? && !s.readState.Stopped?
    requires !TooLong(s.kind, s.mode, |s.body|, bytes)
    ensures ReadCallback(s, bytes, 0).Ok? && Inv(ReadCallback(s, bytes, 0).s)
  {
    hide Chunk, Chunks, Delivered, TooLong;
    HaltsExactlyWhen(s.kind, Parser(s), bytes);
    ReadOneMore(s, bytes);
    var next := Chunk(s.kind, Parser(s), bytes);
    var s1 := s.(mode := next.mode, body := next.body, queue := s.queue + next.out, chunks := s.chunks + [bytes]);
    assert Delivered(s.calls) + s.queue + next.out == Delivered(s.calls) + s1.queue;
    assert Parsed(s1);
    if s1.queue != [] {
      HandOverKeeps(s1);
    }
  }

  /** try_read with a buffer in place. */
  lemma TryReadKeeps(s: Stream, r: ReadResult)
    requires Answered(s) && Parsed(s) && s.readCb.Some? && s.queue == [] && GoodResult(s, r)
    requires s.pending && s.posted == 0 && !s.readState.Error? && !s.readState.Stopped?
    ensures TryRead(s, r).Ok? && Inv(TryRead(s, r).s)
  {
    hide Chunk, Chunks, Delivered, TooLong;
    match r {
      case Data(bytes) => DataKeeps(s.(readState := ReadReady, pending := false), bytes);
      case Eof(errno) => ErrorKeeps(s.(pending := false), errno);
      case Again =>
      case Failed(errno) => ErrorKeeps(s.(pending := false), errno);
    }
  }

  lemma StepKeeps(s: Stream, ev: Event)
    requires Inv(s) && Allowed(s, ev)
    ensures Step(s, ev).Ok? && Inv(Step(s, ev).s) && Step(s, ev).s.kind == s.kind
  {
    hide Chunk, Chunks, Delivered, TooLong;
    match ev {
      case Request(r) =>
        var s1 := s.(readCb := Some(s.requests), requests := s.requests + 1);
        if s.queue != [] {
          HandOverKeeps(s1);
        } else {
          TryReadKeeps(s1.(pending := true), r);
        }
      case Ready(r) => TryReadKeeps(s.(readState := ReadReady), r);
      case Posted(r) => TryReadKeeps(s.(posted := 0, pending := true), r);
    }
  }

  /** In a reachable state an event trips an assertion if and only if it is not allowed; in
      particular tcp_read is never entered with a read pending, nor the parser with an empty
      buffer. */
  lemma AbortsExactlyWhen(s: Stream, ev: Event)
    requires Inv(s)
    ensures Step(s, ev).Ok? <==> Allowed(s, ev)
    ensures Step(s, ev) != Aborted(ReadPending)
  {
    hide Chunk, Chunks, Delivered, TooLong;
    if Allowed(s, ev) {
      StepKeeps(s, ev);
    } else if ev.r.Data? {
      HaltsExactlyWhen(s.kind, Parser(s), ev.r.bytes);
    }
  }

  /** For newline streams the condition on a read is one on the bytes alone: all bytes read so far,
      with the new ones, have a line that outgrows its buffer. */
  lemma NewlineTooLong(s: Stream, bytes: string)
    requires Inv(s) && s.kind.Newline? && bytes != ""
    ensures TooLong(Newline, s.mode, |s.body|, bytes) <==> !LinesFit(Flat(s.chunks) + bytes)
  {
    hide Chunk, Chunks, Delivered, LinesFit, TooLong, Flat, Lines, LastLine, FittingLines;
    HaltsExactlyWhen(Newline, Parser(s), bytes);
    ReadOneMore(s, bytes);
    ReadTheRest(s.chunks, bytes);
    NewlineIndependence(Init, s.chunks + [bytes]);
    NewlineIsSplit([], Flat(s.chunks) + bytes);
  }

  /** The shortest runs that trip an assertion: an end of file that leaves errno 0, and readiness
      without a pending read. */
  lemma AbortingRuns(kind: Kind, r: ReadResult)
    ensures Step(Start(kind), Request(Eof(0))) == Aborted(NothingRead)
    ensures Step(Start(kind), Ready(r)) == Aborted(NoBuffer)
  {
  }

  /** A frame of more than 1024 printing characters. */
  lemma LongFrameAborts(text: string)
    requires |text| > 1024 && forall i :: 0 <= i < |text| ==> Printing(text[i])
    ensures Step(Start(Demo), Request(Data([2 as char] + text))) == Aborted(MessageTooLong)
  {
    AllPrintIs(text);
    hide Run, FirstBreak, AllPrint;
    OpenOverflow([], "", text, "");
    assert "" + [STX] + text + "" == [STX] + text;
    ChunkUpToBreak(Init, [STX] + text);
  }

  lemma {:induction false} RunKeeps(s: Stream, events: seq<Event>)
    requires Inv(s) && AllowedRun(s, events)
    ensures Run(s, events).Ok? && Inv(Run(s, events).s) && Run(s, events).s.kind == s.kind
    decreases |events|
  {
    hide Step, Inv, Allowed;
    if events != [] {
      StepKeeps(s, events[0]);
      RunKeeps(Step(s, events[0]).s, events[1..]);
    }
  }

  /** Every allowed run, from the start: no assertion fires, requests are answered once each and
      in order, and what was delivered followed by what is queued is what the parser makes of the
      reads so far. */
  lemma EveryRun(kind: Kind, events: seq<Event>)
    requires AllowedRun(Start(kind), events)
    ensures var r := Run(Start(kind), events); r.Ok? && Inv(r.s) && r.s.kind == kind
  {
    RunKeeps(Start(kind), events);
  }

  /** Newline messages: for every run, the lines of all bytes read so far, however they were cut. */
  lemma NewlineEndToEnd(events: seq<Event>)
    requires AllowedRun(Start(Newline), events)
    ensures var r := Run(Start(Newline), events);
            && r.Ok? && LinesFit(Flat(r.s.chunks))
            && Delivered(r.s.calls) + r.s.queue == Lines(Flat(r.s.chunks))
            && r.s.body == LastLine(Flat(r.s.chunks))
  {
    EveryRun(Newline, events);
    var s := Run(Start(Newline), events).s;
    NewlineIndependence(Init, s.chunks);
    NewlineIsSplit([], Flat(s.chunks));
    assert [] + Lines(Flat(s.chunks)) == Lines(Flat(s.chunks));
  }

  /** Demo messages: the same for every run whose bytes so far form an intact stream. */
  lemma DemoEndToEnd(events: seq<Event>)
    requires AllowedRun(Start(Demo), events)
    requires Run(Start(Demo), events).Ok? ==> Intact(Flat(Run(Start(Demo), events).s.chunks))
    ensures var r := Run(Start(Demo), events);
            && r.Ok? && Delivered(r.s.calls) + r.s.queue == Messages(Flat(r.s.chunks))
            && r.s.body == (match Unfinished(Flat(r.s.chunks)) case None => "" case Some(text) => text)
  {
    EveryRun(Demo, events);
    var s := Run(Start(Demo), events).s;
    IntactStream(s.chunks);
    assert [] + Messages(Flat(s.chunks)) == Messages(Flat(s.chunks));
  }

  // ----- from a sender's messages to the callbacks

  lemma {:induction false} OutGrows(kind: Kind, st: Framer, chunk: string)
    requires Chunk(kind, st, chunk).Framer?
    ensures st.Framer? && st.out <= Chunk(kind, st, chunk).out
    decreases |chunk|
  {
    if chunk != "" {
      var next := Byte(kind, st, chunk[0], |chunk| == 1);
      OutGrows(kind, next, chunk[1..]);
      assert st.out <= next.out;
    }
  }

  /** If reading the rest as well would deliver `sent`, then what was read so far delivers a prefix
      of it. */
  lemma PrefixDelivered(s: Stream, rest: string, sent: seq<string>)
    requires Parsed(s) && (rest != "" ==> Chunks(s.kind, Init, s.chunks + [rest]) == Framer(Idle, "", sent))
    requires rest == "" ==> Chunks(s.kind, Init, s.chunks) == Framer(Idle, "", sent)
    ensures Delivered(s.calls) + s.queue <= sent
    ensures rest == "" ==> Delivered(s.calls) + s.queue == sent
  {
    if rest != "" {
      ChunksConcat(s.kind, Init, s.chunks, [rest]);
      OneMore(s.kind, Chunks(s.kind, Init, s.chunks), rest);
      OutGrows(s.kind, Chunks(s.kind, Init, s.chunks), rest);
    }
  }

  lemma OneMore(kind: Kind, st: Framer, chunk: string)
    ensures Chunks(kind, st, [chunk]) == Chunk(kind, st, chunk)
  {
    assert |[chunk][1..]| == 0;
  }

  lemma ReadTheRest(chunks: seq<string>, rest: string)
    requires NonEmpty(chunks) && rest != ""
    ensures NonEmpty(chunks + [rest]) && Flat(chunks + [rest]) == Flat(chunks) + rest
  {
    FlatConcat(chunks, [rest]);
    assert |[rest][1..]| == 0;
  }

  lemma RunIsParsed(kind: Kind, events: seq<Event>)
    requires AllowedRun(Start(kind), events)
    ensures Run(Start(kind), events).Ok?
    ensures var s := Run(Start(kind), events).s; s.kind == kind && NonEmpty(s.chunks) && Parsed(s)
  {
    EveryRun(kind, events);
  }

  /** Newline end to end: while the bytes read are the beginning of what a sender serialized, the
      callbacks and the queue hold the first of its messages, in order and unchanged; once all
      bytes are read, all of them. */
  lemma NewlineDeliversWhatWasSent(bodies: seq<string>, events: seq<Event>)
    requires AllowedRun(Start(Newline), events) && forall b <- bodies :: LegalLine(b)
    requires Run(Start(Newline), events).Ok? ==> Flat(Run(Start(Newline), events).s.chunks) <= SerializeLines(bodies)
    ensures var r := Run(Start(Newline), events);
            && r.Ok? && Delivered(r.s.calls) + r.s.queue <= bodies
            && (Flat(r.s.chunks) == SerializeLines(bodies) ==> Delivered(r.s.calls) + r.s.queue == bodies)
  {
    RunIsParsed(Newline, events);
    hide *;
    var s := Run(Start(Newline), events).s;
    var total := SerializeLines(bodies);
    var rest := total[|Flat(s.chunks)|..];
    assert Flat(s.chunks) + rest == total;
    if rest != "" {
      ReadTheRest(s.chunks, rest);
      NewlineSerializeThenParse(bodies, s.chunks + [rest]);
    } else {
      NewlineSerializeThenParse(bodies, s.chunks);
    }
    PrefixDelivered(s, rest, bodies);
  }

  /** Demo end to end, with STX-free noise between the frames. */
  lemma DemoDeliversWhatWasSent(gaps: seq<string>, bodies: seq<string>, events: seq<Event>)
    requires AllowedRun(Start(Demo), events) && |gaps| == |bodies| + 1
    requires (forall g <- gaps :: STX !in g) && forall b <- bodies :: Legal(b)
    requires Run(Start(Demo), events).Ok? ==>
               Flat(Run(Start(Demo), events).s.chunks) <= Transmission(gaps, bodies)
    ensures var r := Run(Start(Demo), events);
            && r.Ok? && Delivered(r.s.calls) + r.s.queue <= bodies
            && (Flat(r.s.chunks) == Transmission(gaps, bodies) ==> Delivered(r.s.calls) + r.s.queue == bodies)
  {
    RunIsParsed(Demo, events);
    hide *;
    var s := Run(Start(Demo), events).s;
    var total := Transmission(gaps, bodies);
    var rest := total[|Flat(s.chunks)|..];
    assert Flat(s.chunks) + rest == total;
    if rest != "" {
      ReadTheRest(s.chunks, rest);
      SerializeThenParse(gaps, bodies, s.chunks + [rest]);
    } else {
      SerializeThenParse(gaps, bodies, s.chunks);
    }
    PrefixDelivered(s, rest, bodies);
  }
}
