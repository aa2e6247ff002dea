/** The message stream as an object: the handlers of msg_reader.c over those of tcp_reader.c, on
    one reusable input buffer, each proved to make the step of `StreamProtocol`. */
module MsgStreams {
  import opened Wrappers
  import opened Framing
  import opened DemoFrames
  import opened IOBuffers
  import opened MsgParsers
  import opened StreamProtocol

  class MsgStream {
    const parser: MsgParser
    const input: IOBuffer
    var queue: seq<string>
    var readCb: Option<nat>
    var pending: bool
    var readState: ReadState
    var posted: nat
    var requests: nat
    var calls: seq<Call>
    ghost var chunks: seq<string>

    /** The parser and the buffer are intact; between handlers the buffer holds nothing and is
        wound back to its start, so the next commit is safe and there is space to read into. */
    ghost predicate Valid()
      reads parser, parser.body, parser.body.mem, input
    {
      && parser.Valid()
      && input.Valid() && input.capacity == INPUT_CAPACITY && input.remaining == 0
      && input != parser.body && input.mem != parser.body.mem
    }

    ghost function Value(): Stream
      requires Valid()
      reads this, parser, parser.body, parser.body.mem, input
    {
      Stream(parser.kind, parser.mode, parser.body.Data(), queue, readCb, pending, readState, posted, requests,
             calls, chunks)
    }

    constructor (kind: Kind)
      ensures Valid() && Value() == Start(kind)
      ensures fresh(parser) && fresh(parser.body) && fresh(parser.body.mem) && fresh(input) && fresh(input.mem)
    {
      parser := new MsgParser(kind);
      input := new IOBuffer(INPUT_CAPACITY);
      queue, readCb, pending, readState, posted, requests, calls, chunks := [], None, false, Initial, 0, 0, [], [];
    }

    /** invoke_read_callback. */
    method InvokeCallback(message: Option<string>, error: int)
      requires Valid() && readCb.Some?
      modifies this`readCb, this`calls
      ensures Valid() && Value() == Invoke(old(Value()), message, error)
    {
      var id := readCb.value;
      readCb := None;
      calls := calls + [Call(id, message, error)];
    }

    /** The first queued message goes to the waiting callback. */
    method HandOverFirst()
      requires Valid() && readCb.Some? && queue != []
      modifies this`readCb, this`calls, this`queue
      ensures Valid() && Value() == HandOver(old(Value()))
    {
      var message := queue[0];
      queue := queue[1..];
      InvokeCallback(Some(message), 0);
    }

    /** Answers the request from the queue, or posts a retry to the runloop. */
    method AnswerOrRetry()
      requires Valid() && readCb.Some?
      modifies this`readCb, this`calls, this`queue, this`posted
      ensures Valid()
      ensures Value() == var s := old(Value()); if s.queue != [] then HandOver(s) else s.(posted := s.posted + 1)
    {
      if queue != [] {
        HandOverFirst();
      } else {
        posted := posted + 1;
      }
    }

    /** tcp_read_callback after a read of `bytes`, which are committed but not yet consumed. */
    method OnData(ghost bytes: string) returns (ok: bool)
      requires readCb.Some? && !pending && bytes != ""
      requires parser.Valid() && input.Valid() && input.capacity == INPUT_CAPACITY
      requires input != parser.body && input.mem != parser.body.mem && input.Data() == bytes
      modifies this, parser, parser.body, parser.body.mem, input
      ensures parser.body == old(parser.body) || fresh(parser.body)
      ensures parser.body.mem == old(parser.body.mem) || fresh(parser.body.mem)
      ensures ok <==> Chunk(parser.kind, old(parser.State([])), bytes).Framer?
      ensures ok ==> Valid()
      ensures var before := old(Stream(parser.kind, parser.mode, parser.body.Data(), queue, readCb, pending, readState,
                                       posted, requests, calls, chunks));
              ok ==> ReadCallback(before, bytes, 0) == Ok(Value())
    {
      hide Chunk, HandOver;
      assert input.remaining != 0;
      var msgs;
      ok, msgs := parser.Consume(input);
      if !ok {
        return;
      }
      assert input.remaining == 0;
      chunks := chunks + [bytes];
      queue := queue + msgs;
      AnswerOrRetry();
    }

    /** try_read of the tcp reader: one read() into the input buffer. */
    method TryReading(r: ReadResult)
      requires Valid() && pending && readCb.Some? && !readState.Error? && !readState.Stopped?
      requires GoodResult(Value(), r) && (r.Data? ==> |r.bytes| <= INPUT_CAPACITY)
      modifies this, parser, parser.body, parser.body.mem, input, input.mem
      ensures Valid()
      ensures parser.body == old(parser.body) || fresh(parser.body)
      ensures parser.body.mem == old(parser.body.mem) || fresh(parser.body.mem)
      ensures TryRead(old(Value()), r) == Ok(Value())
    {
      hide Chunk, TooLong;
      match r {
        case Data(bytes) =>
          HaltsExactlyWhen(parser.kind, parser.State([]), bytes);
          readState := ReadReady;
          input.Fill(bytes);
          assert input.mem[input.ptr..input.ptr + input.remaining + |bytes|] == bytes;
          input.Commit(|bytes|);
          pending := false;
          var ok := OnData(bytes);
        case Eof(errno) =>
          pending := false;
          InvokeCallback(None, errno);
        case Again =>
          readState := Eagain;
        case Failed(errno) =>
          pending := false;
          InvokeCallback(None, errno);
      }
    }

    /** tcp_read: its two assertions hold. */
    method StartRead(r: ReadResult)
      requires Valid() && CanStart(Value())
      requires GoodResult(Value(), r) && (r.Data? ==> |r.bytes| <= INPUT_CAPACITY)
      modifies this, parser, parser.body, parser.body.mem, input, input.mem
      ensures Valid()
      ensures parser.body == old(parser.body) || fresh(parser.body)
      ensures parser.body.mem == old(parser.body.mem) || fresh(parser.body.mem)
      ensures TcpRead(old(Value()), r) == Ok(Value())
    {
      hide Chunk, TryRead;
      assert !pending;
      assert input.SpaceLen() != 0;
      pending := true;
      TryReading(r);
    }

    /** The first lines of msg_stream_read: the callback is set. */
    method BeginRequest()
      requires Valid()
      modifies this`readCb, this`requests
      ensures Valid() && Value() == Requested(old(Value()))
    {
      readCb := Some(requests);
      requests := requests + 1;
    }

    /** A posted functor leaves the runloop. */
    method TakePosted()
      requires Valid() && Value().posted > 0
      modifies this`posted
      ensures Valid() && Value() == old(Value()).(posted := old(Value()).posted - 1)
    {
      posted := posted - 1;
    }

    /** msg_stream_read. */
    method Read(r: ReadResult)
      requires Valid() && Inv(Value()) && Allowed(Value(), Request(r))
      requires r.Data? ==> |r.bytes| <= INPUT_CAPACITY
      modifies this, parser, parser.body, parser.body.mem, input, input.mem
      ensures Valid()
      ensures parser.body == old(parser.body) || fresh(parser.body)
      ensures parser.body.mem == old(parser.body.mem) || fresh(parser.body.mem)
      ensures Step(old(Value()), Request(r)) == Ok(Value()) && Inv(Value())
    {
      hide Chunk, Inv, Step, TcpRead, HandOver, Allowed, GoodResult, CanStart, Requested;
      RequestStep(Value(), r);
      BeginRequest();
      if queue != [] {
        HandOverFirst();
      } else {
        StartRead(r);
      }
    }

    /** read_ready_callback. */
    method OnReady(r: ReadResult)
      requires Valid() && Inv(Value()) && Allowed(Value(), Ready(r))
      requires r.Data? ==> |r.bytes| <= INPUT_CAPACITY
      modifies this, parser, parser.body, parser.body.mem, input, input.mem
      ensures Valid()
      ensures parser.body == old(parser.body) || fresh(parser.body)
      ensures parser.body.mem == old(parser.body.mem) || fresh(parser.body.mem)
      ensures Step(old(Value()), Ready(r)) == Ok(Value()) && Inv(Value())
    {
      ghost var s := Value();
      hide Chunk, Inv, Step, TryRead, Allowed, GoodResult;
      ReadyStep(s, r);
      readState := ReadReady;
      assert Value() == s.(readState := ReadReady);
      TryReading(r);
    }

    /** postable_read. */
    method RunPosted(r: ReadResult)
      requires Valid() && Inv(Value()) && Allowed(Value(), Posted(r))
      requires r.Data? ==> |r.bytes| <= INPUT_CAPACITY
      modifies this, parser, parser.body, parser.body.mem, input, input.mem
      ensures Valid()
      ensures parser.body == old(parser.body) || fresh(parser.body)
      ensures parser.body.mem == old(parser.body.mem) || fresh(parser.body.mem)
      ensures Step(old(Value()), Posted(r)) == Ok(Value()) && Inv(Value())
    {
      hide *;
      PostedStep(Value(), r);
      TakePosted();
      StartRead(r);
    }
  }

  // ----- the protocol's steps, spelled out for reachable states

  /** What tcp_read asserts and its caller has set up. */
  predicate CanStart(s: Stream) {
    !s.pending && s.readCb.Some? && !s.readState.Error? && !s.readState.Stopped?
  }

  function Requested(s: Stream): Stream { s.(readCb := Some(s.requests), requests := s.requests + 1) }

  /** What a read may return depends on the parser alone. */
  lemma SameParser(s: Stream, s1: Stream, r: ReadResult)
    requires GoodResult(s, r) && s1.kind == s.kind && s1.mode == s.mode && s1.body == s.body
    ensures GoodResult(s1, r)
  {
    hide TooLong;
  }

  lemma RequestStep(s: Stream, r: ReadResult)
    requires Inv(s) && Allowed(s, Request(r))
    ensures var s1 := Requested(s);
            && s1.readCb.Some? && s1.queue == s.queue && CanStart(s1) && (s.queue == [] ==> GoodResult(s1, r))
            && Step(s, Request(r)) == (if s.queue != [] then Ok(HandOver(s1)) else TcpRead(s1, r))
    ensures Step(s, Request(r)).Ok? && Inv(Step(s, Request(r)).s)
  {
    hide TcpRead, HandOver, GoodResult, Answered, Parsed;
    StepKeeps(s, Request(r));
    if s.queue == [] {
      SameParser(s, Requested(s), r);
    }
  }

  lemma ReadyStep(s: Stream, r: ReadResult)
    requires Inv(s) && Allowed(s, Ready(r))
    ensures s.pending && s.readCb.Some? && GoodResult(s.(readState := ReadReady), r)
    ensures Step(s, Ready(r)) == TryRead(s.(readState := ReadReady), r)
    ensures Step(s, Ready(r)).Ok? && Inv(Step(s, Ready(r)).s)
  {
    hide TryRead, GoodResult, Answered, Parsed;
    StepKeeps(s, Ready(r));
    SameParser(s, s.(readState := ReadReady), r);
  }

  lemma PostedStep(s: Stream, r: ReadResult)
    requires Inv(s) && Allowed(s, Posted(r))
    ensures s.posted > 0
    ensures var s1 := s.(posted := s.posted - 1);
            CanStart(s1) && GoodResult(s1, r) && Step(s, Posted(r)) == TcpRead(s1, r)
    ensures Step(s, Posted(r)).Ok? && Inv(Step(s, Posted(r)).s)
  {
    hide TcpRead, GoodResult, Answered, Parsed;
    StepKeeps(s, Posted(r));
    SameParser(s, s.(posted := s.posted - 1), r);
  }
}
