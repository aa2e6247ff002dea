/** The message reader seen from outside: what its reads returned, read off the events of a run,
    against what the callbacks were told and what went into the parser. */
module ReadHistories {
  import opened Wrappers
  import opened Framing
  import opened DemoFrames
  import opened StreamProtocol

  /** The result an event hands to read(): a request that finds a queued message does not get that far. */
  function Used(s: Stream, ev: Event): seq<ReadResult> {
    if ev.Request? && s.queue != [] then [] else [ev.r]
  }

  function Results(s: Stream, events: seq<Event>): seq<ReadResult>
    decreases |events|
  {
    if events == [] || !Step(s, events[0]).Ok? then [] else
    Used(s, events[0]) + Results(Step(s, events[0]).s, events[1..])
  }

  /** The errnos of the reads that met an end of file or an error. */
  function Errors(results: seq<ReadResult>): seq<int> {
    if results == [] then [] else
    (match results[0] case Eof(errno) => [errno] case Failed(errno) => [errno] case _ => []) + Errors(results[1..])
  }

  /** The bytes of the reads that got some. */
  function Reads(results: seq<ReadResult>): seq<string> {
    if results == [] then [] else
    (match results[0] case Data(bytes) => [bytes] case _ => []) + Reads(results[1..])
  }

  /** The state one event leaves the tcp reader in. */
  function StateOf(s: Stream, ev: Event): ReadState {
    if Used(s, ev) == [] then s.readState else
    match ev.r
    case Data(_) => ReadReady
    case Again => Eagain
    case _ => if ev.Ready? then ReadReady else s.readState
  }

  function RequestsMade(events: seq<Event>): nat {
    if events == [] then 0 else (if events[0].Request? then 1 else 0) + RequestsMade(events[1..])
  }

  /** The errors callbacks were told, in order. */
  function Told(calls: seq<Call>): seq<int> {
    if calls == [] then []
    else Told(calls[..|calls| - 1]) + (if calls[|calls| - 1].error != 0 then [calls[|calls| - 1].error] else [])
  }

  lemma ToldMore(calls: seq<Call>, call: Call)
    ensures Told(calls + [call]) == Told(calls) + (if call.error != 0 then [call.error] else [])
  {
    assert (calls + [call])[..|calls|] == calls;
  }

  lemma OneResult(r: ReadResult)
    ensures Errors([r]) == match r case Eof(errno) => [errno] case Failed(errno) => [errno] case _ => []
    ensures Reads([r]) == match r case Data(bytes) => [bytes] case _ => []
    ensures Errors([]) == [] && Reads([]) == []
  {
    var one := [r];
    assert one[1..] == [];
  }

  lemma FirstResult(rs: seq<ReadResult>)
    requires rs != []
    ensures Errors(rs) == Errors([rs[0]]) + Errors(rs[1..]) && Reads(rs) == Reads([rs[0]]) + Reads(rs[1..])
  {
    OneResult(rs[0]);
  }

  lemma {:induction false} ResultsConcat(a: seq<ReadResult>, b: seq<ReadResult>)
    ensures Errors(a + b) == Errors(a) + Errors(b) && Reads(a + b) == Reads(a) + Reads(b)
  {
    hide Errors, Reads;
    if a == [] {
      OneResult(Again);
      assert a + b == b;
    } else {
      var one, rest := [a[0]], a[1..];
      assert (a + b)[0] == a[0] && (a + b)[1..] == rest + b;
      ResultsConcat(rest, b);
      FirstResult(a);
      FirstResult(a + b);
      assert Errors(one) + (Errors(rest) + Errors(b)) == Errors(one) + Errors(rest) + Errors(b);
      assert Reads(one) + (Reads(rest) + Reads(b)) == Reads(one) + Reads(rest) + Reads(b);
    }
  }

  /** What one event tells and reads, and whether it is a request. */
  ghost predicate Accounts(s: Stream, ev: Event, s': Stream) {
    && Told(s'.calls) == Told(s.calls) + Errors(Used(s, ev))
    && s'.chunks == s.chunks + Reads(Used(s, ev))
    && s'.requests == s.requests + (if ev.Request? then 1 else 0)
    && s'.readState == StateOf(s, ev)
  }

  /** A read with a buffer in place. */
  lemma TryReadAccounts(s: Stream, r: ReadResult)
    requires s.pending && s.readCb.Some? && s.queue == [] && !s.readState.Error? && !s.readState.Stopped?
    requires TryRead(s, r).Ok? && (r.Eof? || r.Failed? ==> r.errno != 0)
    ensures var s' := TryRead(s, r).s;
            && Told(s'.calls) == Told(s.calls) + Errors([r]) && s'.chunks == s.chunks + Reads([r])
            && s'.requests == s.requests
            && s'.readState == match r case Data(_) => ReadReady case Again => Eagain case _ => s.readState
  {
    hide Chunk, Told, Errors, Reads;
    OneResult(r);
    var id := s.readCb.value;
    match r {
      case Data(bytes) =>
        var s' := TryRead(s, r).s;
        if |s'.calls| > |s.calls| {
          ToldMore(s.calls, s'.calls[|s.calls|]);
          assert s'.calls == s.calls + [s'.calls[|s.calls|]];
        }
      case Eof(errno) => ToldMore(s.calls, Call(id, None, errno));
      case Again =>
      case Failed(errno) => ToldMore(s.calls, Call(id, None, errno));
    }
  }

  lemma RequestAccounts(s: Stream, r: ReadResult)
    requires Step(s, Request(r)).Ok? && s.readCb.None? && !s.pending
    requires !s.readState.Error? && !s.readState.Stopped?
    requires s.queue == [] && (r.Eof? || r.Failed?) ==> r.errno != 0
    ensures Accounts(s, Request(r), Step(s, Request(r)).s)
  {
    hide Told, Errors, Reads, TryRead;
    OneResult(r);
    if s.queue != [] {
      ToldMore(s.calls, Call(s.requests, Some(s.queue[0]), 0));
    } else {
      TryReadAccounts(s.(readCb := Some(s.requests), requests := s.requests + 1, pending := true), r);
    }
  }

  lemma RetryAccounts(s: Stream, ev: Event)
    requires !ev.Request? && Step(s, ev).Ok? && s.readCb.Some? && s.queue == []
    requires !s.readState.Error? && !s.readState.Stopped? && (ev.Ready? ==> s.pending)
    requires ev.r.Eof? || ev.r.Failed? ==> ev.r.errno != 0
    ensures Accounts(s, ev, Step(s, ev).s)
  {
    hide Told, Errors, Reads, TryRead;
    OneResult(ev.r);
    match ev {
      case Ready(r) => TryReadAccounts(s.(readState := ReadReady), r);
      case Posted(r) => TryReadAccounts(s.(posted := s.posted - 1, pending := true), r);
    }
  }

  lemma StepAccounts(s: Stream, ev: Event)
    requires Inv(s) && Allowed(s, ev)
    ensures Step(s, ev).Ok? && Accounts(s, ev, Step(s, ev).s)
  {
    hide Step, Accounts, GoodResult, Parsed, Answered, TooLong;
    StepKeeps(s, ev);
    GoodErrno(s, ev);
    if ev.Request? {
      RequestAccounts(s, ev.r);
    } else {
      RetryAccounts(s, ev);
    }
  }

  lemma GoodErrno(s: Stream, ev: Event)
    requires Allowed(s, ev)
    ensures Used(s, ev) != [] && (ev.r.Eof? || ev.r.Failed?) ==> ev.r.errno != 0
  {
  }

  lemma {:induction false} RunAccounts(s: Stream, events: seq<Event>)
    requires Inv(s) && AllowedRun(s, events)
    ensures Run(s, events).Ok?
    ensures var s', rs := Run(s, events).s, Results(s, events);
            && Told(s'.calls) == Told(s.calls) + Errors(rs) && s'.chunks == s.chunks + Reads(rs)
            && s'.requests == s.requests + RequestsMade(events)
    decreases |events|
  {
    hide Step, Inv, Allowed, Told, Errors, Reads, Used;
    if events == [] {
      OneResult(Again);
      assert Told(s.calls) + [] == Told(s.calls) && s.chunks + [] == s.chunks;
    } else {
      var s1, rest := Step(s, events[0]).s, events[1..];
      StepKeeps(s, events[0]);
      StepAccounts(s, events[0]);
      RunAccounts(s1, rest);
      var a, b := Used(s, events[0]), Results(s1, rest);
      ResultsConcat(a, b);
      assert Told(s.calls) + Errors(a) + Errors(b) == Told(s.calls) + (Errors(a) + Errors(b));
      assert s.chunks + Reads(a) + Reads(b) == s.chunks + (Reads(a) + Reads(b));
    }
  }

  /** Over every allowed run: the errors told are, in order, exactly the errnos of the reads that met an
      end of file or an error, each with no message; the bytes parsed are those of the other reads;
      and all requests made but an outstanding one are answered. */
  lemma ErrorsAreTold(kind: Kind, events: seq<Event>)
    requires AllowedRun(Start(kind), events)
    ensures Run(Start(kind), events).Ok?
    ensures var s, rs := Run(Start(kind), events).s, Results(Start(kind), events);
            && Told(s.calls) == Errors(rs) && s.chunks == Reads(rs)
            && (forall i :: 0 <= i < |s.calls| ==> (s.calls[i].error != 0 <==> s.calls[i].message.None?))
            && |s.calls| + (if s.readCb.Some? then 1 else 0) == RequestsMade(events)
  {
    EveryRun(kind, events);
    RunAccounts(Start(kind), events);
    hide Chunks, Chunk;
    assert [] + Errors(Results(Start(kind), events)) == Errors(Results(Start(kind), events));
  }
}
