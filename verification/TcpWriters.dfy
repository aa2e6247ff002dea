/** The tcp writer: partial writes, retries posted to the runloop, and one callback per request. */
module TcpWriters {
  import opened Wrappers
  import opened IOBuffers

  /** What write() returned. */
  datatype WriteResult = Wrote(n: nat) | Zero(errno: int) | Again | Failed(errno: int)

  datatype Event =
    | Write(data: string, r: WriteResult)  // tcp_write
    | Retry(r: WriteResult)                // postable_try_write, run by the runloop
    | Writable(r: WriteResult)             // wrtr_cb

  datatype WriteState = Eagain | WriteReady | Error | Stopped | Initial

  /** A request that got its callback: what was to be written, what was accepted, what it was told. */
  datatype Done = Done(data: string, accepted: string, error: int)

  datatype Writer = Writer(
    output: Option<string>,   // the data left in output_buffer; output_buffer and write_cb are set together
    data: string,             // what the current request was to write
    accepted: string,         // what the descriptor has taken of it
    writeState: WriteState,
    posted: nat,              // postable_try_write functors on the runloop
    armed: bool,              // wrtr_cb registered for writability
    done: seq<Done>)

  datatype Outcome = Ok(w: Writer) | Aborted

  const Start := Writer(None, "", "", Initial, 0, false, [])

  /** invoke_write_callback. */
  function Invoke(w: Writer, error: int): Writer {
    w.(output := None, done := w.done + [Done(w.data, w.accepted, error)])
  }

  /** try_write. */
  function TryWrite(w: Writer, r: WriteResult): Outcome {
    match w.output
    case None => Aborted
    case Some(left) =>
      match r
      case Wrote(n) =>
        if n == 0 || n > |left| then Aborted else
        var w1 := w.(output := Some(left[n..]), accepted := w.accepted + left[..n], writeState := WriteReady);
        Ok(if left[n..] == "" then Invoke(w1, 0) else w1.(posted := w1.posted + 1))
      case Zero(errno) => Ok(Invoke(w, errno))
      case Again => Ok(w.(writeState := Eagain))
      case Failed(errno) => Ok(Invoke(w.(writeState := Error), errno))
  }

  function Step(w: Writer, ev: Event): Outcome {
    match ev
    case Write(data, r) =>
      if w.output.Some? then Aborted
      else TryWrite(w.(output := Some(data), data := data, accepted := ""), r)
    case Retry(r) => if w.posted == 0 then Aborted else TryWrite(w.(posted := w.posted - 1), r)
    case Writable(r) =>
      if !w.armed then Aborted
      else if w.writeState.Eagain? then TryWrite(w.(writeState := WriteReady), r)
      else Ok(w)
  }

  /** What write() can return for this buffer: it takes no more than it is offered. */
  predicate GoodResult(left: string, r: WriteResult) {
    r.Wrote? ==> 0 < r.n <= |left|
  }

  predicate Allowed(w: Writer, ev: Event) {
    match ev
    case Write(data, r) => w.output.None? && GoodResult(data, r)
    case Retry(r) => w.posted > 0 && w.output.Some? && GoodResult(w.output.value, r)
    case Writable(r) => w.armed && w.output.Some? && GoodResult(w.output.value, r)
  }

  function Run(w: Writer, events: seq<Event>): Outcome
    decreases |events|
  {
    if events == [] then Ok(w) else
    match Step(w, events[0])
    case Aborted => Aborted
    case Ok(next) => Run(next, events[1..])
  }

  ghost predicate AllowedRun(w: Writer, events: seq<Event>)
    decreases |events|
  {
    events == [] || (Allowed(w, events[0]) && Step(w, events[0]).Ok? && AllowedRun(Step(w, events[0]).w, events[1..]))
  }

  // ----- conservation

  /** A finished request: the descriptor took a prefix, and if that was all of some data the
      request was told 0. */
  predicate Conserved(d: Done) {
    d.accepted <= d.data && (d.data != "" && d.accepted == d.data ==> d.error == 0)
  }

  /** The request was told 0 although not everything was accepted. */
  predicate Misled(d: Done) { d.error == 0 && d.accepted != d.data }

  predicate Inv(w: Writer) {
    && (w.output.None? ==> w.posted == 0)
    && (w.output.Some? ==>
          && w.data == w.accepted + w.output.value
          && (w.output.value == "" ==> w.data == "")
          && (if w.writeState.Eagain? then w.posted == 0 else w.posted == 1))
    && !w.armed
    && forall i :: 0 <= i < |w.done| ==> Conserved(w.done[i])
  }

  lemma TryWriteKeeps(w: Writer, r: WriteResult)
    requires w.output.Some? && w.data == w.accepted + w.output.value && (w.output.value == "" ==> w.data == "")
    requires w.posted == 0 && !w.armed && (forall i :: 0 <= i < |w.done| ==> Conserved(w.done[i]))
    requires GoodResult(w.output.value, r)
    ensures TryWrite(w, r).Ok? && Inv(TryWrite(w, r).w)
  {
    var left := w.output.value;
    if r.Wrote? {
      assert w.accepted + left[..r.n] + left[r.n..] == w.data;
      if left[r.n..] == "" {
        assert w.accepted + left[..r.n] == w.data;
      }
    }
  }

  lemma StepKeeps(w: Writer, ev: Event)
    requires Inv(w) && Allowed(w, ev)
    ensures Step(w, ev).Ok? && Inv(Step(w, ev).w)
  {
    match ev {
      case Write(data, r) =>
        assert "" + data == data;
        TryWriteKeeps(w.(output := Some(data), data := data, accepted := ""), r);
      case Retry(r) =>
        TryWriteKeeps(w.(posted := w.posted - 1), r);
    }
  }

  lemma {:induction false} RunKeeps(w: Writer, events: seq<Event>)
    requires Inv(w) && AllowedRun(w, events)
    ensures Run(w, events).Ok? && Inv(Run(w, events).w)
    decreases |events|
  {
    if events != [] {
      StepKeeps(w, events[0]);
      RunKeeps(Step(w, events[0]).w, events[1..]);
    }
  }

  /** How many requests a run made. */
  function Requests(events: seq<Event>): nat {
    if events == [] then 0 else (if events[0].Write? then 1 else 0) + Requests(events[1..])
  }

  lemma {:induction false} OneCallEach(w: Writer, events: seq<Event>)
    requires Inv(w) && AllowedRun(w, events)
    ensures Run(w, events).Ok?
    ensures var w' := Run(w, events).w;
            |w'.done| + (if w'.output.Some? then 1 else 0)
            == |w.done| + (if w.output.Some? then 1 else 0) + Requests(events)
    decreases |events|
  {
    if events != [] {
      StepKeeps(w, events[0]);
      OneCallEach(Step(w, events[0]).w, events[1..]);
    }
  }

  /** In every run of partial writes, EAGAINs and errors: accepted bytes followed by those left are
      the data, every request but an outstanding one had exactly one callback, and a request whose
      data was all accepted was told so. */
  lemma WriteConservation(events: seq<Event>)
    requires AllowedRun(Start, events)
    ensures var r := Run(Start, events);
            && r.Ok? && Inv(r.w)
            && |r.w.done| + (if r.w.output.Some? then 1 else 0) == Requests(events)
  {
    RunKeeps(Start, events);
    OneCallEach(Start, events);
  }

  // ----- an errno of 0 on a zero or failed write is reported as success

  /** What is left to write when the event gets to write(). */
  function Left(w: Writer, ev: Event): string {
    if ev.Write? then ev.data else if w.output.Some? then w.output.value else ""
  }

  predicate Misleads(w: Writer, ev: Event) {
    (ev.r == Zero(0) || ev.r == Failed(0)) && Left(w, ev) != ""
  }

  /** Some zero or failed write of the run carried errno 0 while bytes were left. */
  ghost predicate SomeMisleads(w: Writer, events: seq<Event>)
    decreases |events|
  {
    && events != []
    && (Misleads(w, events[0]) || (Step(w, events[0]).Ok? && SomeMisleads(Step(w, events[0]).w, events[1..])))
  }

  ghost predicate SomeMisled(w: Writer) { exists i :: 0 <= i < |w.done| && Misled(w.done[i]) }

  lemma TryWriteMisleads(w: Writer, r: WriteResult)
    requires w.output.Some? && w.data == w.accepted + w.output.value && GoodResult(w.output.value, r)
    ensures TryWrite(w, r).Ok?
    ensures var done := TryWrite(w, r).w.done;
            && (done == w.done || (|done| == |w.done| + 1 && done[..|w.done|] == w.done))
            && (done != w.done ==>
                  (Misled(done[|w.done|]) <==> (r == Zero(0) || r == Failed(0)) && w.output.value != ""))
            && (r == Zero(0) || r == Failed(0) ==> done != w.done)
  {
    var left := w.output.value;
    if r.Wrote? {
      assert left[r.n..] == "" ==> w.accepted + left[..r.n] == w.data;
    } else {
      assert w.accepted == w.data <==> left == "";
    }
  }

  lemma StepMisleads(w: Writer, ev: Event)
    requires Inv(w) && Allowed(w, ev)
    ensures Step(w, ev).Ok?
    ensures SomeMisled(Step(w, ev).w) <==> SomeMisled(w) || Misleads(w, ev)
  {
    hide TryWrite, Misled, SomeMisled;
    var at := if ev.Write? then w.(output := Some(ev.data), data := ev.data, accepted := "")
              else w.(posted := w.posted - 1);
    assert "" + Left(w, ev) == Left(w, ev);
    assert Step(w, ev) == TryWrite(at, ev.r);
    TryWriteMisleads(at, ev.r);
    MisledOneMore(w, TryWrite(at, ev.r).w);
  }

  lemma MisledOneMore(w: Writer, w': Writer)
    requires w'.done == w.done || (|w'.done| == |w.done| + 1 && w'.done[..|w.done|] == w.done)
    ensures SomeMisled(w') <==> SomeMisled(w) || (w'.done != w.done && Misled(w'.done[|w.done|]))
  {
    hide Misled;
    if SomeMisled(w) {
      var i :| 0 <= i < |w.done| && Misled(w.done[i]);
      assert w'.done[i] == w.done[i];
    }
    if SomeMisled(w') {
      var i :| 0 <= i < |w'.done| && Misled(w'.done[i]);
      assert i < |w.done| ==> w.done[i] == w'.done[i];
    }
  }

  lemma {:induction false} RunMisleads(w: Writer, events: seq<Event>)
    requires Inv(w) && AllowedRun(w, events)
    ensures Run(w, events).Ok?
    ensures SomeMisled(Run(w, events).w) <==> SomeMisled(w) || SomeMisleads(w, events)
    decreases |events|
  {
    hide Misleads, SomeMisled, Inv, Step;
    if events != [] {
      StepKeeps(w, events[0]);
      StepMisleads(w, events[0]);
      RunMisleads(Step(w, events[0]).w, events[1..]);
    }
  }

  /** Over every run: some request is told it succeeded although bytes were left if and only if some
      zero or failed write carried errno 0 while bytes were left. */
  lemma FalseSuccessExactlyWhen(events: seq<Event>)
    requires AllowedRun(Start, events)
    ensures Run(Start, events).Ok?
    ensures SomeMisled(Run(Start, events).w) <==> SomeMisleads(Start, events)
  {
    RunMisleads(Start, events);
  }

  /** The shortest such run, and the shortest that stalls. */
  lemma FalseSuccess()
    ensures AllowedRun(Start, [Write("a", Zero(0))])
    ensures var r := Run(Start, [Write("a", Zero(0))]); r.Ok? && r.w.done == [Done("a", "", 0)]
  {
    assert [Write("a", Zero(0))][1..] == [];
  }

  lemma Stall()
    ensures AllowedRun(Start, [Write("a", Again)])
    ensures var r := Run(Start, [Write("a", Again)]);
            r.Ok? && r.w.output == Some("a") && r.w.done == [] && forall ev :: !Allowed(r.w, ev)
  {
    assert [Write("a", Again)][1..] == [];
  }

  /** Nothing re-arms a write that met EAGAIN: a pending request can go on if and only if its last
      write() did not return EAGAIN. */
  lemma GoesOnExactlyWhen(w: Writer)
    requires Inv(w) && w.output.Some?
    ensures (exists ev :: Allowed(w, ev)) <==> !w.writeState.Eagain?
  {
    if !w.writeState.Eagain? {
      assert Allowed(w, Retry(Again));
    }
  }

  /** So a request that met EAGAIN stays unanswered in every continuation of the run. */
  lemma StallsForever(w: Writer, events: seq<Event>)
    requires Inv(w) && w.output.Some? && w.writeState.Eagain? && AllowedRun(w, events)
    ensures events == []
  {
    if events != [] {
      GoesOnExactlyWhen(w);
    }
  }

  // ----- the writer as an object

  class TcpWriter {
    var output: IOBuffer?
    var writeState: WriteState
    var posted: nat
    ghost var data: string
    ghost var accepted: string
    var done: seq<int>  // the errors told to callbacks so far
    ghost var finished: seq<Done>

    ghost predicate Valid()
      reads this, output
    {
      && (output != null ==> output.Valid())
      && |done| == |finished| && forall i :: 0 <= i < |done| ==> done[i] == finished[i].error
    }

    ghost function Value(): Writer
      requires Valid()
      reads this, output, if output == null then {} else {output.mem}
    {
      Writer(if output == null then None else Some(output.Data()), data, accepted, writeState, posted, false, finished)
    }

    constructor ()
      ensures Valid() && Value() == Start
    {
      output, writeState, posted, data, accepted, done, finished := null, Initial, 0, "", "", [], [];
    }

    /** invoke_write_callback. */
    method InvokeCallback(error: int)
      requires Valid() && output != null
      modifies this`output, this`done, this`finished
      ensures Valid() && Value() == Invoke(old(Value()), error)
    {
      output := null;
      done := done + [error];
      finished := finished + [Done(data, accepted, error)];
    }

    /** try_write. */
    method TryWriting(r: WriteResult)
      requires Valid() && output != null && GoodResult(output.Data(), r)
      modifies this, output
      ensures Valid() && TryWrite(old(Value()), r) == Ok(Value())
    {
      match r {
        case Wrote(n) =>
          accepted := accepted + output.Data()[..n];
          output.Consume(n);
          writeState := WriteReady;
          if output.remaining == 0 {
            InvokeCallback(0);
          } else {
            posted := posted + 1;
          }
        case Zero(errno) => InvokeCallback(errno);
        case Again => writeState := Eagain;
        case Failed(errno) =>
          writeState := Error;
          InvokeCallback(errno);
      }
    }

    /** tcp_write. */
    method StartWrite(buffer: IOBuffer, r: WriteResult)
      requires Valid() && Inv(Value()) && buffer.Valid() && Allowed(Value(), Write(buffer.Data(), r))
      modifies this, buffer
      ensures Valid() && Step(old(Value()), Write(old(buffer.Data()), r)) == Ok(Value()) && Inv(Value())
    {
      StepKeeps(Value(), Write(buffer.Data(), r));
      output, data, accepted := buffer, buffer.Data(), "";
      TryWriting(r);
    }

    /** postable_try_write. */
    method RunPosted(r: WriteResult)
      requires Valid() && Inv(Value()) && Allowed(Value(), Retry(r))
      modifies this, output
      ensures Valid() && Step(old(Value()), Retry(r)) == Ok(Value()) && Inv(Value())
    {
      StepKeeps(Value(), Retry(r));
      posted := posted - 1;
      TryWriting(r);
    }
  }
}
