/** The tcp writer seen from its callers: the requests of a run with the results of their writes, read
    off the events, against what each request was told and what the descriptor took. */
module WriteHistories {
  import opened Wrappers
  import opened TcpWriters

  /** One request: its data, and what write() returned for it so far. */
  datatype Job = Job(data: string, results: seq<WriteResult>)

  /** The requests of a run: each tcp_write opens one, every later write belongs to the last. */
  function Jobs(before: seq<Job>, events: seq<Event>): seq<Job>
    decreases |events|
  {
    if events == [] then before else Jobs(WithEvent(before, events[0]), events[1..])
  }

  function WithEvent(jobs: seq<Job>, ev: Event): seq<Job> {
    if ev.Write? then jobs + [Job(ev.data, [ev.r])]
    else if jobs == [] then []
    else var last := jobs[|jobs| - 1]; jobs[..|jobs| - 1] + [Job(last.data, last.results + [ev.r])]
  }

  /** How many bytes the writes of a request took. */
  function Taken(results: seq<WriteResult>): nat {
    if results == [] then 0
    else Taken(results[..|results| - 1]) + match results[|results| - 1] case Wrote(n) => n case _ => 0
  }

  /** The errno a write ends its request with. */
  function Told(r: WriteResult): int {
    match r
    case Wrote(_) => 0
    case Zero(errno) => errno
    case Again => 0
    case Failed(errno) => errno
  }

  /** The last write ends the request: it failed, took nothing, or took the last byte. */
  predicate Ends(job: Job)
    requires job.results != []
  {
    match job.results[|job.results| - 1]
    case Wrote(_) => Taken(job.results) == |job.data|
    case Zero(_) => true
    case Again => false
    case Failed(_) => true
  }

  /** A request was answered by its own writes: what was taken is the beginning of its data, and it was
      told what the last of them returned. */
  predicate Answers(d: Done, job: Job) {
    && job.results != [] && Ends(job) && Taken(job.results) <= |job.data|
    && d == Done(job.data, job.data[..Taken(job.results)], Told(job.results[|job.results| - 1]))
  }

  /** A request is under way: what is left of it is what its writes have not taken. */
  predicate UnderWay(w: Writer, job: Job) {
    && job.results != [] && !Ends(job) && Taken(job.results) <= |job.data|
    && w.data == job.data && w.accepted == job.data[..Taken(job.results)]
    && w.output == Some(job.data[Taken(job.results)..])
  }

  predicate Matches(w: Writer, jobs: seq<Job>) {
    && |jobs| == |w.done| + (if w.output.Some? then 1 else 0)
    && (forall i :: 0 <= i < |w.done| ==> Answers(w.done[i], jobs[i]))
    && (w.output.Some? ==> UnderWay(w, jobs[|w.done|]))
  }

  lemma TakenMore(results: seq<WriteResult>, r: WriteResult)
    ensures Taken(results + [r]) == Taken(results) + (if r.Wrote? then r.n else 0)
    ensures (results + [r])[|results|] == r && results + [r] != []
  {
    assert (results + [r])[..|results|] == results;
  }

  /** One write for a request whose data left is `data[Taken(results)..]`. */
  lemma OneWrite(w: Writer, data: string, results: seq<WriteResult>, r: WriteResult)
    requires Taken(results) <= |data| && w.data == data && w.accepted == data[..Taken(results)]
    requires w.output == Some(data[Taken(results)..]) && GoodResult(w.output.value, r)
    ensures TryWrite(w, r).Ok?
    ensures var w', job := TryWrite(w, r).w, Job(data, results + [r]);
            if w'.output.Some? then w'.done == w.done && UnderWay(w', job)
            else |w'.done| == |w.done| + 1 && w'.done[..|w.done|] == w.done && Answers(w'.done[|w.done|], job)
  {
    TakenMore(results, r);
    var k, left := Taken(results), data[Taken(results)..];
    if r.Wrote? {
      assert data[..k] + left[..r.n] == data[..k + r.n] && left[r.n..] == data[k + r.n..];
    }
  }

  lemma StepMatches(w: Writer, ev: Event, jobs: seq<Job>)
    requires Inv(w) && Allowed(w, ev) && Matches(w, jobs)
    ensures Step(w, ev).Ok? && Matches(Step(w, ev).w, WithEvent(jobs, ev))
  {
    hide TryWrite, UnderWay, Answers, Taken;
    if ev.Write? {
      assert ev.data[..0] == "" && ev.data[0..] == ev.data && [] + [ev.r] == [ev.r];
      NothingTaken();
      OneWrite(w.(output := Some(ev.data), data := ev.data, accepted := ""), ev.data, [], ev.r);
    } else {
      var last := jobs[|w.done|];
      IsUnderWay(w, last);
      OneWrite(w.(posted := w.posted - 1), last.data, last.results, ev.r);
      StillUnderWay(w, w.(posted := w.posted - 1), last);
    }
  }

  lemma NothingTaken()
    ensures Taken([]) == 0
  {
  }

  lemma IsUnderWay(w: Writer, job: Job)
    requires UnderWay(w, job)
    ensures Taken(job.results) <= |job.data| && w.data == job.data && w.accepted == job.data[..Taken(job.results)]
    ensures w.output == Some(job.data[Taken(job.results)..])
  {
  }

  lemma StillUnderWay(w: Writer, w': Writer, job: Job)
    requires UnderWay(w, job) && w'.data == w.data && w'.accepted == w.accepted && w'.output == w.output
    ensures UnderWay(w', job)
  {
  }

  lemma {:induction false} RunMatches(w: Writer, events: seq<Event>, jobs: seq<Job>)
    requires Inv(w) && AllowedRun(w, events) && Matches(w, jobs)
    ensures Run(w, events).Ok? && Matches(Run(w, events).w, Jobs(jobs, events))
    decreases |events|
  {
    hide Step, Inv, Allowed, Matches, WithEvent;
    if events != [] {
      StepKeeps(w, events[0]);
      StepMatches(w, events[0], jobs);
      RunMatches(Step(w, events[0]).w, events[1..], WithEvent(jobs, events[0]));
    }
  }

  /** The state the results of a run leave the writer in. */
  function StateAfter(state: WriteState, events: seq<Event>): WriteState
    decreases |events|
  {
    if events == [] then state else
    StateAfter(match events[0].r
               case Wrote(_) => WriteReady
               case Zero(_) => state
               case Again => Eagain
               case Failed(_) => Error, events[1..])
  }

  lemma {:induction false} RunState(w: Writer, events: seq<Event>)
    requires Inv(w) && AllowedRun(w, events)
    ensures Run(w, events).Ok? && Run(w, events).w.writeState == StateAfter(w.writeState, events)
    decreases |events|
  {
    if events != [] {
      StepKeeps(w, events[0]);
      hide Inv;
      RunState(Step(w, events[0]).w, events[1..]);
    }
  }

  /** Over every run: the i-th tcp_write is answered by its own writes, with the bytes they took and the
      errno of the last of them; the one under way, if any, has left exactly what they did not take;
      and the writer's state is that of its last results. */
  lemma RequestsAreServed(events: seq<Event>)
    requires AllowedRun(Start, events)
    ensures Run(Start, events).Ok? && Matches(Run(Start, events).w, Jobs([], events))
    ensures Run(Start, events).w.writeState == StateAfter(Initial, events)
  {
    RunState(Start, events);
    RunMatches(Start, events, []);
  }
}
