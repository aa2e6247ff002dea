/** The runloop: functors are posted to the ready ring and run in turn; epoll_wait only happens
    when there is nothing to run. */
module Runloops {
  import opened Wrappers
  import opened FunctorLists

  /** What running a functor or a descriptor handler does to the loop: it posts functors, and it
      leaves some number of descriptors registered. */
  datatype Effect = Effect(posts: seq<Functor>, fds: nat)

  /** What happens next: a functor runs, or epoll_wait returns. */
  datatype Input = Ran(effect: Effect) | Polled(handlers: seq<Effect>) | PollFailed | PollTimedOut

  /** How runloop_run ends; `Ongoing` is a run that has not ended, `PostFailed` a failed
      assertion of runloop_post. */
  datatype Exit = NoMoreWork | Interrupted | TimedOut | Ongoing | PostFailed

  datatype Loop = Loop(
    capacity: nat,
    ready: seq<Functor>,
    fds: nat,
    posted: seq<Functor>,     // every functor posted so far
    executed: seq<Functor>)   // every functor run so far

  /** runloop_post, as often as there are functors; None is a NULL or a full ring. */
  function PostAll(l: Loop, funcs: seq<Functor>): Option<Loop>
    decreases |funcs|
  {
    if funcs == [] then Some(l)
    else if !Usable(funcs[0]) || |l.ready| >= l.capacity - 1 then None
    else PostAll(l.(ready := l.ready + [funcs[0]], posted := l.posted + [funcs[0]]), funcs[1..])
  }

  function Apply(l: Loop, effect: Effect): Option<Loop> {
    match PostAll(l, effect.posts)
    case None => None
    case Some(l1) => Some(l1.(fds := effect.fds))
  }

  function Dispatch(l: Loop, handlers: seq<Effect>): Option<Loop>
    decreases |handlers|
  {
    if handlers == [] then Some(l) else
    match Apply(l, handlers[0])
    case None => None
    case Some(l1) => Dispatch(l1, handlers[1..])
  }

  /** The oldest ready functor is taken off the ring before it runs. */
  function Pop(l: Loop): Loop
    requires l.ready != []
  {
    l.(ready := l.ready[1..], executed := l.executed + [l.ready[0]])
  }

  /** runloop_run on a prefix of what happens. */
  function RunFrom(l: Loop, inputs: seq<Input>): (Option<Loop>, Exit)
    decreases |inputs|
  {
    if l.fds == 0 && l.ready == [] then (Some(l), NoMoreWork)
    else if inputs == [] then (Some(l), Ongoing)
    else if l.ready == [] then
      match inputs[0]
      case Polled(handlers) =>
        (match Dispatch(l, handlers)
         case None => (None, PostFailed)
         case Some(l1) => RunFrom(l1, inputs[1..]))
      case PollFailed => (Some(l), Interrupted)
      case PollTimedOut => (Some(l), TimedOut)
      case Ran(_) => (Some(l), Ongoing)
    else
      match inputs[0]
      case Ran(effect) =>
        (match Apply(Pop(l), effect)
         case None => (None, PostFailed)
         case Some(l1) => RunFrom(l1, inputs[1..]))
      case _ => (Some(l), Ongoing)
  }

  // ----- first posted, first run

  /** Functors run in the order they were posted, and the ring never overflows. */
  predicate Fifo(l: Loop) {
    l.executed + l.ready == l.posted && |l.ready| < l.capacity
  }

  lemma {:induction false} PostAllKeeps(l: Loop, funcs: seq<Functor>)
    requires Fifo(l) && PostAll(l, funcs).Some?
    ensures var l' := PostAll(l, funcs).value;
            && Fifo(l') && l'.executed == l.executed && l'.posted == l.posted + funcs
            && l'.ready == l.ready + funcs && l'.capacity == l.capacity
    decreases |funcs|
  {
    if funcs != [] {
      var l1 := l.(ready := l.ready + [funcs[0]], posted := l.posted + [funcs[0]]);
      assert l.executed + (l.ready + [funcs[0]]) == l.posted + [funcs[0]];
      PostAllKeeps(l1, funcs[1..]);
      assert l1.posted + funcs[1..] == l.posted + funcs && l1.ready + funcs[1..] == l.ready + funcs;
    }
  }

  /** Posting a list of functors succeeds if and only if none of them has a NULL and all of them fit
      the ring, one slot of which stays free. */
  lemma {:induction false} PostsExactlyWhen(l: Loop, funcs: seq<Functor>)
    requires Fifo(l)
    ensures PostAll(l, funcs).Some? <==> (forall f <- funcs :: Usable(f)) && |l.ready| + |funcs| < l.capacity
    decreases |funcs|
  {
    if funcs != [] {
      assert funcs == [funcs[0]] + funcs[1..];
      if Usable(funcs[0]) && |l.ready| < l.capacity - 1 {
        assert l.executed + (l.ready + [funcs[0]]) == l.posted + [funcs[0]];
        PostsExactlyWhen(l.(ready := l.ready + [funcs[0]], posted := l.posted + [funcs[0]]), funcs[1..]);
      }
    }
  }

  lemma {:induction false} DispatchKeeps(l: Loop, handlers: seq<Effect>)
    requires Fifo(l) && Dispatch(l, handlers).Some?
    ensures var l' := Dispatch(l, handlers).value; Fifo(l') && l'.executed == l.executed && l.posted <= l'.posted
    decreases |handlers|
  {
    if handlers != [] {
      PostAllKeeps(l, handlers[0].posts);
      DispatchKeeps(Apply(l, handlers[0]).value, handlers[1..]);
    }
  }

  lemma PopKeeps(l: Loop)
    requires Fifo(l) && l.ready != []
    ensures Fifo(Pop(l))
  {
    assert l.executed + ([l.ready[0]] + l.ready[1..]) == l.executed + [l.ready[0]] + l.ready[1..];
  }

  /** Over any run in which running functors may post more: executed functors followed by the ready
      ring are the posted ones, and the clean exit means that nothing is left of either kind. */
  lemma {:induction false} FifoScheduling(l: Loop, inputs: seq<Input>)
    requires Fifo(l)
    ensures var (end, exit) := RunFrom(l, inputs);
            && (end.Some? ==> Fifo(end.value) && l.executed <= end.value.executed && l.posted <= end.value.posted)
            && (end.None? <==> exit.PostFailed?)
            && (exit.NoMoreWork? ==> end.Some? && end.value.fds == 0 && end.value.executed == end.value.posted)
    decreases |inputs|
  {
    if (l.fds == 0 && l.ready == []) || inputs == [] {
    } else if l.ready == [] {
      if inputs[0].Polled? && Dispatch(l, inputs[0].handlers).Some? {
        DispatchKeeps(l, inputs[0].handlers);
        FifoScheduling(Dispatch(l, inputs[0].handlers).value, inputs[1..]);
      }
    } else if inputs[0].Ran? && Apply(Pop(l), inputs[0].effect).Some? {
      PopKeeps(l);
      PostAllKeeps(Pop(l), inputs[0].effect.posts);
      FifoScheduling(Apply(Pop(l), inputs[0].effect).value, inputs[1..]);
    }
  }

  /** A functor that is ready runs as soon as those posted before it have run, whatever they post. */
  lemma {:induction false} RunsInTurn(l: Loop, inputs: seq<Input>, k: nat)
    requires Fifo(l) && k < |l.ready| && k < |inputs|
    requires forall i :: 0 <= i <= k ==> inputs[i].Ran?
    requires RunFrom(l, inputs[..k + 1]).0.Some?
    ensures l.executed + l.ready[..k + 1] <= RunFrom(l, inputs[..k + 1]).0.value.executed
  {
    FifoScheduling(l, inputs[..k + 1]);
    var end := RunFrom(l, inputs[..k + 1]).0.value;
    ExecutedCount(l, inputs[..k + 1]);
    assert end.executed + end.ready == end.posted;
    assert l.posted <= end.posted;
    assert l.posted[..|l.executed| + k + 1] == l.executed + l.ready[..k + 1];
    assert end.executed == end.posted[..|end.executed|];
  }

  lemma {:induction false} ExecutedCount(l: Loop, inputs: seq<Input>)
    requires Fifo(l) && |inputs| <= |l.ready| && (forall i :: 0 <= i < |inputs| ==> inputs[i].Ran?)
    requires RunFrom(l, inputs).0.Some?
    ensures |RunFrom(l, inputs).0.value.executed| >= |l.executed| + |inputs|
    decreases |inputs|
  {
    if inputs != [] {
      PopKeeps(l);
      PostAllKeeps(Pop(l), inputs[0].effect.posts);
      ExecutedCount(Apply(Pop(l), inputs[0].effect).value, inputs[1..]);
    }
  }

  // ----- the runloop as an object

  class Runloop {
    const ready: FunctorList
    var fds: nat
    var executing: bool
    ghost var posted: seq<Functor>
    ghost var executed: seq<Functor>

    ghost predicate Valid()
      reads this, ready
    {
      ready.Valid()
    }

    ghost function Value(): Loop
      requires Valid()
      reads this, ready, ready.list
    {
      Loop(ready.capacity, ready.Contents(), fds, posted, executed)
    }

    constructor (capacity: nat)
      requires capacity > 0
      ensures Valid() && Value() == Loop(capacity, [], 0, [], []) && !executing && fresh(ready) && fresh(ready.list)
    {
      ready := new FunctorList(capacity);
      fds, executing, posted, executed := 0, false, [], [];
    }

    /** runloop_post. */
    method Post(func: Functor) returns (ok: bool)
      requires Valid()
      modifies this`posted, ready`head, ready.list
      ensures Valid() && PostAll(old(Value()), [func]) == (if ok then Some(Value()) else None)
    {
      assert |[func][1..]| == 0;
      ok := Usable(func);
      if ok {
        ok := ready.Add(func);
      }
      if ok {
        posted := posted + [func];
      }
    }

    /** User code that posts in turn and leaves `effect.fds` descriptors registered. */
    method RunUserCode(effect: Effect) returns (ok: bool)
      requires Valid()
      modifies this`posted, this`fds, ready`head, ready.list
      ensures Valid() && Apply(old(Value()), effect) == (if ok then Some(Value()) else None)
    {
      var i := 0;
      ghost var before := Value();
      assert effect.posts[0..] == effect.posts;
      while i < |effect.posts|
        invariant 0 <= i <= |effect.posts| && Valid()
        invariant PostAll(Value(), effect.posts[i..]) == PostAll(before, effect.posts)
      {
        assert effect.posts[i..][1..] == effect.posts[i + 1..];
        ghost var here := Value();
        PostOne(here, effect.posts[i]);
        ok := Post(effect.posts[i]);
        if !ok {
          return;
        }
        i := i + 1;
      }
      fds := effect.fds;
      ok := true;
    }

    /** The handlers of the descriptors epoll_wait reported. */
    method DispatchAll(handlers: seq<Effect>) returns (ok: bool)
      requires Valid()
      modifies this`posted, this`fds, ready`head, ready.list
      ensures Valid() && Dispatch(old(Value()), handlers) == (if ok then Some(Value()) else None)
    {
      var i := 0;
      ghost var before := Value();
      assert handlers[0..] == handlers;
      while i < |handlers|
        invariant 0 <= i <= |handlers| && Valid()
        invariant Dispatch(Value(), handlers[i..]) == Dispatch(before, handlers)
      {
        assert handlers[i..][1..] == handlers[i + 1..];
        ok := RunUserCode(handlers[i]);
        if !ok {
          return;
        }
        i := i + 1;
      }
      ok := true;
    }

    /** The body of the drain loop. */
    method RunOldest(effect: Effect) returns (ok: bool)
      requires Valid() && ready.Contents() != []
      modifies this, ready, ready.list
      ensures Valid() && Apply(Pop(old(Value())), effect) == (if ok then Some(Value()) else None) && !executing
    {
      ghost var before := Value();
      var removed, func := ready.Remove();
      executed := executed + [func];
      assert Value() == Pop(before);
      executing := true;
      ok := RunUserCode(effect);
      executing := false;
    }

    /** The drain loop, which ends when the ring is empty. */
    method Drain(inputs: seq<Input>, from: nat) returns (k: nat, exit: Option<Exit>)
      requires Valid() && ready.Contents() != [] && from < |inputs|
      modifies this, ready, ready.list
      ensures Valid() && from <= k <= |inputs|
      ensures exit.None? ==> from < k && RunFrom(Value(), inputs[k..]) == RunFrom(old(Value()), inputs[from..])
      ensures exit.Some? ==>
                RunFrom(old(Value()), inputs[from..])
                == (if exit.value.PostFailed? then None else Some(Value()), exit.value)
    {
      k := from;
      ghost var before := Value();
      while k < |inputs|
        invariant Valid() && from <= k <= |inputs| && (k == from ==> ready.Contents() != [])
        invariant RunFrom(Value(), inputs[k..]) == RunFrom(before, inputs[from..])
      {
        if ready.Size() == 0 {
          break;
        }
        if !inputs[k].Ran? {
          return k, Some(Ongoing);
        }
        assert inputs[k..][1..] == inputs[k + 1..];
        var ok := RunOldest(inputs[k].effect);
        k := k + 1;
        if !ok {
          return k, Some(PostFailed);
        }
        if ready.Size() == 0 {
          break;
        }
      }
      exit := None;
    }

    /** runloop_run, driven by a finite prefix of what happens. */
    method Run(inputs: seq<Input>) returns (exit: Exit)
      requires Valid()
      modifies this, ready, ready.list
      ensures Valid()
      ensures RunFrom(old(Value()), inputs) == (if exit.PostFailed? then None else Some(Value()), exit)
    {
      var k := 0;
      ghost var before := Value();
      assert inputs[0..] == inputs;
      while true
        invariant 0 <= k <= |inputs| && Valid()
        invariant RunFrom(Value(), inputs[k..]) == RunFrom(before, inputs)
        decreases |inputs| - k
      {
        if fds == 0 && ready.Size() == 0 {
          return NoMoreWork;
        }
        if k == |inputs| {
          return Ongoing;
        }
        if ready.Size() == 0 {
          assert ready.Contents() == [];  // epoll_wait
          assert inputs[k..][1..] == inputs[k + 1..];
          match inputs[k] {
            case Polled(handlers) =>
              var ok := DispatchAll(handlers);
              if !ok {
                return PostFailed;
              }
            case PollFailed => return Interrupted;
            case PollTimedOut => return TimedOut;
            case Ran(_) => return Ongoing;
          }
          k := k + 1;
        } else {
          var stop;
          k, stop := Drain(inputs, k);
          if stop.Some? {
            return stop.value;
          }
        }
      }
    }
  }

  lemma PostOne(l: Loop, func: Functor)
    ensures PostAll(l, [func])
         == if !Usable(func) || |l.ready| >= l.capacity - 1 then None
            else Some(l.(ready := l.ready + [func], posted := l.posted + [func]))
  {
    assert |[func][1..]| == 0;
  }
}
