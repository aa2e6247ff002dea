/** The runloop against the inputs of a run: everything the functors and handlers posted, and nothing
    else, reaches the ready ring, and every descriptor count is that of the last of them. */
module RunHistories {
  import opened Wrappers
  import opened FunctorLists
  import opened Runloops

  // ----- read off the inputs

  function HandlerPosts(handlers: seq<Effect>): seq<Functor> {
    if handlers == [] then [] else handlers[0].posts + HandlerPosts(handlers[1..])
  }

  /** What one input posts: the functor that ran, or every handler epoll_wait reported. */
  function PostsOf(input: Input): seq<Functor> {
    match input
    case Ran(effect) => effect.posts
    case Polled(handlers) => HandlerPosts(handlers)
    case _ => []
  }

  function AllPosts(inputs: seq<Input>): seq<Functor> {
    if inputs == [] then [] else PostsOf(inputs[0]) + AllPosts(inputs[1..])
  }

  /** The descriptors left registered by the last code that ran. */
  function FdsOf(fds: nat, input: Input): nat {
    match input
    case Ran(effect) => effect.fds
    case Polled(handlers) => if handlers == [] then fds else handlers[|handlers| - 1].fds
    case _ => fds
  }

  function FdsAfter(fds: nat, inputs: seq<Input>): nat
    decreases |inputs|
  {
    if inputs == [] then fds else FdsAfter(FdsOf(fds, inputs[0]), inputs[1..])
  }

  /** How many functors ran. */
  function Runs(inputs: seq<Input>): nat {
    if inputs == [] then 0 else (if inputs[0].Ran? then 1 else 0) + Runs(inputs[1..])
  }

  // ----- one input

  /** The loop after code that posts `posts` and leaves `fds` descriptors. */
  ghost predicate Took(l: Loop, posts: seq<Functor>, fds: nat, l': Loop) {
    && Fifo(l') && l'.posted == l.posted + posts && l'.ready == l.ready + posts
    && l'.executed == l.executed && l'.fds == fds && l'.capacity == l.capacity
  }

  /** All of them are usable and fit the ring with one slot free. */
  ghost predicate CanTake(l: Loop, posts: seq<Functor>) {
    (forall f <- posts :: Usable(f)) && |l.ready| + |posts| < l.capacity
  }

  lemma ApplyIs(l: Loop, effect: Effect)
    requires Fifo(l)
    ensures Apply(l, effect).Some? <==> CanTake(l, effect.posts)
    ensures Apply(l, effect).Some? ==> Took(l, effect.posts, effect.fds, Apply(l, effect).value)
  {
    PostsExactlyWhen(l, effect.posts);
    if PostAll(l, effect.posts).Some? {
      PostAllKeeps(l, effect.posts);
    }
  }

  lemma TakeTwice(l: Loop, a: seq<Functor>, fds: nat, l1: Loop, b: seq<Functor>)
    requires Took(l, a, fds, l1) && CanTake(l, a)
    ensures CanTake(l, a + b) <==> CanTake(l1, b)
    ensures l.posted + a + b == l.posted + (a + b) && l.ready + a + b == l.ready + (a + b)
  {
    if CanTake(l, a + b) {
      forall f <- b ensures Usable(f) {
        assert f in a + b;
      }
    }
  }

  lemma CannotTake(l: Loop, a: seq<Functor>, b: seq<Functor>)
    requires CanTake(l, a + b)
    ensures CanTake(l, a)
  {
    forall f <- a ensures Usable(f) {
      assert f in a + b;
    }
  }

  /** Every reported handler takes effect, in turn. */
  lemma {:induction false} DispatchIs(l: Loop, handlers: seq<Effect>)
    requires Fifo(l)
    ensures Dispatch(l, handlers).Some? <==> CanTake(l, HandlerPosts(handlers))
    ensures Dispatch(l, handlers).Some? ==>
              Took(l, HandlerPosts(handlers), FdsOf(l.fds, Polled(handlers)), Dispatch(l, handlers).value)
    decreases |handlers|
  {
    hide Apply, CanTake;
    if handlers == [] {
      NothingToTake(l);
    } else {
      var a, b := handlers[0].posts, HandlerPosts(handlers[1..]);
      ApplyIs(l, handlers[0]);
      if Apply(l, handlers[0]).Some? {
        var l1 := Apply(l, handlers[0]).value;
        DispatchIs(l1, handlers[1..]);
        TakeTwice(l, a, handlers[0].fds, l1, b);
      } else if CanTake(l, a + b) {
        CannotTake(l, a, b);
      }
    }
  }

  lemma NothingToTake(l: Loop)
    requires Fifo(l)
    ensures CanTake(l, []) && l.posted + [] == l.posted && l.ready + [] == l.ready
  {
  }

  // ----- runs

  /** The loop after `done` of the inputs: all their posts, the last descriptor count, one functor run
      for each `Ran`. */
  ghost predicate Explained(l: Loop, done: seq<Input>, l': Loop) {
    && Fifo(l') && l'.posted == l.posted + AllPosts(done) && l'.fds == FdsAfter(l.fds, done)
    && |l'.executed| == |l.executed| + Runs(done) && l'.capacity == l.capacity
  }

  /** Why the loop stops behind the inputs it used. */
  ghost predicate Stops(l: Loop, rest: seq<Input>, exit: Exit) {
    match exit
    case NoMoreWork => l.fds == 0 && l.ready == []
    case Ongoing => (l.fds != 0 || l.ready != []) && (rest == [] || rest[0].Ran? == (l.ready == []))
    case Interrupted => l.fds != 0 && l.ready == [] && rest != [] && rest[0].PollFailed?
    case TimedOut => l.fds != 0 && l.ready == [] && rest != [] && rest[0].PollTimedOut?
    case PostFailed =>
      && rest != []
      && (if l.ready == [] then rest[0].Polled? && !CanTake(l, PostsOf(rest[0]))
          else rest[0].Ran? && !CanTake(Pop(l), PostsOf(rest[0])))
  }

  lemma StepExplained(l: Loop, first: Input, l1: Loop, done: seq<Input>, l': Loop)
    requires l1.posted == l.posted + PostsOf(first) && l1.fds == FdsOf(l.fds, first) && l1.capacity == l.capacity
    requires |l1.executed| == |l.executed| + (if first.Ran? then 1 else 0) && Explained(l1, done, l')
    ensures Explained(l, [first] + done, l')
  {
    assert ([first] + done)[1..] == done;
    assert l.posted + PostsOf(first) + AllPosts(done) == l.posted + (PostsOf(first) + AllPosts(done));
  }

  /** Over every run, from any state: some number of inputs is used, the loop then holds exactly what
      they posted and left, and it stops there for the reason its exit says; in particular it fails
      exactly when the posts of the next input have a NULL among them or do not fit the ring. */
  lemma {:induction false} InputsTakeEffect(l: Loop, inputs: seq<Input>) returns (k: nat, at: Loop)
    requires Fifo(l)
    ensures k <= |inputs| && Explained(l, inputs[..k], at)
    ensures var (end, exit) := RunFrom(l, inputs);
            Stops(at, inputs[k..], exit) && end == if exit.PostFailed? then None else Some(at)
    decreases |inputs|
  {
    hide Apply, Dispatch, CanTake;
    var stop := (l.fds == 0 && l.ready == []) || inputs == [];
    if !stop && l.ready == [] && inputs[0].Polled? {
      DispatchIs(l, inputs[0].handlers);
      stop := Dispatch(l, inputs[0].handlers).None?;
    } else if !stop && l.ready != [] && inputs[0].Ran? {
      PopKeeps(l);
      ApplyIs(Pop(l), inputs[0].effect);
      stop := Apply(Pop(l), inputs[0].effect).None?;
    } else {
      stop := true;
    }
    if stop {
      k, at := 0, l;
      NothingToTake(l);
      assert inputs[..0] == [] && inputs[0..] == inputs;
    } else {
      var l1 := if l.ready == [] then Dispatch(l, inputs[0].handlers).value
                else Apply(Pop(l), inputs[0].effect).value;
      var j;
      j, at := InputsTakeEffect(l1, inputs[1..]);
      k := j + 1;
      StepExplained(l, inputs[0], l1, inputs[1..][..j], at);
      assert inputs[..k] == [inputs[0]] + inputs[1..][..j] && inputs[k..] == inputs[1..][j..];
    }
  }
}
