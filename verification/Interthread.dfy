/** Functors handed from any number of threads to one runloop: a list behind a mutex, and an
    eventfd whose counter tells the runloop to look.

    The runloop polls the descriptor without the mutex, so the steps between the list and the
    counter are separate. */
module Interthread {
  import opened FunctorLists

  /** A thread in runloop_eventfd_queue_add. */
  datatype Adder = AtRest | AddLocking(func: Functor) | AddLocked(func: Functor) | Listed | Written

  /** The runloop's thread: polling or running other code, or on the way to and in
      itqueue_postable after the descriptor was readable. */
  datatype Consumer = Polling | Woken | Locked | Taken(func: Functor) | Cleared(func: Functor) | Posting(func: Functor)

  datatype System = System(
    capacity: nat,
    list: seq<Functor>,
    counter: nat,              // the eventfd
    locked: bool,              // queue_mutex
    adders: map<nat, Adder>,
    consumer: Consumer,
    ringCapacity: nat,
    ready: nat,                // functors on the ready ring of the runloop
    posted: seq<Functor>,      // what the consumer has posted to its runloop
    added: seq<Functor>)       // what has been put on the list

  datatype Action =
    | BeginAdd(func: Functor) | LockAdd | ListAdd | WriteCounter | UnlockAdd      // by an adder
    | Poll | LockRemove | ListRemove | ReadCounter | UnlockRemove | Post           // by the consumer
    | OtherPost | RunReady     // the runloop's other handlers and functors post, and the ring is run down

  datatype Result = Ok(s: System) | Disabled | Crashed

  function AdderStep(s: System, t: nat, act: Action): Result {
    if t !in s.adders then Disabled else
    match (act, s.adders[t])
    case (BeginAdd(func), AtRest) => Ok(s.(adders := s.adders[t := AddLocking(func)]))
    case (LockAdd, AddLocking(func)) =>
      if s.locked then Disabled else Ok(s.(locked := true, adders := s.adders[t := AddLocked(func)]))
    case (ListAdd, AddLocked(func)) =>
      if |s.list| >= s.capacity - 1 then Crashed
      else Ok(s.(list := s.list + [func], added := s.added + [func], adders := s.adders[t := Listed]))
    case (WriteCounter, Listed) => Ok(s.(counter := s.counter + 1, adders := s.adders[t := Written]))
    case (UnlockAdd, Written) => Ok(s.(locked := false, adders := s.adders[t := AtRest]))
    case _ => Disabled
  }

  predicate RingFull(s: System) { s.ready >= s.ringCapacity - 1 }

  /** runloop_eventfd_queue_remove takes the first functor, or an empty one, and then reads the
      descriptor, which clears the whole counter.  itqueue_postable then asserts that the functor is
      not empty, and runloop_post that it has no NULL at all and that the ring has room.  The
      runloop polls only with an empty ring. */
  function ConsumerStep(s: System, act: Action): Result {
    match (act, s.consumer)
    case (Poll, Polling) => if s.counter == 0 || s.ready != 0 then Disabled else Ok(s.(consumer := Woken))
    case (LockRemove, Woken) => if s.locked then Disabled else Ok(s.(locked := true, consumer := Locked))
    case (ListRemove, Locked) =>
      if s.list != [] then Ok(s.(list := s.list[1..], consumer := Taken(s.list[0])))
      else Ok(s.(consumer := Taken(Functor(0, 0))))
    case (ReadCounter, Taken(func)) => Ok(s.(counter := 0, consumer := Cleared(func)))
    case (UnlockRemove, Cleared(func)) => Ok(s.(locked := false, consumer := Posting(func)))
    case (Post, Posting(func)) =>
      if !Usable(func) || RingFull(s) then Crashed
      else Ok(s.(consumer := Polling, ready := s.ready + 1, posted := s.posted + [func]))
    case (OtherPost, Polling) => if RingFull(s) then Crashed else Ok(s.(ready := s.ready + 1))
    case (OtherPost, Woken) => if RingFull(s) then Crashed else Ok(s.(ready := s.ready + 1))
    case (RunReady, Polling) => if s.ready == 0 then Disabled else Ok(s.(ready := s.ready - 1))
    case _ => Disabled
  }

  function Step(s: System, t: nat, act: Action): Result {
    match act
    case BeginAdd(_) => AdderStep(s, t, act)
    case LockAdd => AdderStep(s, t, act)
    case ListAdd => AdderStep(s, t, act)
    case WriteCounter => AdderStep(s, t, act)
    case UnlockAdd => AdderStep(s, t, act)
    case _ => ConsumerStep(s, act)
  }

  // ----- the invariant

  predicate AdderHolds(a: Adder) { a.AddLocked? || a.Listed? || a.Written? }

  predicate ConsumerHolds(c: Consumer) { c.Locked? || c.Taken? || c.Cleared? }

  /** At most one thread is inside the mutex. */
  ghost predicate Exclusive(s: System) {
    && (forall t, u :: t in s.adders && u in s.adders && AdderHolds(s.adders[t]) && AdderHolds(s.adders[u]) ==> t == u)
    && (forall t <- s.adders :: AdderHolds(s.adders[t]) ==> s.locked && !ConsumerHolds(s.consumer))
    && (ConsumerHolds(s.consumer) ==> s.locked)
  }

  /** The counter never announces more functors than are listed, except between the consumer's
      taking one and clearing the counter; a listed functor is announced one step later; and a
      woken consumer was woken by an announcement that is still there. */
  ghost predicate Announced(s: System) {
    && s.counter <= |s.list| + (if s.consumer.Taken? then 1 else 0)
    && (forall t <- s.adders :: s.adders[t].Listed? ==> s.counter < |s.list|)
    && (s.consumer.Woken? || s.consumer.Locked? || s.consumer.Taken? ==> s.counter > 0)
    && (s.consumer.Cleared? ==> s.counter == 0)
  }

  function InHand(c: Consumer): seq<Functor> {
    if c.Taken? || c.Cleared? || c.Posting? then [c.func] else []
  }

  /** Functors reach the runloop in the order they were listed, and the list keeps its capacity. */
  ghost predicate InOrder(s: System) {
    s.posted + InHand(s.consumer) + s.list == s.added && |s.list| < s.capacity
  }

  ghost predicate Inv(s: System) { Exclusive(s) && Announced(s) && InOrder(s) }

  predicate Fresh(s: System) {
    && s.capacity > 0 && s.list == [] && s.counter == 0 && !s.locked && s.consumer.Polling?
    && s.ready == 0 && s.posted == [] && s.added == []
    && forall t <- s.adders :: s.adders[t].AtRest?
  }

  lemma ExclusiveKept(s: System, t: nat, act: Action)
    requires Inv(s) && Step(s, t, act).Ok?
    ensures Exclusive(Step(s, t, act).s)
  {
    hide Announced, InOrder;
  }

  lemma AnnouncedKept(s: System, t: nat, act: Action)
    requires Inv(s) && Step(s, t, act).Ok?
    ensures Announced(Step(s, t, act).s)
  {
    hide InOrder;
  }

  lemma InOrderKept(s: System, t: nat, act: Action)
    requires Inv(s) && Step(s, t, act).Ok?
    ensures InOrder(Step(s, t, act).s)
  {
    hide Exclusive;
    var s' := Step(s, t, act).s;
    if act.ListAdd? {
      var func := s.adders[t].func;
      assert s.posted + InHand(s.consumer) + (s.list + [func]) == s.added + [func];
    } else if act.ListRemove? {
      assert s.list == [s.list[0]] + s.list[1..];
      assert s.posted + [] + s.list == s.posted + [s.list[0]] + s.list[1..];
    } else if act.Post? {
      assert s.posted + InHand(s.consumer) == s'.posted + [];
    }
  }

  lemma InvKept(s: System, t: nat, act: Action)
    requires Inv(s) && Step(s, t, act).Ok?
    ensures Inv(Step(s, t, act).s)
  {
    ExclusiveKept(s, t, act);
    AnnouncedKept(s, t, act);
    InOrderKept(s, t, act);
  }

  // ----- runs

  ghost predicate Reaches(s: System, acts: seq<(nat, Action)>, s': System)
    decreases |acts|
  {
    if acts == [] then s == s'
    else Step(s, acts[0].0, acts[0].1).Ok? && Reaches(Step(s, acts[0].0, acts[0].1).s, acts[1..], s')
  }

  lemma {:induction false} ReachesConcat(s: System, a: seq<(nat, Action)>, s1: System,
                                         b: seq<(nat, Action)>, s2: System)
    requires Reaches(s, a, s1) && Reaches(s1, b, s2)
    ensures Reaches(s, a + b, s2)
    decreases |a|
  {
    hide Step;
    if a == [] {
      assert a + b == b;
    } else {
      assert (a + b)[1..] == a[1..] + b;
      ReachesConcat(Step(s, a[0].0, a[0].1).s, a[1..], s1, b, s2);
    }
  }

  lemma {:induction false} EveryInterleaving(s: System, acts: seq<(nat, Action)>, s': System)
    requires Inv(s) && Reaches(s, acts, s')
    ensures Inv(s') && s'.capacity == s.capacity && s'.ringCapacity == s.ringCapacity
    decreases |acts|
  {
    hide Inv;
    if acts != [] {
      InvKept(s, acts[0].0, acts[0].1);
      EveryInterleaving(Step(s, acts[0].0, acts[0].1).s, acts[1..], s');
    }
  }

  /** In every interleaving of any number of adders with the consumer: while the runloop polls, a
      readable descriptor means a listed functor, and the functors posted, taken and listed are
      those added, in order. */
  lemma NotificationIsSafe(s: System, acts: seq<(nat, Action)>, s': System)
    requires Fresh(s) && Reaches(s, acts, s')
    ensures s'.consumer.Polling? && s'.counter > 0 ==> s'.list != []
    ensures s'.posted + InHand(s'.consumer) + s'.list == s'.added
  {
    EveryInterleaving(s, acts, s');
  }

  /** In every interleaving, handling a wake-up trips an assertion if and only if the functor it is
      about to post, the next of those added, has a NULL in it, or the ready ring is full.  The
      empty functor that stands for an empty list is never what is posted. */
  lemma PostCrashesExactlyWhen(s: System, acts: seq<(nat, Action)>, s': System)
    requires Fresh(s) && Reaches(s, acts, s') && s'.consumer.Posting?
    ensures |s'.posted| < |s'.added| && s'.consumer.func == s'.added[|s'.posted|]
    ensures ConsumerStep(s', Post) == Crashed <==> !Usable(s'.added[|s'.posted|]) || s'.ready >= s.ringCapacity - 1
  {
    EveryInterleaving(s, acts, s');
    assert s'.added == s'.posted + [s'.consumer.func] + s'.list;
  }

  /** In every interleaving, an add trips its assertion if and only if capacity - 1 of the functors
      added so far have not been taken off the list, and there are never more of them. */
  lemma AddCrashesExactlyWhen(s: System, acts: seq<(nat, Action)>, s': System, t: nat)
    requires Fresh(s) && Reaches(s, acts, s') && t in s'.adders && s'.adders[t].AddLocked?
    ensures var waiting := |s'.added| - |s'.posted| - |InHand(s'.consumer)|;
            && waiting <= s.capacity - 1
            && (Step(s', t, ListAdd) == Crashed <==> waiting == s.capacity - 1)
  {
    EveryInterleaving(s, acts, s');
    assert |s'.added| == |s'.posted| + |InHand(s'.consumer)| + |s'.list|;
  }

  lemma {:induction false} RingStaysEmpty(s: System, acts: seq<(nat, Action)>, s': System)
    requires (s.consumer.Polling? || s.ready == 0) && Reaches(s, acts, s')
    requires forall i :: 0 <= i < |acts| ==> !acts[i].1.OtherPost?
    ensures s'.consumer.Polling? || s'.ready == 0
    decreases |acts|
  {
    if acts != [] {
      RingStaysEmpty(Step(s, acts[0].0, acts[0].1).s, acts[1..], s');
    }
  }

  /** When every functor added is usable and nothing else posts, no wake-up ever trips one. */
  lemma UsableFunctorsAreSafe(s: System, acts: seq<(nat, Action)>, s': System)
    requires Fresh(s) && s.ringCapacity >= 2 && Reaches(s, acts, s')
    requires forall i :: 0 <= i < |acts| ==> !acts[i].1.OtherPost?
    requires forall f <- s'.added :: Usable(f)
    ensures ConsumerStep(s', Post) != Crashed
  {
    EveryInterleaving(s, acts, s');
    RingStaysEmpty(s, acts, s');
    if s'.consumer.Posting? {
      PostCrashesExactlyWhen(s, acts, s');
    }
  }

  // ----- reading the descriptor clears the announcements of all listed functors

  ghost predicate SomeListed(s: System) { exists t :: t in s.adders && s.adders[t].Listed? }

  /** Nobody is about to announce anything and nothing is announced. */
  ghost predicate Quiet(s: System) { s.consumer.Polling? && s.counter == 0 && !SomeListed(s) }

  /** A functor is listed and nothing will make the runloop look. */
  ghost predicate Stranded(s: System) { Quiet(s) && s.list != [] }

  /** Announcements that a run wiped out without a functor being taken for them: each read of the
      descriptor clears all of them, for one functor. */
  function Lost(s: System, acts: seq<(nat, Action)>): int
    decreases |acts|
  {
    if acts == [] || !Step(s, acts[0].0, acts[0].1).Ok? then 0
    else LostBy(s, acts[0].1) + Lost(Step(s, acts[0].0, acts[0].1).s, acts[1..])
  }

  function LostBy(s: System, act: Action): int { if act.ReadCounter? then s.counter - 1 else 0 }

  /** Some read of the descriptor in the run found a counter above 1. */
  predicate ClearsSeveral(s: System, acts: seq<(nat, Action)>)
    decreases |acts|
  {
    && acts != [] && Step(s, acts[0].0, acts[0].1).Ok?
    && (LostBy(s, acts[0].1) > 0 || ClearsSeveral(Step(s, acts[0].0, acts[0].1).s, acts[1..]))
  }

  /** Every listed functor is announced, about to be, or one whose announcement is lost. */
  ghost predicate Balanced(s: System, lost: int) {
    |s.list| + (if s.consumer.Taken? then 1 else 0) == s.counter + (if SomeListed(s) then 1 else 0) + lost
  }

  lemma ListedAfter(s: System, t: nat, act: Action)
    requires Exclusive(s) && Step(s, t, act).Ok?
    ensures SomeListed(Step(s, t, act).s) <==> act.ListAdd? || (SomeListed(s) && !act.WriteCounter?)
  {
    var s' := Step(s, t, act).s;
    if act.ListAdd? {
      assert s'.adders[t].Listed?;
    } else if !act.WriteCounter? && SomeListed(s) {
      var u :| u in s.adders && s.adders[u].Listed?;
      assert s'.adders[u].Listed?;
    }
  }

  lemma BalanceKept(s: System, t: nat, act: Action, lost: int)
    requires Inv(s) && Balanced(s, lost) && Step(s, t, act).Ok?
    ensures Balanced(Step(s, t, act).s, lost + LostBy(s, act)) && LostBy(s, act) >= 0
  {
    ListedAfter(s, t, act);
    hide InOrder;
    if act.ListAdd? {
      assert !SomeListed(s);
    } else if act.WriteCounter? {
      assert s.adders[t].Listed?;
    } else if act.ReadCounter? {
      assert !SomeListed(s);
    }
  }

  lemma FreshIsBalanced(s: System)
    requires Fresh(s)
    ensures Inv(s) && Balanced(s, 0)
  {
  }

  lemma {:induction false} BalanceOfRun(s: System, acts: seq<(nat, Action)>, s': System, lost: int)
    requires Inv(s) && Balanced(s, lost) && Reaches(s, acts, s')
    ensures Inv(s') && Balanced(s', lost + Lost(s, acts)) && Lost(s, acts) >= 0
    ensures Lost(s, acts) > 0 <==> ClearsSeveral(s, acts)
    decreases |acts|
  {
    hide Step, Inv, Balanced, LostBy;
    if acts != [] {
      var next := Step(s, acts[0].0, acts[0].1).s;
      InvKept(s, acts[0].0, acts[0].1);
      BalanceKept(s, acts[0].0, acts[0].1, lost);
      BalanceOfRun(next, acts[1..], s', lost + LostBy(s, acts[0].1));
    }
  }

  /** For every run from the start to a state in which nothing is announced or about to be: the
      functors left on the list are exactly as many as announcements were lost, so functors are
      stranded if and only if some read of the descriptor found a counter above 1. */
  lemma StrandsExactlyWhen(s: System, acts: seq<(nat, Action)>, s': System)
    requires Fresh(s) && Reaches(s, acts, s') && Quiet(s')
    ensures |s'.list| == Lost(s, acts)
    ensures Stranded(s') <==> ClearsSeveral(s, acts)
  {
    BalanceOfRun(s, acts, s', 0);
  }

  /** Stranded functors are never made up for: whatever is added later, at least as many functors
      stay listed in every later state. */
  lemma NeverCatchesUp(s: System, before: seq<(nat, Action)>, s1: System, after: seq<(nat, Action)>, s2: System)
    requires Fresh(s) && Reaches(s, before, s1) && Quiet(s1) && Reaches(s1, after, s2)
    ensures |s2.list| >= |s1.list|
  {
    FreshIsBalanced(s);
    hide Reaches, Lost, ClearsSeveral, SomeListed;
    BalanceOfRun(s, before, s1, 0);
    BalanceOfRun(s1, after, s2, Lost(s, before));
  }

  /** While functors are stranded the consumer has nothing to look at, and no step but the listing
      of another functor changes that. */
  lemma StrandedUntilAdd(s: System, t: nat, act: Action)
    requires Inv(s) && Stranded(s) && Step(s, t, act).Ok? && !act.ListAdd?
    ensures Stranded(Step(s, t, act).s)
  {
    ListedAfter(s, t, act);
  }

  // ----- a run that strands

  /** A whole add with nobody in between. */
  function AddActs(t: nat, func: Functor): seq<(nat, Action)> {
    [(t, BeginAdd(func)), (t, LockAdd), (t, ListAdd), (t, WriteCounter), (t, UnlockAdd)]
  }

  function WithAdded(s: System, func: Functor): System {
    s.(list := s.list + [func], added := s.added + [func], counter := s.counter + 1)
  }

  lemma WholeAdd(s: System, t: nat, func: Functor)
    requires t in s.adders && s.adders[t].AtRest? && !s.locked && |s.list| < s.capacity - 1
    ensures Reaches(s, AddActs(t, func), WithAdded(s, func))
  {
    var acts := AddActs(t, func);
    var s1 := Step(s, t, BeginAdd(func)).s;
    var s2 := Step(s1, t, LockAdd).s;
    var s3 := Step(s2, t, ListAdd).s;
    var s4 := Step(s3, t, WriteCounter).s;
    var s5 := Step(s4, t, UnlockAdd).s;
    assert s5 == WithAdded(s, func) by { assert s5.adders == s.adders; }
    assert Reaches(s5, acts[1..][1..][1..][1..][1..], s5);
    assert Reaches(s4, acts[1..][1..][1..][1..], s5);
    assert Reaches(s3, acts[1..][1..][1..], s5);
    assert Reaches(s2, acts[1..][1..], s5);
    assert Reaches(s1, acts[1..], s5);
  }

  const TakeActs: seq<(nat, Action)> := [(0, ListRemove), (0, ReadCounter), (0, UnlockRemove)]

  function WithTaken(s: System): System
    requires s.list != []
  {
    s.(list := s.list[1..], counter := 0, locked := false, consumer := Posting(s.list[0]))
  }

  lemma WholeRemove(s: System)
    requires s.consumer.Locked? && s.list != []
    ensures Reaches(s, TakeActs, WithTaken(s))
  {
    var s1 := Step(s, 0, ListRemove).s;
    var s2 := Step(s1, 0, ReadCounter).s;
    assert Reaches(WithTaken(s), TakeActs[1..][1..][1..], WithTaken(s));
    assert Reaches(s2, TakeActs[1..][1..], WithTaken(s));
    assert Reaches(s1, TakeActs[1..], WithTaken(s));
  }

  /** A wake-up that finds more than one functor can go on to strand the rest. */
  lemma CrowdedWakeup(s: System) returns (s': System)
    requires Inv(s) && s.consumer.Locked? && |s.list| > 1 && Usable(s.list[0]) && !RingFull(s)
    ensures Reaches(s, TakeActs + [(0, Post)], s') && Stranded(s')
    ensures s'.list == s.list[1..] && s'.posted == s.posted + [s.list[0]]
  {
    var s1 := WithTaken(s);
    s' := Step(s1, 0, Post).s;
    WholeRemove(s);
    var post: seq<(nat, Action)> := [(0, Post)];
    assert Reaches(s', post[1..], s');
    ReachesConcat(s, TakeActs, s1, post, s');
  }

  const WakeActs: seq<(nat, Action)> := [(0, Poll), (0, LockRemove)]

  lemma WakeUp(s: System) returns (s': System)
    requires s.consumer.Polling? && s.counter > 0 && s.ready == 0 && !s.locked
    ensures Reaches(s, WakeActs, s') && s' == s.(locked := true, consumer := Locked)
  {
    var s1 := Step(s, 0, Poll).s;
    s' := Step(s1, 0, LockRemove).s;
    assert Reaches(s', WakeActs[1..][1..], s');
    assert Reaches(s1, WakeActs[1..], s');
  }

  /** One thread that adds twice before the runloop looks: the second functor is stranded. */
  lemma TwoAddsStrand(s: System, t: nat, f: Functor, g: Functor) returns (acts: seq<(nat, Action)>, s': System)
    requires Fresh(s) && s.capacity >= 3 && s.ringCapacity >= 2 && t in s.adders && Usable(f)
    ensures Reaches(s, acts, s') && Stranded(s') && s'.list == [g] && s'.posted == [f]
  {
    hide Reaches;
    var a := WithAdded(s, f);
    var b := WithAdded(a, g);
    WholeAdd(s, t, f);
    WholeAdd(a, t, g);
    var c := WakeUp(b);
    ReachesConcat(s, AddActs(t, f), a, AddActs(t, g), b);
    acts := AddActs(t, f) + AddActs(t, g);
    ReachesConcat(s, acts, b, WakeActs, c);
    acts := acts + WakeActs;
    EveryInterleaving(s, acts, c);
    s' := CrowdedWakeup(c);
    ReachesConcat(s, acts, c, TakeActs + [(0, Post)], s');
    acts := acts + (TakeActs + [(0, Post)]);
  }

  /** Adding a functor without a function or without an argument is accepted, and brings down the
      runloop. */
  lemma NullFunctorCrashes(s: System, t: nat, f: Functor) returns (acts: seq<(nat, Action)>, s': System)
    requires Fresh(s) && s.capacity >= 2 && t in s.adders && !Usable(f)
    ensures Reaches(s, acts, s') && ConsumerStep(s', Post) == Crashed
  {
    hide Reaches;
    var a := WithAdded(s, f);
    WholeAdd(s, t, f);
    var b := WakeUp(a);
    WholeRemove(b);
    s' := WithTaken(b);
    ReachesConcat(s, AddActs(t, f), a, WakeActs, b);
    ReachesConcat(s, AddActs(t, f) + WakeActs, b, TakeActs, s');
    acts := AddActs(t, f) + WakeActs + TakeActs;
  }

  // ----- the queue as an object: its two operations, each inside the mutex

  class EventfdQueue {
    const list: FunctorList
    var counter: nat

    ghost predicate Valid()
      reads this, list
    {
      list.Valid()
    }

    ghost function Contents(): seq<Functor>
      requires Valid()
      reads this, list, list.list
    {
      list.Contents()
    }

    constructor (capacity: nat)
      requires capacity > 0
      ensures Valid() && Contents() == [] && counter == 0 && list.capacity == capacity
      ensures fresh(list) && fresh(list.list)
    {
      list := new FunctorList(capacity);
      counter := 0;
    }

    /** runloop_eventfd_queue_add: lists the functor and announces it. */
    method Add(func: Functor) returns (ok: bool)
      requires Valid()
      modifies this`counter, list`head, list.list
      ensures Valid() && (ok <==> |old(Contents())| < list.capacity - 1)
      ensures ok ==> Contents() == old(Contents()) + [func] && counter == old(counter) + 1
      ensures !ok ==> Contents() == old(Contents()) && counter == old(counter)
    {
      ok := list.Add(func);
      if ok {
        counter := counter + 1;
      }
    }

    /** runloop_eventfd_queue_remove: the first functor, or an empty one; clears the counter. */
    method Remove() returns (op: Functor)
      requires Valid()
      modifies this`counter, list`tailPlus
      ensures Valid() && counter == 0
      ensures if old(Contents()) == [] then op == Functor(0, 0) && Contents() == []
              else old(Contents()) == [op] + Contents()
    {
      var ok;
      if list.Size() > 0 {
        ok, op := list.Remove();
      } else {
        op := Functor(0, 0);
      }
      counter := 0;
    }
  }
}
