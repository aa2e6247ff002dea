/** The bounded blocking queue: a circular buffer behind a mutex and two condition variables. */
module BlockingQueue {
  import opened Wrappers
  import opened Rings

  // ----- the circular buffer

  datatype Ring = Ring(q: seq<int>, size: nat, first: nat, next: nat) {
    predicate IsFull() { first == next && size > 0 }

    predicate IsEmpty() { first == next && size == 0 }

    /** The pointers and the count agree. */
    ghost predicate Settled() {
      first < |q| && next < |q| && size <= |q| && next == Ahead(first, size, |q|)
    }
  }

  class Queue {
    const q: array<int>
    var size: nat
    var first: nat
    var next: nat

    ghost predicate Valid()
      reads this, q
    {
      Ring(q[..], size, first, next).Settled()
    }

    ghost function Contents(): seq<int>
      requires Valid()
      reads this, q
    {
      Window(q[..], first, size)
    }

    constructor (capacity: nat)
      requires capacity > 0
      ensures Valid() && q.Length == capacity && Contents() == [] && fresh(q)
    {
      q := new int[capacity];
      size, first, next := 0, 0, 0;
    }

    /** The critical section of Queue_add, entered with room in the queue. */
    method Put(v: int)
      requires Valid() && size != q.Length
      modifies this, q
      ensures Valid() && Contents() == old(Contents()) + [v]
    {
      WindowExtends(q[..], first, size, v);
      ghost var before := q[..];
      q[next] := v;
      assert q[..] == before[next := v];
      assert !(first == next && size > 0);  // advance_next_pointer: not full
      next := Bump(next, q.Length);
      size := size + 1;
    }

    /** The critical section of Queue_remove, entered with a value in the queue. */
    method Take() returns (v: int)
      requires Valid() && !(first == next && size == 0)
      modifies this`first, this`size
      ensures Valid() && old(Contents()) == [v] + Contents()
    {
      WindowShrinks(q[..], first, size);
      v := q[first];
      assert !(first == next && size == 0);  // advance_first_pointer: not empty
      first := Bump(first, q.Length);
      size := size - 1;
    }
  }

  // ----- threads

  datatype Op = Add(v: int) | Remove

  /** Where a thread is.  `Waiting` is asleep on the operation's condition variable and not yet
      notified; a thread that is woken has to lock again. */
  datatype Pc =
    | Idle
    | Locking(op: Op)
    | Testing(op: Op)
    | Waiting(op: Op)
    | Accessed(op: Op, v: int)  // slot written, or slot read into v
    | Advanced(op: Op, v: int)  // pointer moved
    | Counted(op: Op, v: int)   // size updated
    | Leaving(op: Op, v: int)   // the condition variable signalled; a Remove returns v

  predicate Holds(pc: Pc) { pc.Testing? || pc.Accessed? || pc.Advanced? || pc.Counted? || pc.Leaving? }

  datatype System = System(
    ring: Ring,
    owner: Option<nat>,        // the mutex
    threads: map<nat, Pc>,
    added: seq<int>,           // values whose addition has been counted, in order
    removed: seq<int>)

  datatype Action =
    | Call(op: Op) | Lock | Test | Advance | Count | Signal | Unlock
    | SpuriousWakeup

  datatype Result = Ok(s: System) | Disabled | Crashed

  /** Everybody waiting for this kind of operation is woken. */
  function Broadcast(threads: map<nat, Pc>, adders: bool): map<nat, Pc> {
    map t <- threads ::
      if threads[t].Waiting? && threads[t].op.Add? == adders then Locking(threads[t].op) else threads[t]
  }

  function Move(s: System, t: nat, pc: Pc): System { s.(threads := s.threads[t := pc]) }

  function StepTest(s: System, t: nat, op: Op): Result {
    match op
    case Add(v) =>
      if s.ring.size == |s.ring.q| then Ok(Move(s, t, Waiting(op)).(owner := None))
      else if s.ring.next >= |s.ring.q| then Crashed
      else Ok(Move(s, t, Accessed(op, v)).(ring := s.ring.(q := s.ring.q[s.ring.next := v])))
    case Remove =>
      if s.ring.IsEmpty() then Ok(Move(s, t, Waiting(op)).(owner := None))
      else if s.ring.first >= |s.ring.q| then Crashed
      else Ok(Move(s, t, Accessed(op, s.ring.q[s.ring.first])))
  }

  /** One step of thread `t`; `Crashed` is a failed assertion or a slot outside the buffer. */
  function Step(s: System, t: nat, act: Action): Result {
    if t !in s.threads then Disabled else
    match (act, s.threads[t])
    case (Call(op), Idle) => Ok(Move(s, t, Locking(op)))
    case (Lock, Locking(op)) => if s.owner.Some? then Disabled else Ok(Move(s, t, Testing(op)).(owner := Some(t)))
    case (Test, Testing(op)) => StepTest(s, t, op)
    case (Advance, Accessed(Add(x), v)) =>
      if s.ring.IsFull() || s.ring.next >= |s.ring.q| then Crashed
      else Ok(Move(s, t, Advanced(Add(x), v)).(ring := s.ring.(next := Bump(s.ring.next, |s.ring.q|))))
    case (Advance, Accessed(Remove, v)) =>
      if s.ring.IsEmpty() || s.ring.first >= |s.ring.q| then Crashed
      else Ok(Move(s, t, Advanced(Remove, v)).(ring := s.ring.(first := Bump(s.ring.first, |s.ring.q|))))
    case (Count, Advanced(Add(x), v)) =>
      Ok(Move(s, t, Counted(Add(x), v)).(ring := s.ring.(size := s.ring.size + 1), added := s.added + [v]))
    case (Count, Advanced(Remove, v)) =>
      if s.ring.size == 0 then Crashed
      else Ok(Move(s, t, Counted(Remove, v)).(ring := s.ring.(size := s.ring.size - 1), removed := s.removed + [v]))
    case (Signal, Counted(Add(x), v)) =>
      var s1 := if s.ring.size == 1 then s.(threads := Broadcast(s.threads, false)) else s;
      Ok(Move(s1, t, Leaving(Add(x), v)))
    case (Signal, Counted(Remove, v)) =>
      var s1 := if s.ring.size < |s.ring.q| then s.(threads := Broadcast(s.threads, true)) else s;
      Ok(Move(s1, t, Leaving(Remove, v)))
    case (Unlock, Leaving(_, _)) => Ok(Move(s, t, Idle).(owner := None))
    case (SpuriousWakeup, Waiting(op)) => Ok(Move(s, t, Locking(op)))
    case _ => Disabled
  }

  // ----- the invariant

  /** The mutex is held by exactly the thread that is inside its critical section. */
  ghost predicate Exclusive(s: System) {
    && (s.owner.Some? ==> s.owner.value in s.threads && Holds(s.threads[s.owner.value]))
    && forall t <- s.threads :: Holds(s.threads[t]) ==> s.owner == Some(t)
  }

  /** The owner is about to wake the consumers (or the producers). */
  predicate AboutToSignal(s: System, op: Op) {
    && s.owner.Some? && s.owner.value in s.threads
    && s.threads[s.owner.value].Counted? && s.threads[s.owner.value].op.Add? == op.Remove?
  }

  /** A thread that waits without having been notified has a reason to. */
  ghost predicate NoLostWakeup(s: System) {
    forall t <- s.threads | s.threads[t].Waiting? ::
      if s.threads[t].op.Remove? then s.ring.size == 0 || (AboutToSignal(s, Remove) && s.ring.size == 1)
      else s.ring.size == |s.ring.q| || AboutToSignal(s, s.threads[t].op)
  }

  ghost predicate Inv(s: System) { Exclusive(s) && Consistent(s) && NoLostWakeup(s) }

  predicate Fresh(s: System, capacity: nat) {
    && capacity > 0 && |s.ring.q| == capacity && s.ring.size == 0 && s.ring.first == 0 && s.ring.next == 0
    && s.owner.None? && s.added == [] && s.removed == []
    && forall t <- s.threads :: s.threads[t].Idle?
  }

  lemma ExclusiveKept(s: System, t: nat, act: Action)
    requires Inv(s) && Step(s, t, act).Ok?
    ensures Exclusive(Step(s, t, act).s)
  {
    hide Consistent, NoLostWakeup;
  }

  /** The buffer as the owner's progress `pc` leaves it: while a pointer has moved and the count
      has not, they disagree by one.  Values removed, then those in the buffer, are those added. */
  ghost predicate RingAt(ring: Ring, pc: Pc, added: seq<int>, removed: seq<int>) {
    && ring.first < |ring.q| && ring.next < |ring.q| && ring.size <= |ring.q|
    && match pc
       case Accessed(Add(x), v) =>
         && ring.Settled() && ring.size < |ring.q| && ring.q[ring.next] == v && x == v
         && removed + Window(ring.q, ring.first, ring.size) == added
       case Accessed(Remove, v) =>
         && ring.Settled() && ring.size > 0 && ring.q[ring.first] == v
         && removed + Window(ring.q, ring.first, ring.size) == added
       case Advanced(Add(x), v) =>
         && ring.size < |ring.q| && ring.next == Ahead(ring.first, ring.size + 1, |ring.q|) && x == v
         && removed + Window(ring.q, ring.first, ring.size + 1) == added + [v]
       case Advanced(Remove, v) =>
         && ring.size > 0 && ring.next == Ahead(ring.first, ring.size - 1, |ring.q|)
         && removed + [v] + Window(ring.q, ring.first, ring.size - 1) == added
       case _ =>
         && ring.Settled() && removed + Window(ring.q, ring.first, ring.size) == added
  }

  lemma StoreKeeps(ring: Ring, v: int, added: seq<int>, removed: seq<int>)
    requires RingAt(ring, Idle, added, removed) && ring.size != |ring.q|
    ensures RingAt(ring.(q := ring.q[ring.next := v]), Accessed(Add(v), v), added, removed)
  {
    WindowExtends(ring.q, ring.first, ring.size, v);
  }

  lemma FetchKeeps(ring: Ring, added: seq<int>, removed: seq<int>)
    requires RingAt(ring, Idle, added, removed) && !ring.IsEmpty()
    ensures RingAt(ring, Accessed(Remove, ring.q[ring.first]), added, removed)
  {
  }

  lemma AdvanceKeeps(ring: Ring, op: Op, v: int, added: seq<int>, removed: seq<int>)
    requires RingAt(ring, Accessed(op, v), added, removed)
    ensures if op.Add? then RingAt(ring.(next := Bump(ring.next, |ring.q|)), Advanced(op, v), added, removed)
            else RingAt(ring.(first := Bump(ring.first, |ring.q|)), Advanced(op, v), added, removed)
  {
    if op.Add? {
      WindowExtends(ring.q, ring.first, ring.size, v);
      assert ring.q[ring.next := v] == ring.q;
      assert removed + (Window(ring.q, ring.first, ring.size) + [v]) == added + [v];
    } else {
      WindowShrinks(ring.q, ring.first, ring.size);
      var rest := Window(ring.q, Bump(ring.first, |ring.q|), ring.size - 1);
      assert removed + ([v] + rest) == removed + [v] + rest;
    }
  }

  lemma CountKeeps(ring: Ring, op: Op, v: int, added: seq<int>, removed: seq<int>)
    requires RingAt(ring, Advanced(op, v), added, removed)
    ensures if op.Add? then RingAt(ring.(size := ring.size + 1), Idle, added + [v], removed)
            else RingAt(ring.(size := ring.size - 1), Idle, added, removed + [v])
  {
  }

  /** What the current owner of the mutex, if any, is doing. */
  function OwnerPc(s: System): Pc {
    if s.owner.None? || s.owner.value !in s.threads then Idle else s.threads[s.owner.value]
  }

  ghost predicate Consistent(s: System) { RingAt(s.ring, OwnerPc(s), s.added, s.removed) }

  predicate Plain(pc: Pc) { !pc.Accessed? && !pc.Advanced? }

  lemma PlainRing(ring: Ring, pc: Pc, added: seq<int>, removed: seq<int>)
    requires Plain(pc)
    ensures RingAt(ring, pc, added, removed) <==> RingAt(ring, Idle, added, removed)
  {
  }

  lemma ConsistentKept(s: System, t: nat, act: Action)
    requires Inv(s) && Step(s, t, act).Ok?
    ensures Consistent(Step(s, t, act).s)
  {
    hide NoLostWakeup, RingAt;
    var s', pc := Step(s, t, act).s, s.threads[t];
    if Plain(OwnerPc(s)) {
      PlainRing(s.ring, OwnerPc(s), s.added, s.removed);
    }
    if Plain(OwnerPc(s')) {
      PlainRing(s'.ring, OwnerPc(s'), s'.added, s'.removed);
    }
    match pc {
      case Testing(Add(v)) =>
        if s.ring.size != |s.ring.q| {
          StoreKeeps(s.ring, v, s.added, s.removed);
        }
      case Testing(Remove) =>
        if !s.ring.IsEmpty() {
          FetchKeeps(s.ring, s.added, s.removed);
        }
      case Accessed(op, v) =>
        AdvanceKeeps(s.ring, op, v, s.added, s.removed);
      case Advanced(op, v) =>
        CountKeeps(s.ring, op, v, s.added, s.removed);
      case _ =>
    }
  }

  lemma WakeupsKept(s: System, t: nat, act: Action)
    requires Inv(s) && Step(s, t, act).Ok?
    ensures NoLostWakeup(Step(s, t, act).s)
  {
  }

  /** The assertions on the pointers never fail, although the size lags behind them. */
  lemma NeverCrashes(s: System, t: nat, act: Action)
    requires Inv(s)
    ensures !Step(s, t, act).Crashed?
  {
    hide NoLostWakeup;
  }

  lemma InvKept(s: System, t: nat, act: Action)
    requires Inv(s) && Step(s, t, act).Ok?
    ensures Inv(Step(s, t, act).s)
    ensures Step(s, t, act).s.threads.Keys == s.threads.Keys && |Step(s, t, act).s.ring.q| == |s.ring.q|
  {
    ExclusiveKept(s, t, act);
    ConsistentKept(s, t, act);
    WakeupsKept(s, t, act);
    hide Exclusive, Consistent, NoLostWakeup;
  }

  // ----- runs

  /** `s'` is reached from `s` by the steps in `acts`, each taken by some thread. */
  ghost predicate Reaches(s: System, acts: seq<(nat, Action)>, s': System)
    decreases |acts|
  {
    if acts == [] then s == s'
    else Step(s, acts[0].0, acts[0].1).Ok? && Reaches(Step(s, acts[0].0, acts[0].1).s, acts[1..], s')
  }

  lemma {:induction false} ReachedKeepsInv(s: System, acts: seq<(nat, Action)>, s': System)
    requires Inv(s) && Reaches(s, acts, s')
    ensures Inv(s')
    decreases |acts|
  {
    hide Step, Inv;
    if acts != [] {
      InvKept(s, acts[0].0, acts[0].1);
      ReachedKeepsInv(Step(s, acts[0].0, acts[0].1).s, acts[1..], s');
    }
  }

  /** Every interleaving of any number of threads, from a new queue of any capacity, with
      spurious wake-ups: the invariant holds throughout. */
  lemma EveryInterleaving(s: System, capacity: nat, acts: seq<(nat, Action)>, s': System)
    requires Fresh(s, capacity) && Reaches(s, acts, s')
    ensures Inv(s')
  {
    assert Window(s.ring.q, 0, 0) == [];
    ReachedKeepsInv(s, acts, s');
  }

  /** While nobody holds the mutex, the values removed followed by the window from `first` are the
      values added, the pointers differ by the size, un-notified consumers wait only on an empty
      and un-notified producers only on a full queue, and so never both. */
  lemma WhenUnlocked(s: System)
    requires Inv(s) && s.owner.None?
    ensures s.ring.Settled() && s.removed + Window(s.ring.q, s.ring.first, s.ring.size) == s.added
    ensures s.ring.next == (s.ring.first + s.ring.size) % |s.ring.q|
    ensures forall t <- s.threads :: s.threads[t].Waiting? ==>
              if s.threads[t].op.Remove? then s.ring.size == 0 else s.ring.size == |s.ring.q|
    ensures forall t, u :: t in s.threads && u in s.threads && s.threads[t].Waiting? && s.threads[u].Waiting? ==>
              s.threads[t].op.Remove? == s.threads[u].op.Remove?
  {
    AheadIsModulo(s.ring.first, s.ring.size, |s.ring.q|);
  }

  /** Some thread can take a step that is not a new call and not a spurious wake-up. */
  ghost predicate CanMove(s: System) {
    exists t: nat, act: Action :: !act.Call? && !act.SpuriousWakeup? && Step(s, t, act).Ok?
  }

  /** The step a thread inside an operation takes next. */
  function NextAction(pc: Pc): Action {
    match pc
    case Locking(_) => Lock
    case Testing(_) => Test
    case Accessed(_, _) => Advance
    case Advanced(_, _) => Count
    case Counted(_, _) => Signal
    case _ => Unlock
  }

  lemma OwnerMoves(s: System)
    requires Inv(s) && s.owner.Some?
    ensures CanMove(s)
  {
    var t := s.owner.value;
    var act := NextAction(s.threads[t]);
    NeverCrashes(s, t, act);
    assert Step(s, t, act).Ok?;
  }

  /** No deadlock: either some thread can move, or every thread inside an operation waits, all for
      the same reason, and the reason holds: consumers of an empty or producers of a full queue. */
  lemma StuckOnlyTogether(s: System)
    requires Inv(s)
    ensures !CanMove(s) ==>
              && s.owner.None?
              && (forall t <- s.threads :: s.threads[t].Idle? || s.threads[t].Waiting?)
              && (forall t <- s.threads :: s.threads[t].Waiting? ==>
                    if s.threads[t].op.Remove? then s.ring.size == 0 else s.ring.size == |s.ring.q|)
  {
    if s.owner.Some? {
      OwnerMoves(s);
    } else if t: nat :| t in s.threads && s.threads[t].Locking? {
      assert Step(s, t, Lock).Ok?;
    } else {
      WhenUnlocked(s);
    }
  }
}
