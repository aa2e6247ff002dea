/** The blocking queue seen from its callers: what each thread passed to Queue_add and got from
    Queue_remove, read off the actions of a run, against the values that went through the queue. */
module QueueHistories {
  import opened Rings
  import opened Histories
  import opened BlockingQueue

  // ----- read off the actions and the states between them

  /** What thread `t` passed to Queue_add, in order. */
  function Passed(acts: seq<(nat, Action)>, t: nat): seq<int> {
    if acts == [] then [] else
    (match acts[0].1 case Call(Add(v)) => if acts[0].0 == t then [v] else [] case _ => [])
    + Passed(acts[1..], t)
  }

  /** How often thread `t` called Queue_remove. */
  function RemoveCalls(acts: seq<(nat, Action)>, t: nat): nat {
    if acts == [] then 0 else
    (if acts[0] == (t, Call(Remove)) then 1 else 0) + RemoveCalls(acts[1..], t)
  }

  /** What Queue_remove returned to thread `t`, in order: the value in hand when it lets go of the mutex. */
  ghost function Returned(s: System, acts: seq<(nat, Action)>, t: nat): seq<int>
    decreases |acts|
  {
    if acts == [] || !Step(s, acts[0].0, acts[0].1).Ok? then [] else
    ReturnedBy(s, acts[0].0, acts[0].1, t) + Returned(Step(s, acts[0].0, acts[0].1).s, acts[1..], t)
  }

  function ReturnedBy(s: System, u: nat, act: Action, t: nat): seq<int> {
    if u == t && act.Unlock? && t in s.threads && s.threads[t].Leaving? && s.threads[t].op.Remove?
    then [s.threads[t].v] else []
  }

  /** The values entering the queue during a run, each with the thread whose step it was. */
  ghost function Entering(s: System, acts: seq<(nat, Action)>): seq<Entry<int>>
    decreases |acts|
  {
    if acts == [] || !Step(s, acts[0].0, acts[0].1).Ok? then [] else
    var s1 := Step(s, acts[0].0, acts[0].1).s;
    Grown(acts[0].0, s.added, s1.added) + Entering(s1, acts[1..])
  }

  ghost function LeavingQueue(s: System, acts: seq<(nat, Action)>): seq<Entry<int>>
    decreases |acts|
  {
    if acts == [] || !Step(s, acts[0].0, acts[0].1).Ok? then [] else
    var s1 := Step(s, acts[0].0, acts[0].1).s;
    Grown(acts[0].0, s.removed, s1.removed) + LeavingQueue(s1, acts[1..])
  }

  // ----- what a thread still owes

  /** The argument of an addition that is not counted yet. */
  function Adding(pc: Pc): seq<int> {
    match pc
    case Locking(Add(v)) => [v]
    case Testing(Add(v)) => [v]
    case Waiting(Add(v)) => [v]
    case Accessed(Add(v), _) => [v]
    case Advanced(Add(v), _) => [v]
    case _ => []
  }

  function Removing(pc: Pc): nat {
    match pc
    case Locking(Remove) => 1
    case Testing(Remove) => 1
    case Waiting(Remove) => 1
    case Accessed(Remove, _) => 1
    case Advanced(Remove, _) => 1
    case _ => 0
  }

  /** A value taken off the queue and not returned yet. */
  function InHand(pc: Pc): seq<int> {
    if (pc.Counted? || pc.Leaving?) && pc.op.Remove? then [pc.v] else []
  }

  // ----- one step

  /** A step of one thread changes nothing of what the others owe. */
  lemma OthersOwe(s: System, u: nat, act: Action, t: nat)
    requires Step(s, u, act).Ok? && t in s.threads && t != u
    ensures var s' := Step(s, u, act).s;
            && t in s'.threads && Adding(s'.threads[t]) == Adding(s.threads[t])
            && Removing(s'.threads[t]) == Removing(s.threads[t]) && InHand(s'.threads[t]) == InHand(s.threads[t])
  {
    var s' := Step(s, u, act).s;
    assert s'.threads[t] == s.threads[t] || (s.threads[t].Waiting? && s'.threads[t] == Locking(s.threads[t].op));
  }

  /** The value an addition counts is its argument. */
  lemma CountsItsArgument(s: System, t: nat)
    requires Inv(s) && t in s.threads && s.threads[t].Advanced? && s.threads[t].op.Add?
    ensures s.threads[t].v == s.threads[t].op.v
  {
    hide NoLostWakeup;
  }

  lemma OwnAdd(s: System, t: nat, act: Action)
    requires Step(s, t, act).Ok? && t in s.threads
    requires s.threads[t].Advanced? && s.threads[t].op.Add? ==> s.threads[t].v == s.threads[t].op.v
    ensures var s', pc := Step(s, t, act).s, s.threads[t];
            && t in s'.threads
            && (if act.Count? && pc.Advanced? && pc.op.Add?
                then s'.added == s.added + Adding(pc) && Adding(s'.threads[t]) == []
                else s'.added == s.added
                     && Adding(s'.threads[t]) == if act.Call? && act.op.Add? then [act.op.v] else Adding(pc))
            && (act.Call? ==> Adding(pc) == [])
            && (act.Count? && pc.Advanced? && pc.op.Add? ==> |Adding(pc)| == 1)
  {
  }

  lemma OwnRemove(s: System, t: nat, act: Action)
    requires Step(s, t, act).Ok? && t in s.threads
    ensures var s', pc := Step(s, t, act).s, s.threads[t];
            && t in s'.threads
            && (if act.Count? && pc.Advanced? && pc.op.Remove?
                then s'.removed == s.removed + [pc.v] && Removing(pc) == 1 && Removing(s'.threads[t]) == 0
                     && InHand(pc) == [] && InHand(s'.threads[t]) == [pc.v]
                else s'.removed == s.removed
                     && Removing(s'.threads[t]) == Removing(pc) + (if act == Call(Remove) then 1 else 0)
                     && InHand(pc) == ReturnedBy(s, t, act, t) + InHand(s'.threads[t]))
            && (act.Count? ==> ReturnedBy(s, t, act, t) == [])
  {
  }

  lemma OneCall(u: nat, act: Action, t: nat)
    ensures Passed([(u, act)], t) == if u == t && act.Call? && act.op.Add? then [act.op.v] else []
    ensures RemoveCalls([(u, act)], t) == if u == t && act == Call(Remove) then 1 else 0
  {
    var one: seq<(nat, Action)> := [(u, act)];
    assert one[1..] == [];
  }

  lemma LogsGrow(s: System, u: nat, act: Action)
    requires Step(s, u, act).Ok?
    ensures var s' := Step(s, u, act).s;
            Follows(s.added, s'.added) && Follows(s.removed, s'.removed)
  {
  }

  lemma StepAdds(s: System, u: nat, act: Action, t: nat)
    requires Inv(s) && Step(s, u, act).Ok? && t in s.threads
    ensures t in Step(s, u, act).s.threads
    ensures By(Grown(u, s.added, Step(s, u, act).s.added), t) + Adding(Step(s, u, act).s.threads[t])
         == Adding(s.threads[t]) + Passed([(u, act)], t)
  {
    hide Step, Inv, Adding, By, Grown, Passed;
    var s' := Step(s, u, act).s;
    OneCall(u, act, t);
    LogsGrow(s, u, act);
    OneEntry(u, s.added, s'.added, t);
    if u == t {
      if s.threads[t].Advanced? && s.threads[t].op.Add? {
        CountsItsArgument(s, t);
      }
      OwnAdd(s, t, act);
    } else {
      OthersOwe(s, u, act, t);
    }
  }

  lemma StepRemoves(s: System, u: nat, act: Action, t: nat)
    requires Step(s, u, act).Ok? && t in s.threads
    ensures t in Step(s, u, act).s.threads
    ensures var s' := Step(s, u, act).s;
            var out := By(Grown(u, s.removed, s'.removed), t);
            && |out| + Removing(s'.threads[t]) == Removing(s.threads[t]) + RemoveCalls([(u, act)], t)
            && InHand(s.threads[t]) + out == ReturnedBy(s, u, act, t) + InHand(s'.threads[t])
  {
    hide Step, Removing, InHand, By, Grown, RemoveCalls;
    var s' := Step(s, u, act).s;
    OneCall(u, act, t);
    LogsGrow(s, u, act);
    OneEntry(u, s.removed, s'.removed, t);
    if u == t {
      OwnRemove(s, t, act);
    } else {
      OthersOwe(s, u, act, t);
    }
  }

  lemma StepLogs(s: System, u: nat, act: Action)
    requires Step(s, u, act).Ok?
    ensures var s' := Step(s, u, act).s;
            && s'.added == s.added + Values(Grown(u, s.added, s'.added))
            && s'.removed == s.removed + Values(Grown(u, s.removed, s'.removed))
  {
    var s' := Step(s, u, act).s;
    OneValue(u, s.added, s'.added);
    OneValue(u, s.removed, s'.removed);
  }

  lemma FirstCall(acts: seq<(nat, Action)>, t: nat)
    requires acts != []
    ensures Passed(acts, t) == Passed([acts[0]], t) + Passed(acts[1..], t)
    ensures RemoveCalls(acts, t) == RemoveCalls([acts[0]], t) + RemoveCalls(acts[1..], t)
  {
    var one: seq<(nat, Action)> := [acts[0]];
    assert one[1..] == [];
  }

  // ----- runs

  lemma {:induction false} RunAdds(s: System, acts: seq<(nat, Action)>, s': System, t: nat)
    requires Inv(s) && Reaches(s, acts, s') && t in s.threads
    ensures t in s'.threads
    ensures By(Entering(s, acts), t) + Adding(s'.threads[t]) == Adding(s.threads[t]) + Passed(acts, t)
    decreases |acts|
  {
    hide Step, Inv, Adding, By, Passed, Grown;
    if acts == [] {
      Nothing(t);
      assert [] + Adding(s.threads[t]) == Adding(s.threads[t]) + [];
    } else {
      var (u, act) := acts[0];
      var s1 := Step(s, u, act).s;
      var g, later := Grown(u, s.added, s1.added), Entering(s1, acts[1..]);
      InvKept(s, u, act);
      StepAdds(s, u, act, t);
      RunAdds(s1, acts[1..], s', t);
      ByConcat(g, later, t);
      FirstCall(acts, t);
      var a, b, c := By(g, t), By(later, t), Adding(s'.threads[t]);
      assert a + b + c == a + (b + c);
      assert a + (Adding(s1.threads[t]) + Passed(acts[1..], t)) == a + Adding(s1.threads[t]) + Passed(acts[1..], t);
      assert Adding(s.threads[t]) + Passed([acts[0]], t) + Passed(acts[1..], t)
          == Adding(s.threads[t]) + (Passed([acts[0]], t) + Passed(acts[1..], t));
    }
  }

  lemma Nothing(t: nat)
    ensures By<int>([], t) == [] && Values<int>([]) == [] && Passed([], t) == [] && RemoveCalls([], t) == 0
  {
  }

  lemma {:induction false} RunRemoves(s: System, acts: seq<(nat, Action)>, s': System, t: nat)
    requires Inv(s) && Reaches(s, acts, s') && t in s.threads
    ensures t in s'.threads
    ensures var out := By(LeavingQueue(s, acts), t);
            && |out| + Removing(s'.threads[t]) == Removing(s.threads[t]) + RemoveCalls(acts, t)
            && InHand(s.threads[t]) + out == Returned(s, acts, t) + InHand(s'.threads[t])
    decreases |acts|
  {
    hide Step, Inv, Removing, InHand, By, RemoveCalls, Grown, ReturnedBy;
    if acts == [] {
      Nothing(t);
      assert InHand(s.threads[t]) + [] == [] + InHand(s.threads[t]);
    } else {
      var (u, act) := acts[0];
      var s1 := Step(s, u, act).s;
      var g, later := Grown(u, s.removed, s1.removed), LeavingQueue(s1, acts[1..]);
      InvKept(s, u, act);
      StepRemoves(s, u, act, t);
      RunRemoves(s1, acts[1..], s', t);
      ByConcat(g, later, t);
      FirstCall(acts, t);
      var h0, h1, h2 := InHand(s.threads[t]), InHand(s1.threads[t]), InHand(s'.threads[t]);
      var r0, r1 := ReturnedBy(s, u, act, t), Returned(s1, acts[1..], t);
      assert h0 + (By(g, t) + By(later, t)) == h0 + By(g, t) + By(later, t);
      assert r0 + h1 + By(later, t) == r0 + (h1 + By(later, t));
      assert r0 + (r1 + h2) == r0 + r1 + h2;
    }
  }

  lemma {:induction false} RunLogs(s: System, acts: seq<(nat, Action)>, s': System)
    requires Reaches(s, acts, s')
    ensures s'.added == s.added + Values(Entering(s, acts)) && s'.removed == s.removed + Values(LeavingQueue(s, acts))
    decreases |acts|
  {
    hide Step, Values, Grown;
    if acts == [] {
      Nothing(0);
      assert s.added + [] == s.added && s.removed + [] == s.removed;
    } else {
      var (u, act) := acts[0];
      var s1 := Step(s, u, act).s;
      StepLogs(s, u, act);
      RunLogs(s1, acts[1..], s');
      ValuesConcat(Grown(u, s.added, s1.added), Entering(s1, acts[1..]));
      ValuesConcat(Grown(u, s.removed, s1.removed), LeavingQueue(s1, acts[1..]));
      assert s.added + Values(Grown(u, s.added, s1.added)) + Values(Entering(s1, acts[1..]))
          == s.added + (Values(Grown(u, s.added, s1.added)) + Values(Entering(s1, acts[1..])));
      assert s.removed + Values(Grown(u, s.removed, s1.removed)) + Values(LeavingQueue(s1, acts[1..]))
          == s.removed + (Values(Grown(u, s.removed, s1.removed)) + Values(LeavingQueue(s1, acts[1..])));
    }
  }

  /** Over every interleaving: the values that entered the queue are an interleaving of what the
      threads passed to Queue_add, each in its own order and but for one still in progress; those that
      left it are one for each completed Queue_remove, which returns it; and what left, in order,
      is a beginning of what entered. */
  lemma CallersAreServed(s: System, capacity: nat, acts: seq<(nat, Action)>, s': System)
    requires Fresh(s, capacity) && Reaches(s, acts, s')
    ensures Inv(s') && s'.added == Values(Entering(s, acts)) && s'.removed == Values(LeavingQueue(s, acts))
    ensures forall t <- s.threads ::
              && t in s'.threads
              && By(Entering(s, acts), t) + Adding(s'.threads[t]) == Passed(acts, t)
              && |By(LeavingQueue(s, acts), t)| + Removing(s'.threads[t]) == RemoveCalls(acts, t)
              && By(LeavingQueue(s, acts), t) == Returned(s, acts, t) + InHand(s'.threads[t])
    ensures s'.removed <= s'.added
  {
    EveryInterleaving(s, capacity, acts, s');
    FreshInv(s, capacity);
    RunLogs(s, acts, s');
    forall t <- s.threads
      ensures t in s'.threads
      ensures By(Entering(s, acts), t) + Adding(s'.threads[t]) == Passed(acts, t)
      ensures |By(LeavingQueue(s, acts), t)| + Removing(s'.threads[t]) == RemoveCalls(acts, t)
      ensures By(LeavingQueue(s, acts), t) == Returned(s, acts, t) + InHand(s'.threads[t])
    {
      RunAdds(s, acts, s', t);
      RunRemoves(s, acts, s', t);
    }
    RemovedIsPrefix(s');
  }

  lemma FreshInv(s: System, capacity: nat)
    requires Fresh(s, capacity)
    ensures Inv(s)
  {
    assert Reaches(s, [], s);
    EveryInterleaving(s, capacity, [], s);
  }

  lemma RemovedIsPrefix(s: System)
    requires Inv(s)
    ensures s.removed <= s.added
  {
    hide Exclusive, NoLostWakeup;
    PrefixAt(s.ring, OwnerPc(s), s.added, s.removed);
  }

  lemma PrefixAt(ring: Ring, pc: Pc, added: seq<int>, removed: seq<int>)
    requires RingAt(ring, pc, added, removed)
    ensures removed <= added
  {
    if pc.Advanced? && pc.op.Add? {
      var whole := removed + Window(ring.q, ring.first, ring.size + 1);
      assert added == whole[..|added|] && removed == whole[..|removed|];
    }
  }
}
