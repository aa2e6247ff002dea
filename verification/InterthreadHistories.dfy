/** The cross-thread queue seen from its callers: what each thread passed to itqueue_add, read off the
    actions of a run, against the functors that are posted to the runloop. */
module InterthreadHistories {
  import opened FunctorLists
  import opened Histories
  import opened Interthread

  /** What thread `t` passed to itqueue_add, in order. */
  function Passed(acts: seq<(nat, Action)>, t: nat): seq<Functor> {
    if acts == [] then [] else
    (match acts[0].1 case BeginAdd(func) => if acts[0].0 == t then [func] else [] case _ => [])
    + Passed(acts[1..], t)
  }

  /** How many functors a run put on the ready ring of the runloop, less those it ran. */
  function RingChange(acts: seq<(nat, Action)>): int {
    if acts == [] then 0 else
    (match acts[0].1 case Post => 1 case OtherPost => 1 case RunReady => -1 case _ => 0) + RingChange(acts[1..])
  }

  /** The functors that are listed during a run, each with the thread whose step it was. */
  ghost function Listing(s: System, acts: seq<(nat, Action)>): seq<Entry<Functor>>
    decreases |acts|
  {
    if acts == [] || !Step(s, acts[0].0, acts[0].1).Ok? then [] else
    var s1 := Step(s, acts[0].0, acts[0].1).s;
    Grown(acts[0].0, s.added, s1.added) + Listing(s1, acts[1..])
  }

  /** The argument of an addition that is not listed yet. */
  function Adding(a: Adder): seq<Functor> { if a.AddLocking? || a.AddLocked? then [a.func] else [] }

  // ----- one step

  lemma OthersOwe(s: System, u: nat, act: Action, t: nat)
    requires Step(s, u, act).Ok? && t in s.adders && t != u
    ensures var s' := Step(s, u, act).s; t in s'.adders && s'.adders[t] == s.adders[t]
  {
  }

  lemma OwnAdd(s: System, t: nat, act: Action)
    requires Step(s, t, act).Ok? && t in s.adders
    ensures var s' := Step(s, t, act).s;
            && t in s'.adders && (act.BeginAdd? ==> Adding(s.adders[t]) == [])
            && (if act.ListAdd? then s'.added == s.added + Adding(s.adders[t]) && Adding(s'.adders[t]) == []
                                     && |Adding(s.adders[t])| == 1
                else s'.added == s.added
                     && Adding(s'.adders[t]) == if act.BeginAdd? then [act.func] else Adding(s.adders[t]))
  {
  }

  lemma LogGrows(s: System, u: nat, act: Action)
    requires Step(s, u, act).Ok?
    ensures Follows(s.added, Step(s, u, act).s.added)
    ensures Step(s, u, act).s.ready == s.ready + RingChange([(u, act)])
  {
    var one: seq<(nat, Action)> := [(u, act)];
    assert one[1..] == [];
  }

  lemma OneCall(u: nat, act: Action, t: nat)
    ensures Passed([(u, act)], t) == if u == t && act.BeginAdd? then [act.func] else []
  {
    var one: seq<(nat, Action)> := [(u, act)];
    assert one[1..] == [];
  }

  lemma StepAdds(s: System, u: nat, act: Action, t: nat)
    requires Step(s, u, act).Ok? && t in s.adders
    ensures t in Step(s, u, act).s.adders
    ensures By(Grown(u, s.added, Step(s, u, act).s.added), t) + Adding(Step(s, u, act).s.adders[t])
         == Adding(s.adders[t]) + Passed([(u, act)], t)
  {
    hide Step, AdderStep, Adding, By, Grown, Passed;
    OneCall(u, act, t);
    LogGrows(s, u, act);
    OneEntry(u, s.added, Step(s, u, act).s.added, t);
    if u == t {
      OwnAdd(s, t, act);
    } else {
      OthersOwe(s, u, act, t);
    }
  }

  // ----- runs

  lemma FirstCall(acts: seq<(nat, Action)>, t: nat)
    requires acts != []
    ensures Passed(acts, t) == Passed([acts[0]], t) + Passed(acts[1..], t)
    ensures RingChange(acts) == RingChange([acts[0]]) + RingChange(acts[1..])
  {
    var one: seq<(nat, Action)> := [acts[0]];
    assert one[1..] == [];
  }

  lemma Nothing(t: nat)
    ensures By<Functor>([], t) == [] && Values<Functor>([]) == [] && Passed([], t) == [] && RingChange([]) == 0
  {
  }

  lemma {:induction false} RunAdds(s: System, acts: seq<(nat, Action)>, s': System, t: nat)
    requires Reaches(s, acts, s') && t in s.adders
    ensures t in s'.adders
    ensures By(Listing(s, acts), t) + Adding(s'.adders[t]) == Adding(s.adders[t]) + Passed(acts, t)
    decreases |acts|
  {
    hide Step, Adding, By, Passed, Grown;
    if acts == [] {
      Nothing(t);
      assert [] + Adding(s.adders[t]) == Adding(s.adders[t]) + [];
    } else {
      var (u, act) := acts[0];
      var s1 := Step(s, u, act).s;
      var g, later := Grown(u, s.added, s1.added), Listing(s1, acts[1..]);
      StepAdds(s, u, act, t);
      RunAdds(s1, acts[1..], s', t);
      ByConcat(g, later, t);
      FirstCall(acts, t);
      var a, b, c := By(g, t), By(later, t), Adding(s'.adders[t]);
      assert a + b + c == a + (b + c);
      assert a + (Adding(s1.adders[t]) + Passed(acts[1..], t)) == a + Adding(s1.adders[t]) + Passed(acts[1..], t);
      assert Adding(s.adders[t]) + Passed([acts[0]], t) + Passed(acts[1..], t)
          == Adding(s.adders[t]) + (Passed([acts[0]], t) + Passed(acts[1..], t));
    }
  }

  lemma {:induction false} RunLog(s: System, acts: seq<(nat, Action)>, s': System)
    requires Reaches(s, acts, s')
    ensures s'.added == s.added + Values(Listing(s, acts)) && s'.ready == s.ready + RingChange(acts)
    decreases |acts|
  {
    hide Step, Values, Grown, RingChange;
    if acts == [] {
      Nothing(0);
      assert s.added + [] == s.added;
    } else {
      var (u, act) := acts[0];
      var s1 := Step(s, u, act).s;
      LogGrows(s, u, act);
      FirstCall(acts, 0);
      OneValue(u, s.added, s1.added);
      RunLog(s1, acts[1..], s');
      var g, later := Grown(u, s.added, s1.added), Listing(s1, acts[1..]);
      ValuesConcat(g, later);
      assert s.added + Values(g) + Values(later) == s.added + (Values(g) + Values(later));
    }
  }

  /** Over every interleaving: the functors listed are an interleaving of what the threads passed to
      itqueue_add, each in its own order and but for one still in progress; the runloop is posted
      a beginning of them, in order; and its ring holds what was posted and not yet run. */
  lemma CallersAreServed(s: System, acts: seq<(nat, Action)>, s': System)
    requires Fresh(s) && Reaches(s, acts, s')
    ensures s'.added == Values(Listing(s, acts)) && s'.posted <= s'.added && s'.ready == RingChange(acts)
    ensures forall t <- s.adders ::
              t in s'.adders && By(Listing(s, acts), t) + Adding(s'.adders[t]) == Passed(acts, t)
  {
    RunLog(s, acts, s');
    NotificationIsSafe(s, acts, s');
    assert s'.posted <= s'.posted + InHand(s'.consumer) + s'.list;
    forall t <- s.adders
      ensures t in s'.adders && By(Listing(s, acts), t) + Adding(s'.adders[t]) == Passed(acts, t)
    {
      RunAdds(s, acts, s', t);
    }
  }
}
