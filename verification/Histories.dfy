/** Logs read off a run: which thread's step made a record grow, and by what. */
module Histories {

  datatype Entry<T> = Entry(t: nat, v: T)

  /** The last value of `after`, when it is longer than `before`, with the thread that put it there. */
  function Grown<T>(t: nat, before: seq<T>, after: seq<T>): seq<Entry<T>> {
    if |before| < |after| then [Entry(t, after[|after| - 1])] else []
  }

  /** The values of a log, in order. */
  function Values<T>(log: seq<Entry<T>>): seq<T> {
    if log == [] then [] else [log[0].v] + Values(log[1..])
  }

  /** The values of one thread, in order. */
  function By<T>(log: seq<Entry<T>>, t: nat): seq<T> {
    if log == [] then [] else (if log[0].t == t then [log[0].v] else []) + By(log[1..], t)
  }

  lemma ByFirst<T>(log: seq<Entry<T>>, t: nat)
    requires log != []
    ensures By(log, t) == (if log[0].t == t then [log[0].v] else []) + By(log[1..], t)
  {
  }

  lemma {:induction false} ByConcat<T>(a: seq<Entry<T>>, b: seq<Entry<T>>, t: nat)
    ensures By(a + b, t) == By(a, t) + By(b, t)
  {
    if a == [] {
      assert a + b == b;
    } else {
      assert (a + b)[0] == a[0] && (a + b)[1..] == a[1..] + b;
      ByConcat(a[1..], b, t);
      ByFirst(a, t);
      ByFirst(a + b, t);
      hide By;
      var head := if a[0].t == t then [a[0].v] else [];
      assert head + (By(a[1..], t) + By(b, t)) == head + By(a[1..], t) + By(b, t);
    }
  }

  lemma {:induction false} ValuesConcat<T>(a: seq<Entry<T>>, b: seq<Entry<T>>)
    ensures Values(a + b) == Values(a) + Values(b)
  {
    if a == [] {
      assert a + b == b;
    } else {
      assert (a + b)[1..] == a[1..] + b;
      ValuesConcat(a[1..], b);
    }
  }

  /** A record that grows by at most one value at a time. */
  ghost predicate Follows<T>(before: seq<T>, after: seq<T>) {
    after == before || (|after| == |before| + 1 && after[..|before|] == before)
  }

  lemma OneValue<T>(t: nat, before: seq<T>, after: seq<T>)
    requires Follows(before, after)
    ensures after == before + Values(Grown(t, before, after))
  {
    if after != before {
      var one := [Entry(t, after[|before|])];
      assert one[1..] == [];
      assert after == before + [after[|before|]];
    }
  }

  lemma OneEntry<T>(u: nat, before: seq<T>, after: seq<T>, t: nat)
    requires Follows(before, after)
    ensures By(Grown(u, before, after), t) == if u == t && after != before then [after[|before|]] else []
  {
    if after != before {
      var one := [Entry(u, after[|before|])];
      assert one[1..] == [];
    }
  }
}
