/** The slot allocator: a fixed table of slots and a circular list of the free ones. */
module EventTables {
  import opened Rings
  import opened Sequences

  // ----- the allocator as a value

  /** Free slots in the order they will be handed out, and the slots in use. */
  datatype Table = Table(max: nat, free: seq<nat>, live: set<nat>)

  datatype Op = Get | Release(slot: nat)

  function Elements(s: seq<nat>): set<nat> { set x <- s }

  predicate IsSlot(i: nat, max: nat) { i < max }

  function Slots(max: nat): set<nat> { set i: nat | i < max && IsSlot(i, max) }

  /** Every slot is either free, once, or in use. */
  predicate Partition(t: Table) {
    Distinct(t.free) && Elements(t.free) !! t.live && Elements(t.free) + t.live == Slots(t.max)
  }

  predicate Enabled(t: Table, op: Op) {
    match op
    case Get => t.free != []
    case Release(slot) => slot in t.live
  }

  function Step(t: Table, op: Op): Table
    requires Enabled(t, op)
  {
    match op
    case Get => t.(free := t.free[1..], live := t.live + {t.free[0]})
    case Release(slot) => t.(free := t.free + [slot], live := t.live - {slot})
  }

  lemma {:induction false} DistinctSize(s: seq<nat>)
    requires Distinct(s)
    ensures |Elements(s)| == |s|
  {
    if s != [] {
      var front, last := s[..|s| - 1], s[|s| - 1];
      DistinctSize(front);
      assert Elements(s) == Elements(front) + {last};
      assert last !in Elements(front);
    }
  }

  lemma {:induction false} SlotsSize(max: nat)
    ensures |Slots(max)| == max
  {
    if max > 0 {
      SlotsSize(max - 1);
      assert Slots(max) == Slots(max - 1) + {max - 1};
    }
  }

  /** The number of free slots and the number in use add up. */
  lemma InUse(t: Table)
    requires Partition(t)
    ensures |t.live| == t.max - |t.free| && |t.free| <= t.max
  {
    DistinctSize(t.free);
    SlotsSize(t.max);
    assert |Elements(t.free) + t.live| == |Elements(t.free)| + |t.live|;
  }

  lemma StepKeepsPartition(t: Table, op: Op)
    requires Partition(t) && Enabled(t, op)
    ensures Partition(Step(t, op))
    ensures op.Get? ==> t.free[0] !in t.live && t.free[0] < t.max
  {
    match op {
      case Get =>
        assert t.free == [t.free[0]] + t.free[1..];
        assert Elements(t.free) == {t.free[0]} + Elements(t.free[1..]);
        assert t.free[0] in Slots(t.max);
      case Release(slot) =>
        assert Elements(t.free + [slot]) == Elements(t.free) + {slot};
    }
  }

  function Run(t: Table, ops: seq<Op>): Table
    requires Runs(t, ops)
    decreases |ops|
  {
    if ops == [] then t else Run(Step(t, ops[0]), ops[1..])
  }

  predicate Runs(t: Table, ops: seq<Op>)
    decreases |ops|
  {
    ops == [] || (Enabled(t, ops[0]) && Runs(Step(t, ops[0]), ops[1..]))
  }

  /** Over any run that releases only live slots, the free list and the live set partition the
      slots; gets minus releases is the number in use. */
  lemma {:induction false} EveryRun(t: Table, ops: seq<Op>)
    requires Partition(t) && Runs(t, ops)
    ensures Partition(Run(t, ops)) && Run(t, ops).max == t.max
    ensures |Run(t, ops).live| == |t.live| + Gets(ops) - Releases(ops)
    decreases |ops|
  {
    if ops != [] {
      hide Partition;
      StepKeepsPartition(t, ops[0]);
      LiveCount(t, ops[0]);
      EveryRun(Step(t, ops[0]), ops[1..]);
    }
  }

  lemma LiveCount(t: Table, op: Op)
    requires Partition(t) && Enabled(t, op)
    ensures |Step(t, op).live| == |t.live| + (if op.Get? then 1 else -1)
  {
    StepKeepsPartition(t, op);
  }

  function Gets(ops: seq<Op>): int {
    if ops == [] then 0 else (if ops[0].Get? then 1 else 0) + Gets(ops[1..])
  }

  function Releases(ops: seq<Op>): int {
    if ops == [] then 0 else (if ops[0].Release? then 1 else 0) + Releases(ops[1..])
  }

  /** The slots a run handed out, in order: those that became live. */
  ghost function Handed(t: Table, ops: seq<Op>): seq<nat>
    requires Runs(t, ops)
    decreases |ops|
  {
    if ops == [] then [] else
    var t1 := Step(t, ops[0]);
    var slots: seq<nat> := if ops[0].Get? && t1.live != t.live then [NewIn(t.live, t1.live)] else [];
    slots + Handed(t1, ops[1..])
  }

  ghost function NewIn(before: set<nat>, after: set<nat>): nat
    requires after != before
  {
    if exists x :: x in after && x !in before then var x :| x in after && x !in before; x else 0
  }

  /** The slots given back, in order. */
  function Returned(ops: seq<Op>): seq<nat> {
    if ops == [] then [] else (match ops[0] case Get => [] case Release(slot) => [slot]) + Returned(ops[1..])
  }

  lemma GetHandsOut(t: Table)
    requires Partition(t) && t.free != []
    ensures Step(t, Get).live != t.live && NewIn(t.live, Step(t, Get).live) == t.free[0]
  {
    StepKeepsPartition(t, Get);
    hide Partition;
    assert t.free[0] in Step(t, Get).live;
  }

  /** The first operation of a run. */
  lemma HandedFirst(t: Table, ops: seq<Op>)
    requires Partition(t) && Runs(t, ops) && ops != []
    ensures Runs(Step(t, ops[0]), ops[1..]) && Run(t, ops) == Run(Step(t, ops[0]), ops[1..])
    ensures Handed(t, ops) == (if ops[0].Get? then [t.free[0]] else []) + Handed(Step(t, ops[0]), ops[1..])
    ensures Returned(ops) == (if ops[0].Get? then [] else [ops[0].slot]) + Returned(ops[1..])
  {
    if ops[0].Get? {
      GetHandsOut(t);
    }
    hide Partition, NewIn;
  }

  /** What goes in front and what goes behind balance. */
  lemma Balance(a: seq<nat>, handed: seq<nat>, free: seq<nat>, rest: seq<nat>, b: seq<nat>, back: seq<nat>)
    requires handed + free == rest + b + back
    ensures a + handed + free == a + rest + (b + back)
  {
    assert a + handed + free == a + (handed + free);
    assert a + (rest + b + back) == a + rest + (b + back);
  }

  /** Over any run slots are reused in the order they were given back: those handed out, and then the
      free list, are the free list at the start and then those given back. */
  lemma {:induction false} ReusedInOrder(t: Table, ops: seq<Op>)
    requires Partition(t) && Runs(t, ops)
    ensures Handed(t, ops) + Run(t, ops).free == t.free + Returned(ops)
    decreases |ops|
  {
    if ops == [] {
      assert [] + t.free == t.free + [];
    } else {
      var t1, rest := Step(t, ops[0]), ops[1..];
      StepKeepsPartition(t, ops[0]);
      HandedFirst(t, ops);
      ReusedInOrder(t1, rest);
      hide Partition, Handed, Returned, Run, Runs;
      var end := Run(t1, rest).free;
      if ops[0].Get? {
        assert t.free == [t.free[0]] + t1.free && t1.free + [] == t1.free;
        Balance([t.free[0]], Handed(t1, rest), end, t1.free, [], Returned(rest));
      } else {
        Balance([], Handed(t1, rest), end, t.free, [ops[0].slot], Returned(rest));
        assert [] + t.free == t.free;
      }
    }
  }

  // ----- the allocator in memory

  class EventTable {
    const max: nat            // max_entries; indices run modulo max + 1
    const buffer: array<nat>  // the free list
    const myIndex: array<nat> // my_index of each slab
    var count: nat
    var rdix: nat
    var wrix: nat
    ghost var live: set<nat>

    ghost predicate Shape()
      reads this
    {
      && buffer.Length == max + 1 && myIndex.Length == max + 1 && buffer != myIndex
      && count <= max && rdix <= max && wrix == Ahead(rdix, count, max + 1)
    }

    ghost function Value(): Table
      requires Shape()
      reads this, buffer
    {
      Table(max, Window(buffer[..], rdix, count), live)
    }

    /** The table partitions the slots, and every live slab knows its own index. */
    ghost predicate Valid()
      reads this, buffer, myIndex
    {
      Shape() && Partition(Value()) && forall ix <- live :: ix < max && myIndex[ix] == ix
    }

    /** event_table_init with freelist_init. */
    constructor (max: nat)
      ensures Valid() && this.max == max && live == {} && fresh(buffer) && fresh(myIndex)
      ensures Value().free == seq(max, i => i)
    {
      this.max := max;
      buffer := new nat[max + 1];
      myIndex := new nat[max + 1];
      count, rdix, wrix, live := 0, 0, 0, {};
      new;
      var i := 0;
      while i < max
        invariant 0 <= i <= max && Shape() && rdix == 0 && count == i && live == {}
        invariant forall k :: 0 <= k < i ==> buffer[k] == k
      {
        FreelistAdd(i);
        i := i + 1;
      }
      var free := Value().free;
      assert free == seq(max, i => i);
      assert Elements(free) == Slots(max) by {
        forall k: nat | k < max ensures k in Elements(free) {
          assert free[k] == k;
        }
      }
    }

    /** freelist_add. */
    method FreelistAdd(element: nat)
      requires Shape() && count < max
      modifies this`count, this`wrix, buffer
      ensures Shape() && Value().free == old(Value().free) + [element]
      ensures count == old(count) + 1 && buffer[..] == old(buffer[..])[old(wrix) := element]
    {
      WindowExtends(buffer[..], rdix, count, element);
      ghost var slots := buffer[..];
      count := count + 1;
      buffer[wrix] := element;
      assert buffer[..] == slots[wrix := element];
      wrix := Bump(wrix, max + 1);
    }

    /** freelist_get. */
    method FreelistGet() returns (v: nat)
      requires Shape() && count > 0
      modifies this`count, this`rdix
      ensures Shape() && old(Value().free) == [v] + Value().free
    {
      WindowShrinks(buffer[..], rdix, count);
      v := buffer[rdix];
      count := count - 1;
      rdix := Bump(rdix, max + 1);
    }

    /** event_table_get_entry: never a live slot. */
    method GetEntry() returns (slot: nat)
      requires Valid() && count > 0
      modifies this`count, this`rdix, this`live, myIndex
      ensures Valid() && Value() == Step(old(Value()), Get) && slot == old(Value()).free[0] && slot !in old(live)
    {
      ghost var before := Value();
      StepKeepsPartition(before, Get);
      slot := FreelistGet();
      assert before.free[1..] == Value().free;
      myIndex[slot] := slot;
      live := live + {slot};
    }

    /** event_table_release_entry, on a slab in use. */
    method ReleaseEntry(slot: nat)
      requires Valid() && slot in live
      modifies this`count, this`wrix, this`live, buffer
      ensures Valid() && Value() == Step(old(Value()), Release(slot))
    {
      ghost var before := Value();
      InUse(before);
      assert count < max by { assert live != {}; }
      StepKeepsPartition(before, Release(slot));
      var ix := myIndex[slot];
      FreelistAdd(ix);
      live := live - {slot};
    }

    /** event_table_number_in_use. */
    method NumberInUse() returns (n: nat)
      requires Valid()
      ensures n == |live|
    {
      InUse(Value());
      n := max - count;
    }

    /** event_table_has_outstanding_events. */
    method HasOutstanding() returns (b: bool)
      requires Valid()
      ensures b <==> live != {}
    {
      InUse(Value());
      b := count != max;
    }
  }
}
