/** The ring of functors that are ready to run. */
module FunctorLists {
  import opened Rings

  /** A posted function and its argument; 0 is NULL. */
  datatype Functor = Functor(f: nat, arg: nat)

  /** runloop_post asserts that neither the function nor its argument is NULL. */
  predicate Usable(func: Functor) { func.f != 0 && func.arg != 0 }

  class FunctorList {
    const list: array<Functor>
    const capacity: nat
    var head: nat
    var tailPlus: nat

    ghost predicate Valid()
      reads this
    {
      && 0 < capacity && list.Length == capacity + 1
      && head < capacity && tailPlus < capacity
    }

    /** The functors in the order they will be removed. */
    ghost function Contents(): seq<Functor>
      requires Valid()
      reads this, list
    {
      Window(list[..capacity], Bump(tailPlus, capacity), Distance(tailPlus, head, capacity))
    }

    constructor (capacity: nat)
      requires capacity > 0
      ensures Valid() && this.capacity == capacity && Contents() == [] && fresh(list)
    {
      this.capacity := capacity;
      list := new Functor[capacity + 1];
      head, tailPlus := 0, 0;
    }

    /** functor_list_size: the modular formula is exact, and one slot always stays free. */
    function Size(): (n: nat)
      requires Valid()
      reads this, list
      ensures n == |Contents()| && n <= capacity - 1
    {
      Distance(tailPlus, head, capacity)
    }

    /** functor_list_add; its assertion fails when `!ok`, which is exactly when the ring holds
        capacity - 1 functors. */
    method Add(func: Functor) returns (ok: bool)
      requires Valid()
      modifies this`head, list
      ensures Valid()
      ensures ok <==> |old(Contents())| < capacity - 1
      ensures Contents() == if ok then old(Contents()) + [func] else old(Contents())
    {
      var tmp := Bump(head, capacity);
      if tmp == tailPlus {
        return false;
      }
      ghost var slots := list[..capacity];
      WindowExtends(slots, Bump(tailPlus, capacity), Size(), func);
      head := tmp;
      list[head] := func;
      assert list[..capacity] == slots[tmp := func];
      return true;
    }

    /** functor_list_remove; its assertion fails when `!ok`, which is exactly when it is empty. */
    method Remove() returns (ok: bool, func: Functor)
      requires Valid()
      modifies this`tailPlus
      ensures Valid()
      ensures ok <==> old(Contents()) != []
      ensures ok ==> old(Contents()) == [func] + Contents()
      ensures !ok ==> Contents() == []
    {
      if Size() == 0 {
        return false, Functor(0, 0);
      }
      WindowShrinks(list[..capacity], Bump(tailPlus, capacity), Size());
      tailPlus := Bump(tailPlus, capacity);
      return true, list[tailPlus];
    }
  }
}
