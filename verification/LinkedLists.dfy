/** The doubly linked list.  An iterator is a node of the list; items are opaque, 0 is NULL. */
module LinkedLists {
  import opened Sequences

  class Node {
    var forward: Node?
    var backward: Node?
    var item: int

    constructor (item: int, prev: Node?, next: Node?)
      ensures this.item == item && forward == next && backward == prev
    {
      this.item, forward, backward := item, next, prev;
    }
  }

  function Without<T>(s: seq<T>, k: nat): seq<T>
    requires k < |s|
  {
    s[..k] + s[k + 1..]
  }

  class List {
    var count: int
    var head: Node?
    var tail: Node?
    ghost var nodes: seq<Node>  // the nodes from head to tail

    /** Head and tail are the ends, links are mirrored, no node occurs twice, the count is right. */
    ghost predicate Valid()
      reads this, nodes
    {
      && count == |nodes|
      && (nodes == [] ==> head == null && tail == null)
      && (nodes != [] ==> head == nodes[0] && tail == nodes[|nodes| - 1])
      && Distinct(nodes)
      && Linked(nodes)
    }

    ghost function Items(): (items: seq<int>)
      reads this, nodes
      ensures |items| == |nodes|
    {
      ItemsOf(nodes)
    }

    constructor ()
      ensures Valid() && nodes == []
    {
      count, head, tail, nodes := 0, null, null, [];
    }

    /** The pointer changes of List_add_front. */
    method LinkAtFront(node: Node)
      requires Valid() && node !in nodes && node.forward == null && node.backward == null
      modifies this`head, this`tail, node, nodes
      ensures head == node && tail == if nodes == [] then node else nodes[|nodes| - 1]
      ensures Linked([node] + nodes) && ItemsOf([node] + nodes) == [old(node.item)] + old(ItemsOf(nodes))
    {
      if count == 0 {
        head, tail := node, node;
      } else {
        node.forward := head;
        node.backward := null;
        head.backward := node;
        head := node;
      }
      assert ItemsOf(nodes) == old(ItemsOf(nodes));
      LinkFront(node, nodes);
    }

    /** List_add_front. */
    method AddFront(content: int)
      requires Valid()
      modifies this, nodes
      ensures Valid() && Items() == [content] + old(Items())
      ensures |nodes| == |old(nodes)| + 1 && nodes[1..] == old(nodes) && fresh(nodes[0])
    {
      hide Linked, ItemsOf, Distinct;
      var node := new Node(content, null, null);
      DistinctFront(node, nodes);
      LinkAtFront(node);
      count := count + 1;
      nodes := [node] + nodes;
    }

    /** The pointer changes of List_add_back. */
    method LinkAtBack(node: Node)
      requires Valid() && node !in nodes && node.forward == head && node.backward == null
      modifies this`head, this`tail, node, nodes
      ensures tail == node && head == if nodes == [] then node else nodes[0]
      ensures Linked(nodes + [node]) && ItemsOf(nodes + [node]) == old(ItemsOf(nodes)) + [old(node.item)]
    {
      if count == 0 {
        tail, head := node, node;
      } else {
        node.backward := tail;
        node.forward := null;
        tail.forward := node;
        tail := node;
      }
      assert ItemsOf(nodes) == old(ItemsOf(nodes));
      LinkBack(nodes, node);
    }

    /** List_add_back. */
    method AddBack(content: int)
      requires Valid()
      modifies this, nodes
      ensures Valid() && Items() == old(Items()) + [content]
      ensures |nodes| == |old(nodes)| + 1 && nodes[..|nodes| - 1] == old(nodes) && fresh(nodes[|nodes| - 1])
    {
      hide Linked, ItemsOf, Distinct;
      var node := new Node(content, null, head);
      DistinctBack(nodes, node);
      LinkAtBack(node);
      count := count + 1;
      nodes := nodes + [node];
    }

    /** List_first. */
    method First() returns (item: int)
      requires Valid()
      ensures item == if nodes == [] then 0 else Items()[0]
    {
      if head == null {
        return 0;
      }
      return head.item;
    }

    /** List_last. */
    method Last() returns (item: int)
      requires Valid()
      ensures item == if nodes == [] then 0 else Items()[|nodes| - 1]
    {
      if tail == null {
        return 0;
      }
      return tail.item;
    }

    /** The pointer changes of List_remove_first in a list of at least two nodes. */
    method UnlinkFirst() returns (item: int)
      requires Valid() && count >= 2
      modifies this`head, nodes
      ensures item == old(ItemsOf(nodes))[0] && head == nodes[1]
      ensures LinkedBut(nodes, 0) && ItemsOf(nodes) == old(ItemsOf(nodes))[0 := 0]
    {
      var first := head;
      head := first.forward;
      head.backward := null;
      item := first.item;
      first.forward := null;
      first.backward := null;
      first.item := 0;
    }

    /** List_remove_first. */
    method RemoveFirst() returns (item: int)
      requires Valid()
      modifies this, nodes
      ensures Valid()
      ensures old(nodes) == [] ==> item == 0 && nodes == []
      ensures old(nodes) != [] ==>
                item == old(Items())[0] && nodes == Without(old(nodes), 0) && Items() == Without(old(Items()), 0)
    {
      hide Linked, LinkedBut, Distinct, ItemsOf;
      if count == 0 {
        return 0;
      }
      if count == 1 {
        count := count - 1;
        OneItem(nodes);
        item := head.item;
        head.item := 0;
        head, tail := null, null;
        nodes := [];
        NoNodes();
        return;
      }
      WithoutKeepsDistinct(nodes, 0);
      WithoutUpdated(ItemsOf(nodes), 0, 0);
      item := UnlinkFirst();
      count := count - 1;
      SkipLinks(nodes, 0);
      nodes := Without(nodes, 0);
    }

    /** The pointer changes of List_remove_last in a list of at least two nodes. */
    method UnlinkLast() returns (item: int)
      requires Valid() && count >= 2
      modifies this`tail, nodes
      ensures item == old(ItemsOf(nodes))[|nodes| - 1] && tail == nodes[|nodes| - 2]
      ensures LinkedBut(nodes, |nodes| - 1) && ItemsOf(nodes) == old(ItemsOf(nodes))[|nodes| - 1 := 0]
    {
      var last := tail;
      tail := last.backward;
      tail.forward := null;
      item := last.item;
      last.forward := null;
      last.backward := null;
      last.item := 0;
    }

    /** List_remove_last. */
    method RemoveLast() returns (item: int)
      requires Valid()
      modifies this, nodes
      ensures Valid()
      ensures old(nodes) == [] ==> item == 0 && nodes == []
      ensures old(nodes) != [] ==>
                var k := |old(nodes)| - 1;
                item == old(Items())[k] && nodes == Without(old(nodes), k) && Items() == Without(old(Items()), k)
    {
      hide Linked, LinkedBut, Distinct, ItemsOf;
      if count == 0 {
        return 0;
      }
      if count == 1 {
        count := count - 1;
        OneItem(nodes);
        item := head.item;
        head.item := 0;
        head, tail := null, null;
        nodes := [];
        NoNodes();
        return;
      }
      ghost var k := |nodes| - 1;
      WithoutKeepsDistinct(nodes, k);
      WithoutUpdated(ItemsOf(nodes), k, 0);
      item := UnlinkLast();
      count := count - 1;
      SkipLinks(nodes, k);
      nodes := Without(nodes, k);
    }

    /** List_find: the first node that holds the item. */
    method Find(needle: int) returns (itr: Node?, ghost k: nat)
      requires Valid()
      ensures k <= |nodes| && needle !in Items()[..k]
      ensures itr == null <==> k == |nodes|
      ensures itr != null ==> itr == nodes[k] && Items()[k] == needle
    {
      itr := head;
      k := 0;
      while itr != null
        invariant k <= |nodes| && itr == (if k < |nodes| then nodes[k] else null)
        invariant needle !in Items()[..k]
        decreases |nodes| - k
      {
        if itr.item == needle {
          return;
        }
        itr := itr.forward;
        k := k + 1;
      }
    }

    /** List_itr_next. */
    method Next(itr: Node, ghost k: nat) returns (next: Node?)
      requires Valid() && k < |nodes| && nodes[k] == itr
      ensures next == if k + 1 < |nodes| then nodes[k + 1] else null
    {
      next := itr.forward;
    }

    /** The pointer changes of List_itr_remove in a list of at least two nodes. */
    method Unlink(itr: Node, ghost k: nat)
      requires Valid() && k < |nodes| && nodes[k] == itr && count >= 2
      modifies this`head, this`tail, nodes
      ensures LinkedBut(nodes, k) && ItemsOf(nodes) == old(ItemsOf(nodes))
      ensures head == nodes[if k == 0 then 1 else 0]
      ensures tail == nodes[if k == |nodes| - 1 then |nodes| - 2 else |nodes| - 1]
    {
      if head == itr {
        assert k == 0;
        itr.forward.backward := itr.backward;
        head := itr.forward;
      } else if tail == itr {
        assert k == |nodes| - 1;
        itr.backward.forward := itr.forward;
        tail := itr.backward;
      } else {
        itr.forward.backward := itr.backward;
        itr.backward.forward := itr.forward;
      }
    }

    /** List_itr_remove: exactly the node pointed at goes; all others stay where they are. */
    method Remove(itr: Node, ghost k: nat)
      requires Valid() && k < |nodes| && nodes[k] == itr
      modifies this, nodes
      ensures Valid() && nodes == Without(old(nodes), k) && Items() == Without(old(Items()), k)
    {
      hide Linked, LinkedBut, Distinct, ItemsOf;
      if count == 1 {
        assert itr == head;
        OneItem(nodes);
        count := 0;
        head, tail := null, null;
        nodes := [];
        NoNodes();
        return;
      }
      WithoutKeepsDistinct(nodes, k);
      Unlink(itr, k);
      count := count - 1;
      SkipLinks(nodes, k);
      nodes := Without(nodes, k);
    }
  }

  lemma NoNodes()
    ensures Linked([]) && Distinct<Node>([]) && ItemsOf([]) == []
  {
  }

  lemma OneItem(nodes: seq<Node>)
    requires |nodes| == 1
    ensures ItemsOf(nodes) == [nodes[0].item]
  {
  }

  lemma WithoutUpdated<T>(s: seq<T>, k: nat, v: T)
    requires k < |s|
    ensures Without(s[k := v], k) == Without(s, k)
  {
  }

  lemma DistinctFront<T>(x: T, s: seq<T>)
    requires Distinct(s) && x !in s
    ensures Distinct([x] + s)
  {
  }

  lemma DistinctBack<T>(s: seq<T>, x: T)
    requires Distinct(s) && x !in s
    ensures Distinct(s + [x])
  {
  }

  lemma LinkFront(node: Node, nodes: seq<Node>)
    requires node.backward == null && node.forward == (if nodes == [] then null else nodes[0])
    requires forall i {:trigger nodes[i].forward} :: 0 <= i < |nodes| ==>
               nodes[i].forward == if i + 1 < |nodes| then nodes[i + 1] else null
    requires forall i {:trigger nodes[i].backward} :: 0 <= i < |nodes| ==>
               nodes[i].backward == if i > 0 then nodes[i - 1] else node
    ensures Linked([node] + nodes) && ItemsOf([node] + nodes) == [node.item] + ItemsOf(nodes)
  {
    var all := [node] + nodes;
    assert forall i :: 1 <= i < |all| ==> all[i] == nodes[i - 1];
  }

  lemma LinkBack(nodes: seq<Node>, node: Node)
    requires node.forward == null && node.backward == (if nodes == [] then null else nodes[|nodes| - 1])
    requires forall i {:trigger nodes[i].forward} :: 0 <= i < |nodes| ==>
               nodes[i].forward == if i + 1 < |nodes| then nodes[i + 1] else node
    requires forall i {:trigger nodes[i].backward} :: 0 <= i < |nodes| ==>
               nodes[i].backward == if i > 0 then nodes[i - 1] else null
    ensures Linked(nodes + [node]) && ItemsOf(nodes + [node]) == ItemsOf(nodes) + [node.item]
  {
    var all := nodes + [node];
    assert forall i :: 0 <= i < |nodes| ==> all[i] == nodes[i];
  }

  /** The nodes but the k-th are linked as if it were not there. */
  ghost predicate LinkedBut(nodes: seq<Node>, k: nat)
    requires k < |nodes|
    reads nodes
  {
    && (forall i {:trigger nodes[i].forward} :: 0 <= i < |nodes| && i != k ==>
          var j := if i + 1 == k then k + 1 else i + 1;
          nodes[i].forward == if j < |nodes| then nodes[j] else null)
    && (forall i {:trigger nodes[i].backward} :: 0 <= i < |nodes| && i != k ==>
          var j := if i - 1 == k then k - 1 else i - 1;
          nodes[i].backward == if j >= 0 then nodes[j] else null)
  }

  lemma SkipLinks(nodes: seq<Node>, k: nat)
    requires k < |nodes| && LinkedBut(nodes, k)
    ensures Linked(Without(nodes, k))
    ensures ItemsOf(Without(nodes, k)) == Without(ItemsOf(nodes), k)
  {
    var rest := Without(nodes, k);
    assert forall i :: 0 <= i < |rest| ==> rest[i] == nodes[if i < k then i else i + 1];
  }

  lemma WithoutKeepsDistinct<T>(s: seq<T>, k: nat)
    requires k < |s| && Distinct(s)
    ensures Distinct(Without(s, k))
  {
    var rest := Without(s, k);
    assert forall i :: 0 <= i < |rest| ==> rest[i] == s[if i < k then i else i + 1];
  }

  ghost predicate Linked(nodes: seq<Node>)
    reads nodes
  {
    && (forall i {:trigger nodes[i].forward} :: 0 <= i < |nodes| ==>
          nodes[i].forward == if i + 1 < |nodes| then nodes[i + 1] else null)
    && (forall i {:trigger nodes[i].backward} :: 0 <= i < |nodes| ==>
          nodes[i].backward == if i > 0 then nodes[i - 1] else null)
  }

  ghost function ItemsOf(nodes: seq<Node>): (items: seq<int>)
    reads nodes
    ensures |items| == |nodes|
  {
    seq(|nodes|, i requires 0 <= i < |nodes| reads nodes => nodes[i].item)
  }
}
