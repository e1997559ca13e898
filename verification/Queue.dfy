/** queue.c: a first-in first-out queue over a singly linked list. */
module Queues {
  import opened LinkedLists

  class Queue<T> {
    var list: LinkedList<T>

    ghost var contents: seq<T>
    ghost var Repr: set<object>

    ghost predicate Valid()
      reads this, Repr
      ensures Valid() ==> this in Repr
    {
      && this in Repr && list in Repr && list.Repr <= Repr && this !in list.Repr
      && list.Valid() && contents == list.contents
    }

    /** init_queue */
    constructor ()
      ensures Valid() && fresh(Repr) && contents == []
    {
      list := new LinkedList();
      contents := [];
      new;
      Repr := {this} + list.Repr;
    }

    /** get_size_queue */
    method GetSize() returns (size: nat)
      requires Valid()
      ensures size == |contents|
    {
      size := list.size;
    }

    /** is_empty_queue */
    method IsEmpty() returns (empty: bool)
      requires Valid()
      ensures empty <==> contents == []
    {
      empty := list.size == 0;
    }

    /** peek_queue */
    method Peek() returns (x: T)
      requires Valid() && contents != []
      ensures x == contents[0]
    {
      x := list.head.data;
    }

    /** pop_queue */
    method Pop() returns (x: T)
      requires Valid() && contents != []
      modifies Repr
      ensures Valid() && Repr == old(Repr)
      ensures x == old(contents)[0] && contents == old(contents)[1..]
    {
      var node := list.RemoveNth(0);
      x := node.data;
      contents := list.contents;
    }

    /** push_queue */
    method Push(x: T)
      requires Valid()
      modifies Repr
      ensures Valid() && fresh(Repr - old(Repr))
      ensures contents == old(contents) + [x]
    {
      list.AddNth(list.size, x);
      contents := list.contents;
      Repr := Repr + list.Repr;
    }
  }
}
