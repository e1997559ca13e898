/** The two list types of linked_list.c: a singly linked list, and a circular doubly
    linked one. Both refine a sequence. */
module LinkedLists {

  // Singly linked ---------------------------------------------------------------

  class LlNode<T> {
    var data: T
    var next: LlNode?<T>

    constructor (data: T)
      ensures this.data == data && next == null
    {
      this.data := data;
      next := null;
    }
  }

  /** The nodes are linked in this order, each once, and the last one ends the chain. */
  ghost predicate Chained<T>(ns: seq<LlNode<T>>)
    reads ns
  {
    && (forall i {:trigger ns[i].next} :: 0 <= i < |ns| - 1 ==> ns[i].next == ns[i + 1])
    && (|ns| > 0 ==> ns[|ns| - 1].next == null)
    && (forall i, j :: 0 <= i < j < |ns| ==> ns[i] != ns[j])
  }

  class LinkedList<T> {
    var head: LlNode?<T>
    var size: nat

    ghost var nodes: seq<LlNode<T>>
    ghost var contents: seq<T>
    ghost var Repr: set<object>

    ghost predicate Valid()
      reads this, Repr
      ensures Valid() ==> this in Repr
    {
      && this in Repr
      && (forall n :: n in nodes ==> n in Repr)
      && size == |nodes| == |contents|
      && (forall i :: 0 <= i < |nodes| ==> nodes[i].data == contents[i])
      && (head == if |nodes| == 0 then null else nodes[0])
      && Chained(nodes)
    }

    /** ll_create */
    constructor ()
      ensures Valid() && fresh(Repr) && contents == []
    {
      head, size := null, 0;
      nodes, contents, Repr := [], [], {this};
    }

    /** The walk to position n that insertion and removal share. */
    method Walk(n: nat) returns (curr: LlNode<T>)
      requires Valid() && n < |nodes|
      ensures curr == nodes[n]
    {
      curr := head;
      var i := 0;
      while i < n
        invariant 0 <= i <= n
        invariant curr == nodes[i]
      {
        curr := curr.next;
        i := i + 1;
      }
    }

    /** The new node becomes the head. */
    method AddFront(x: T)
      requires Valid()
      modifies this
      ensures Valid() && fresh(Repr - old(Repr))
      ensures contents == [x] + old(contents)
    {
      var node := new LlNode(x);
      node.next := head;
      head := node;
      size := size + 1;
      nodes := [node] + nodes;
      contents := [x] + contents;
      Repr := Repr + {node};
    }

    /** The new node goes after the node at position k - 1. */
    method AddAfter(curr: LlNode<T>, x: T, ghost k: nat)
      requires Valid() && 0 < k <= |nodes| && curr == nodes[k - 1]
      modifies this, curr
      ensures Valid() && fresh(Repr - old(Repr))
      ensures contents == old(contents)[..k] + [x] + old(contents)[k..]
    {
      var node := new LlNode(x);
      node.next := curr.next;
      curr.next := node;
      size := size + 1;
      nodes := nodes[..k] + [node] + nodes[k..];
      contents := contents[..k] + [x] + contents[k..];
      Repr := Repr + {node};
    }

    /** ll_add_nth_node: a position past the end means the end. */
    method AddNth(n: nat, x: T)
      requires Valid()
      modifies Repr
      ensures Valid() && fresh(Repr - old(Repr))
      ensures var k := if n > old(size) then old(size) else n;
              contents == old(contents)[..k] + [x] + old(contents)[k..]
    {
      var k := if n > size then size else n;
      if head == null || k == 0 {
        AddFront(x);
      } else {
        var curr := Walk(k - 1);
        AddAfter(curr, x, k);
      }
    }

    method RemoveHead() returns (node: LlNode<T>)
      requires Valid() && |nodes| > 0
      modifies this
      ensures Valid() && Repr == old(Repr)
      ensures node == old(nodes)[0] && contents == old(contents)[1..]
    {
      node := head;
      head := head.next;
      size := size - 1;
      nodes := nodes[1..];
      contents := contents[1..];
    }

    /** The node after the one at position k - 1 is unlinked. */
    method RemoveAfter(curr: LlNode<T>, ghost k: nat) returns (node: LlNode<T>)
      requires Valid() && 0 < k < |nodes| && curr == nodes[k - 1]
      modifies this, curr
      ensures Valid() && Repr == old(Repr)
      ensures node == old(nodes)[k] && contents == old(contents)[..k] + old(contents)[k + 1..]
      ensures node.data == old(node.data)
    {
      node := curr.next;
      curr.next := node.next;
      size := size - 1;
      nodes := nodes[..k] + nodes[k + 1..];
      contents := contents[..k] + contents[k + 1..];
    }

    /** ll_remove_nth_node: nothing on an empty list; a position past the end means the
        last node. */
    method RemoveNth(n: nat) returns (node: LlNode?<T>)
      requires Valid()
      modifies Repr
      ensures Valid() && Repr == old(Repr)
      ensures if old(contents) == [] then node == null && contents == []
              else var k := if n > |old(contents)| - 1 then |old(contents)| - 1 else n;
                   && node == old(nodes)[k] && node.data == old(contents)[k]
                   && contents == old(contents)[..k] + old(contents)[k + 1..]
    {
      if head == null {
        return null;
      }
      var k := if n > size - 1 then size - 1 else n;
      if k == 0 {
        node := RemoveHead();
      } else {
        var curr := Walk(k - 1);
        node := RemoveAfter(curr, k);
      }
    }
  }

  // Circular, doubly linked -------------------------------------------------------

  class DllNode<T> {
    var data: T
    var prev: DllNode?<T>
    var next: DllNode?<T>

    constructor (data: T)
      ensures this.data == data && prev == null && next == null
    {
      this.data := data;
      prev, next := null, null;
    }
  }

  /** The nodes are linked in a circle, in this order, each once. */
  ghost predicate Circular<T>(ns: seq<DllNode<T>>)
    reads ns
  {
    && (forall i {:trigger ns[i].next} :: 0 <= i < |ns| - 1 ==> ns[i].next == ns[i + 1])
    && (forall i {:trigger ns[i].prev} :: 1 <= i < |ns| ==> ns[i].prev == ns[i - 1])
    && (|ns| > 0 ==> ns[|ns| - 1].next == ns[0] && ns[0].prev == ns[|ns| - 1])
    && (forall i, j :: 0 <= i < j < |ns| ==> ns[i] != ns[j])
  }

  class DoublyLinkedList<T> {
    var head: DllNode?<T>
    var size: nat

    ghost var nodes: seq<DllNode<T>>
    ghost var contents: seq<T>
    ghost var Repr: set<object>

    ghost predicate Valid()
      reads this, Repr
      ensures Valid() ==> this in Repr
    {
      && this in Repr
      && (forall n :: n in nodes ==> n in Repr)
      && size == |nodes| == |contents|
      && (forall i :: 0 <= i < |nodes| ==> nodes[i].data == contents[i])
      && (head == if |nodes| == 0 then null else nodes[0])
      && Circular(nodes)
    }

    /** dll_create */
    constructor ()
      ensures Valid() && fresh(Repr) && contents == []
    {
      head, size := null, 0;
      nodes, contents, Repr := [], [], {this};
    }

    /** dll_get_nth_node: the walk goes round the circle as often as needed. */
    method GetNth(n: nat) returns (node: DllNode?<T>)
      requires Valid()
      ensures if |nodes| == 0 then node == null else node == nodes[n % |nodes|]
      ensures n < |nodes| ==> node == nodes[n]
    {
      if head == null {
        return null;
      }
      node := head;
      var i := 0;
      while i < n
        invariant 0 <= i <= n
        invariant node == nodes[i % |nodes|]
      {
        node := node.next;
        i := i + 1;
        NextIndex(i, |nodes|);
      }
    }

    /** dll_get_next_node: null after the last node. */
    method GetNext(node: DllNode<T>, ghost i: nat) returns (next: DllNode?<T>)
      requires Valid() && i < |nodes| && node == nodes[i]
      ensures next == if i + 1 < |nodes| then nodes[i + 1] else null
    {
      if head == null {
        return null;
      }
      if node.next != head {
        next := node.next;
      } else {
        next := null;
      }
    }

    /** dll_get_tail */
    method GetTail() returns (node: DllNode<T>)
      requires Valid() && |nodes| > 0
      ensures node == nodes[|nodes| - 1]
    {
      node := head.prev;
    }

    /** The four assignments with which every insertion into a circle that is not empty
        puts a node between two neighbours: lines 169-172, 181-184, 189-192, 216-219. */
    method Link(node: DllNode<T>, before: DllNode<T>, after: DllNode<T>, ghost k: nat)
      requires Circular(nodes) && k <= |nodes| && |nodes| > 0 && node !in nodes
      requires before == nodes[if k > 0 then k - 1 else |nodes| - 1]
      requires after == nodes[if k < |nodes| then k else 0]
      modifies node, nodes
      ensures Circular(nodes[..k] + [node] + nodes[k..])
      ensures node.data == old(node.data)
      ensures forall n :: n in nodes ==> n.data == old(n.data)
    {
      node.prev := before;
      node.next := after;
      before.next := node;
      after.prev := node;
    }

    /** The first node of an empty list is its own neighbour on both sides. */
    method AddToEmpty(x: T)
      requires Valid() && |nodes| == 0
      modifies this
      ensures Valid() && fresh(Repr - old(Repr))
      ensures contents == [x] && |nodes| == 1 && fresh(nodes[0])
    {
      var node := new DllNode(x);
      head := node;
      node.prev, node.next := node, node;
      size := size + 1;
      nodes, contents := [node], [x];
      assert nodes[0] == node && node.data == x;
      Repr := Repr + {node};
    }

    /** A new node between two neighbours of a list that is not empty. */
    method Insert(x: T, before: DllNode<T>, after: DllNode<T>, ghost k: nat, front: bool)
      requires Valid() && |nodes| > 0 && k <= |nodes| && front == (k == 0)
      requires before == nodes[if k > 0 then k - 1 else |nodes| - 1]
      requires after == nodes[if k < |nodes| then k else 0]
      modifies Repr
      ensures Valid() && fresh(Repr - old(Repr))
      ensures contents == old(contents)[..k] + [x] + old(contents)[k..]
      ensures |nodes| == |old(nodes)| + 1 && fresh(nodes[k])
      ensures nodes == old(nodes)[..k] + [nodes[k]] + old(nodes)[k..]
    {
      hide Circular;
      var node := new DllNode(x);
      Link(node, before, after, k);
      if front {
        head := node;
      }
      size := size + 1;
      nodes := nodes[..k] + [node] + nodes[k..];
      contents := contents[..k] + [x] + contents[k..];
      Repr := Repr + {node};
    }

    /** dll_add_nth_node: a position past the end means the end. */
    method AddNth(n: nat, x: T)
      requires Valid()
      modifies Repr
      ensures Valid() && fresh(Repr - old(Repr))
      ensures var k := if n > old(size) then old(size) else n;
              && contents == old(contents)[..k] + [x] + old(contents)[k..]
              && |nodes| == |old(nodes)| + 1 && fresh(nodes[k])
              && nodes == old(nodes)[..k] + [nodes[k]] + old(nodes)[k..]
    {
      if size <= n {
        if head == null {
          AddToEmpty(x);
        } else {
          var last := GetNth(size - 1);
          Insert(x, last, head, size, false);
        }
      } else {
        var at := GetNth(n);
        Insert(x, at.prev, at, n, n == 0);
      }
    }

    /** dll_add_tail */
    method AddTail(x: T)
      requires Valid()
      modifies Repr
      ensures Valid() && fresh(Repr - old(Repr))
      ensures contents == old(contents) + [x]
      ensures |nodes| == |old(nodes)| + 1 && fresh(nodes[|old(nodes)|])
      ensures nodes == old(nodes) + [nodes[|old(nodes)|]]
    {
      if size == 0 {
        AddToEmpty(x);
      } else {
        Insert(x, head.prev, head, size, false);
      }
    }

    /** The two assignments that make the neighbours of a node each other's neighbours. */
    method Bypass(node: DllNode<T>, ghost k: nat)
      requires Circular(nodes) && k < |nodes| && node == nodes[k]
      modifies nodes
      ensures Circular(nodes[..k] + nodes[k + 1..])
      ensures |nodes| > 1 ==> node.next == nodes[if k + 1 < |nodes| then k + 1 else 0]
      ensures node == nodes[0] <==> k == 0
      ensures forall n :: n in nodes ==> n.data == old(n.data)
    {
      node.next.prev := node.prev;
      node.prev.next := node.next;
    }

    /** Lines 245-257 of dll_remove_nth_node, and, with the head moved first, lines
        78-88 and 143-153 of lru_cache.c. */
    method Unlink(node: DllNode<T>, ghost k: nat)
      requires Valid() && k < |nodes| && node == nodes[k]
      modifies Repr
      ensures Valid() && Repr == old(Repr)
      ensures nodes == old(nodes)[..k] + old(nodes)[k + 1..]
      ensures contents == old(contents)[..k] + old(contents)[k + 1..]
      ensures node.data == old(node.data)
    {
      hide Circular;
      Bypass(node, k);
      size := size - 1;
      if size == 0 {
        head := null;
      } else if node == head {
        head := node.next;
      }
      nodes := nodes[..k] + nodes[k + 1..];
      contents := contents[..k] + contents[k + 1..];
    }

    /** dll_remove_nth_node: nothing on an empty list; a position past the end means
        the last node. */
    method RemoveNth(n: nat) returns (node: DllNode?<T>)
      requires Valid()
      modifies Repr
      ensures Valid() && Repr == old(Repr)
      ensures if |old(nodes)| == 0 then node == null && contents == []
              else var k := if n >= |old(nodes)| then |old(nodes)| - 1 else n;
                   && node == old(nodes)[k] && node.data == old(contents)[k]
                   && nodes == old(nodes)[..k] + old(nodes)[k + 1..]
                   && contents == old(contents)[..k] + old(contents)[k + 1..]
    {
      if head == null {
        return null;
      }
      var k := if n >= size then size - 1 else n;
      node := GetNth(k);
      Unlink(node, k);
    }

    /** A write through the pointer that a node holds. */
    method SetData(node: DllNode<T>, x: T, ghost k: nat)
      requires Valid() && k < |nodes| && node == nodes[k]
      modifies Repr
      ensures Valid() && Repr == old(Repr) && nodes == old(nodes)
      ensures contents == old(contents)[k := x]
    {
      node.data := x;
      contents := contents[k := x];
    }
  }

  lemma NextIndex(i: nat, n: nat)
    requires i > 0 && n > 0
    ensures i % n == if (i - 1) % n + 1 < n then (i - 1) % n + 1 else 0
  {
    var q, r := (i - 1) / n, (i - 1) % n;
    assert i == q * n + (r + 1);
    if r + 1 < n {
      ModUnique(i, n, q, r + 1);
    } else {
      assert i == (q + 1) * n + 0;
      ModUnique(i, n, q + 1, 0);
    }
  }

  lemma ModUnique(i: nat, n: nat, q: nat, r: nat)
    requires r < n && i == q * n + r
    ensures i % n == r
  {
    var p, d := i / n, q - i / n;
    assert d * n == i % n - r by {
      assert i == p * n + i % n;
      assert d * n == q * n - p * n;
    }
    SmallMultiple(d, n);
  }

  lemma SmallMultiple(d: int, n: nat)
    requires d * n < n && -(d * n) < n
    ensures d == 0
  {
    assert d >= 1 ==> d * n >= n;
    assert d <= -1 ==> d * n + n <= 0;
  }
}
