/** lru_cache.c: a list of entries from the least to the most recently used, and a hash
    table from each key to the list node that holds it. */
module LruCaches {
  import opened Wrappers
  import opened Hashing
  import opened LinkedLists
  import opened HashTables
  import Lru = LruModel

  type Entry<K, V> = Lru.Entry<K, V>

  /** The table maps each key of the list to its one node, and nothing else. */
  ghost predicate Linked<K(!new), V(!new)>(nodes: seq<DllNode<Entry<K, V>>>, entries: seq<Entry<K, V>>,
                                           m: map<K, DllNode<Entry<K, V>>>)
  {
    && |nodes| == |entries|
    && Lru.Distinct(Lru.Keys(entries))
    && (forall i :: 0 <= i < |entries| ==> entries[i].key in m && m[entries[i].key] == nodes[i])
    && (forall k :: k in m ==> k in Lru.Keys(entries))
  }

  lemma LinkedWithout<K(!new), V(!new)>(nodes: seq<DllNode<Entry<K, V>>>, entries: seq<Entry<K, V>>,
                                        m: map<K, DllNode<Entry<K, V>>>, i: nat)
    requires Linked(nodes, entries, m) && i < |entries|
    ensures Linked(nodes[..i] + nodes[i + 1..], entries[..i] + entries[i + 1..], m - {entries[i].key})
  {
    var k, rest, keys := entries[i].key, entries[..i] + entries[i + 1..], Lru.Keys(entries);
    KeysWithout(entries, i);
    forall x | x in m - {k}
      ensures x in Lru.Keys(rest)
    {
      var j :| 0 <= j < |keys| && keys[j] == x;
      assert Lru.Keys(rest)[if j < i then j else j - 1] == x;
    }
  }

  lemma KeysWithout<K(!new), V(!new)>(entries: seq<Entry<K, V>>, i: nat)
    requires i < |entries| && Lru.Distinct(Lru.Keys(entries))
    ensures var rest := Lru.Keys(entries[..i] + entries[i + 1..]);
            && rest == Lru.Keys(entries)[..i] + Lru.Keys(entries)[i + 1..]
            && Lru.Distinct(rest) && entries[i].key !in rest
  {
    var keys := Lru.Keys(entries);
    assert Lru.Keys(entries[..i] + entries[i + 1..]) == keys[..i] + keys[i + 1..];
    assert keys[i] == entries[i].key;
  }

  lemma LinkedAppend<K(!new), V(!new)>(nodes: seq<DllNode<Entry<K, V>>>, entries: seq<Entry<K, V>>,
                                       m: map<K, DllNode<Entry<K, V>>>, node: DllNode<Entry<K, V>>, e: Entry<K, V>)
    requires Linked(nodes, entries, m) && e.key !in m
    ensures Linked(nodes + [node], entries + [e], m[e.key := node])
  {
    var keys := Lru.Keys(entries);
    assert Lru.Keys(entries + [e]) == keys + [e.key];
    assert forall i :: 0 <= i < |keys| ==> keys[i] in m;
  }

  lemma {:induction false} DropKeyAt<K(!new), V(!new)>(s: seq<Entry<K, V>>, i: nat)
    requires i < |s| && Lru.Distinct(Lru.Keys(s))
    ensures Lru.DropKey(s, s[i].key) == s[..i] + s[i + 1..]
  {
    var n := |s| - 1;
    assert Lru.Keys(s[..n]) == Lru.Keys(s)[..n];
    if i == n {
      Lru.DropAbsent(s[..n], s[n].key);
    } else {
      DropKeyAt(s[..n], i);
      assert Lru.Keys(s)[n] != Lru.Keys(s)[i];
      assert s[..n][..i] + s[..n][i + 1..] + [s[n]] == s[..i] + s[i + 1..];
    }
  }

  lemma {:induction false} DropFirst<K(!new), V(!new)>(s: seq<Entry<K, V>>)
    requires |s| > 0 && Lru.Distinct(Lru.Keys(s))
    ensures Lru.DropKey(s, s[0].key) == s[1..]
  {
    var n := |s| - 1;
    assert Lru.Keys(s[..n]) == Lru.Keys(s)[..n];
    if n > 0 {
      DropFirst(s[..n]);
      assert Lru.Keys(s)[n] != Lru.Keys(s)[0];
      assert s[..n][1..] + [s[n]] == s[1..];
    }
  }

  lemma SameKeys<K(!new), V(!new)>(nodes: seq<DllNode<Entry<K, V>>>, entries: seq<Entry<K, V>>,
                                   m: map<K, DllNode<Entry<K, V>>>, k: K)
    requires Linked(nodes, entries, m)
    ensures k in m <==> k in Lru.Keys(entries)
  {
    if k in Lru.Keys(entries) {
      var i :| 0 <= i < |entries| && Lru.Keys(entries)[i] == k;
    }
  }

  lemma AbsentKey<K(!new), V(!new)>(nodes: seq<DllNode<Entry<K, V>>>, entries: seq<Entry<K, V>>,
                                    m: map<K, DllNode<Entry<K, V>>>, k: K)
    requires Linked(nodes, entries, m)
    ensures k !in m ==> m - {k} == m && Lru.DropKey(entries, k) == entries
  {
    SameKeys(nodes, entries, m, k);
    if k !in m {
      Lru.DropAbsent(entries, k);
    }
  }

  /** lru_cache_put, cut in two: what is left before the new entry is appended. */
  lemma PutByRoom<K(!new), V(!new)>(c: Lru.Cache<K, V>, k: K, v: V, evict: bool, left: seq<Entry<K, V>>,
                                    evicted: Option<K>)
    requires c.capacity > 0
    requires if evict && |c.entries| >= c.capacity && !Lru.Has(c, k)
             then evicted == Some(c.entries[0].key) && left == c.entries[1..]
             else evicted == None && left == Lru.DropKey(c.entries, k)
    ensures Lru.Put(c, k, v, evict) ==
            Lru.PutResult(Lru.Cache(c.capacity, left + [Lru.Entry(k, v)]), evicted, Lru.Has(c, k))
  {
  }

  /** Where a listed key is; keys are distinct. */
  ghost function IndexOf<K(!new), V(!new)>(entries: seq<Entry<K, V>>, k: K): (i: nat)
    requires k in Lru.Keys(entries) && Lru.Distinct(Lru.Keys(entries))
    ensures i < |entries| && entries[i].key == k
    ensures forall j :: 0 <= j < i ==> entries[j].key != k
  {
    var i :| 0 <= i < |entries| && Lru.Keys(entries)[i] == k;
    assert forall j :: 0 <= j < i ==> Lru.Keys(entries)[j] != k;
    i
  }

  class LruCache<K(==,!new), V(!new)> {
    var list: DoublyLinkedList<Entry<K, V>>
    var ht: HashTable<K, DllNode<Entry<K, V>>>
    var capacity: nat

    ghost var model: Lru.Cache<K, V>
    ghost var Repr: set<object>

    ghost predicate Shape()
      reads this, Repr
    {
      && this in Repr && list in Repr && ht in Repr && list.Repr <= Repr && ht.Repr <= Repr
      && this !in list.Repr && this !in ht.Repr && list.Repr !! ht.Repr
      && list.Valid() && ht.Valid() && capacity > 0
      && model == Lru.Cache(capacity, list.contents)
    }

    ghost predicate Valid()
      reads this, Repr
      ensures Valid() ==> this in Repr
    {
      Shape() && Linked(list.nodes, list.contents, ht.M)
    }

    /** init_lru_cache */
    constructor (capacity: nat, hashFunction: K -> Word)
      requires capacity > 0
      ensures Valid() && fresh(Repr)
      ensures model == Lru.Cache(capacity, []) && ht.hmax == capacity && ht.hashFunction == hashFunction
    {
      var l := new DoublyLinkedList<Entry<K, V>>();
      var t := new HashTable<K, DllNode<Entry<K, V>>>(capacity, hashFunction);
      list, ht, this.capacity := l, t, capacity;
      model := Lru.Cache(capacity, []);
      Repr := {this} + l.Repr + t.Repr;
    }

    /** lru_cache_is_full */
    method IsFull() returns (full: bool)
      requires Shape()
      ensures full <==> |list.contents| >= capacity
    {
      full := list.size >= capacity;
    }

    // One call each on the list or the table; the other one stays as it is.

    method ListUnlink(node: DllNode<Entry<K, V>>, ghost i: nat)
      requires Shape() && i < |list.nodes| && node == list.nodes[i]
      modifies Repr
      ensures Shape() && Repr == old(Repr) && capacity == old(capacity) && list == old(list) && ht == old(ht)
      ensures ht.M == old(ht.M)
      ensures list.nodes == old(list.nodes)[..i] + old(list.nodes)[i + 1..]
      ensures list.contents == old(list.contents)[..i] + old(list.contents)[i + 1..]
    {
      list.Unlink(node, i);
      model := Lru.Cache(capacity, list.contents);
    }

    method ListAddTail(e: Entry<K, V>) returns (node: DllNode<Entry<K, V>>)
      requires Shape()
      modifies Repr
      ensures Shape() && fresh(Repr - old(Repr)) && capacity == old(capacity) && list == old(list) && ht == old(ht)
      ensures ht.M == old(ht.M)
      ensures list.nodes == old(list.nodes) + [node] && list.contents == old(list.contents) + [e]
    {
      list.AddTail(e);
      model := Lru.Cache(capacity, list.contents);
      Repr := Repr + list.Repr;
      node := list.GetTail();
    }

    method TableRemove(key: K)
      requires Shape()
      modifies Repr
      ensures Shape() && Repr == old(Repr) && capacity == old(capacity) && list == old(list) && ht == old(ht)
      ensures ht.M == old(ht.M) - {key}
      ensures list.nodes == old(list.nodes) && list.contents == old(list.contents)
    {
      ht.RemoveEntry(key);
    }

    method TablePut(key: K, node: DllNode<Entry<K, V>>)
      requires Shape()
      modifies Repr
      ensures Shape() && fresh(Repr - old(Repr)) && capacity == old(capacity) && list == old(list) && ht == old(ht)
      ensures ht.M == old(ht.M)[key := node]
      ensures list.nodes == old(list.nodes) && list.contents == old(list.contents)
    {
      var existed := ht.Put(key, node);
      Repr := Repr + ht.Repr;
    }

    /** Lines 77-88 and 142-153: the node of a key leaves the list; the table still
        points at it. */
    method Detach(node: DllNode<Entry<K, V>>, ghost key: K)
      requires Valid() && key in ht.M && node == ht.M[key]
      modifies Repr
      ensures Shape() && Repr == old(Repr) && capacity == old(capacity)
      ensures Linked(list.nodes, list.contents, ht.M - {key})
      ensures ht == old(ht) && ht.M == old(ht.M)
      ensures list == old(list) && list.contents == Lru.DropKey(old(list.contents), key)
    {
      ghost var i := IndexOf(list.contents, key);
      LinkedWithout(list.nodes, list.contents, ht.M, i);
      DropKeyAt(list.contents, i);
      ListUnlink(node, i);
    }

    /** A key leaves the list, then the table. */
    method RemoveNode(node: DllNode<Entry<K, V>>, key: K)
      requires Valid() && key in ht.M && node == ht.M[key]
      modifies Repr
      ensures Valid() && Repr == old(Repr) && capacity == old(capacity)
      ensures ht == old(ht) && ht.M == old(ht.M) - {key}
      ensures list == old(list) && list.contents == Lru.DropKey(old(list.contents), key)
    {
      Detach(node, key);
      TableRemove(key);
    }

    method Head() returns (node: DllNode<Entry<K, V>>)
      requires Valid() && |list.contents| > 0
      ensures node == list.nodes[0] && node.data == list.contents[0]
      ensures node.data.key in ht.M && ht.M[node.data.key] == node
    {
      node := list.GetNth(0);
    }

    /** Lines 63-71: the head of a full list makes room. */
    method EvictHead() returns (evicted: K)
      requires Valid() && |list.contents| > 0
      modifies Repr
      ensures Valid() && Repr == old(Repr) && capacity == old(capacity)
      ensures evicted == old(list.contents)[0].key
      ensures list == old(list) && list.contents == old(list.contents)[1..]
      ensures ht == old(ht) && ht.M == old(ht.M) - {evicted}
    {
      DropFirst(list.contents);
      var node := Head();
      evicted := node.data.key;
      RemoveNode(node, evicted);
    }

    /** Lines 92-107: a new node at the tail, and the table points at it. */
    method Append(key: K, value: V)
      requires Shape() && Linked(list.nodes, list.contents, ht.M - {key})
      modifies Repr
      ensures Valid() && fresh(Repr - old(Repr)) && capacity == old(capacity)
      ensures list == old(list) && list.contents == old(list.contents) + [Lru.Entry(key, value)]
    {
      var e := Lru.Entry(key, value);
      var node := ListAddTail(e);
      LinkedAppend(old(list.nodes), old(list.contents), ht.M - {key}, node, e);
      RemovedThenPut(ht.M, key, node);
      TablePut(key, node);
    }

    /** Lines 61-90: what happens before the new node is appended. */
    method MakeRoom(key: K, node: Option<DllNode<Entry<K, V>>>, evict: bool) returns (evicted: Option<K>)
      requires Valid() && node == if key in ht.M then Some(ht.M[key]) else None
      modifies Repr
      ensures Shape() && Repr == old(Repr) && capacity == old(capacity) && list == old(list)
      ensures Linked(list.nodes, list.contents, ht.M - {key})
      ensures var es := old(list.contents);
              if evict && |es| >= capacity && node.None?
              then evicted == Some(es[0].key) && list.contents == es[1..]
              else evicted == None && list.contents == Lru.DropKey(es, key)
    {
      evicted := None;
      var full := IsFull();
      AbsentKey(list.nodes, list.contents, ht.M, key);
      if node.Some? {
        Detach(node.value, key);
      } else if full && evict {
        var out := EvictHead();
        evicted := Some(out);
        AbsentKey(list.nodes, list.contents, ht.M, key);
      }
    }

    /** lru_cache_put. `evict` says that the caller passed a place for the evicted key. */
    method Put(key: K, value: V, evict: bool) returns (existed: bool, evicted: Option<K>)
      requires Valid()
      modifies Repr
      ensures Valid() && fresh(Repr - old(Repr))
      ensures Lru.PutResult(model, evicted, existed) == Lru.Put(old(model), key, value, evict)
    {
      var node := ht.Get(key);
      SameKeys(list.nodes, list.contents, ht.M, key);
      existed := node.Some?;
      ghost var before := model;
      evicted := MakeRoom(key, node, evict);
      PutByRoom(before, key, value, evict, list.contents, evicted);
      Append(key, value);
    }

    /** lru_cache_get */
    method Get(key: K, evict: bool) returns (value: Option<V>)
      requires Valid()
      modifies Repr
      ensures Valid() && fresh(Repr - old(Repr))
      ensures Lru.GetResult(model, value) == Lru.Get(old(model), key)
    {
      var node := ht.Get(key);
      SameKeys(list.nodes, list.contents, ht.M, key);
      if node.None? {
        return None;
      }
      ghost var i := IndexOf(list.contents, key);
      Lru.FindIsEntry(list.contents, i);
      assert node.value == list.nodes[i];
      value := Some(node.value.data.value);
      assert value == Lru.Find(list.contents, key);
      var existed, evicted := Put(key, value.value, evict);
    }

    /** lru_cache_remove */
    method Remove(key: K)
      requires Valid()
      modifies Repr
      ensures Valid() && Repr == old(Repr)
      ensures model == Lru.Remove(old(model), key)
    {
      var node := ht.Get(key);
      AbsentKey(list.nodes, list.contents, ht.M, key);
      if node.Some? {
        RemoveNode(node.value, key);
      }
    }
  }
}
