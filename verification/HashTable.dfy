/** hash_table.c: a table of chained buckets, which refines a finite map whatever keys
    collide. */
module HashTables {
  import opened Wrappers
  import opened Hashing
  import opened LinkedLists

  /** ht_info */
  datatype HtInfo<K, V> = HtInfo(key: K, value: V)

  /** `hash_function(key) % hmax` */
  function Slot<K>(h: K -> Word, hmax: nat, key: K): (i: nat)
    requires hmax > 0
    ensures i < hmax
  {
    h(key) % hmax
  }

  /** Bucket i of a table with hmax buckets holds the part of m that hashes to i: each
      key once, and no other key. */
  ghost predicate BucketOk<K(!new), V>(h: K -> Word, hmax: nat, i: nat, bucket: seq<HtInfo<K, V>>, m: map<K, V>)
    requires hmax > 0
  {
    && (forall j :: 0 <= j < |bucket| ==>
          h(bucket[j].key) % hmax == i && bucket[j].key in m && m[bucket[j].key] == bucket[j].value)
    && (forall j, l :: 0 <= j < l < |bucket| ==> bucket[j].key != bucket[l].key)
    && (forall k :: k in m && h(k) % hmax == i ==> exists j :: 0 <= j < |bucket| && bucket[j].key == k)
  }

  lemma BucketAfterRemove<K(!new), V>(h: K -> Word, hmax: nat, i: nat, bucket: seq<HtInfo<K, V>>, m: map<K, V>, j: nat)
    requires hmax > 0 && BucketOk(h, hmax, i, bucket, m) && j < |bucket|
    ensures BucketOk(h, hmax, i, bucket[..j] + bucket[j + 1..], m - {bucket[j].key})
  {
    var rest, k := bucket[..j] + bucket[j + 1..], bucket[j].key;
    forall x | x in m - {k} && h(x) % hmax == i
      ensures exists l :: 0 <= l < |rest| && rest[l].key == x
    {
      var l :| 0 <= l < |bucket| && bucket[l].key == x;
      assert rest[if l < j then l else l - 1] == bucket[l];
    }
  }

  lemma BucketAfterAdd<K(!new), V>(h: K -> Word, hmax: nat, i: nat, bucket: seq<HtInfo<K, V>>, m: map<K, V>, k: K, v: V)
    requires hmax > 0 && BucketOk(h, hmax, i, bucket, m) && k !in m && h(k) % hmax == i
    ensures BucketOk(h, hmax, i, [HtInfo(k, v)] + bucket, m[k := v])
  {
    var more := [HtInfo(k, v)] + bucket;
    forall x | x in m[k := v] && h(x) % hmax == i
      ensures exists l :: 0 <= l < |more| && more[l].key == x
    {
      if x == k {
        assert more[0].key == x;
      } else {
        var l :| 0 <= l < |bucket| && bucket[l].key == x;
        assert more[l + 1].key == x;
      }
    }
  }

  ghost predicate TableOk<K(!new), V>(h: K -> Word, hmax: nat, table: seq<seq<HtInfo<K, V>>>, m: map<K, V>)
    requires hmax > 0
  {
    |table| == hmax && forall i :: 0 <= i < hmax ==> BucketOk(h, hmax, i, table[i], m)
  }

  ghost function EmptyTable<K, V>(hmax: nat): (r: seq<seq<HtInfo<K, V>>>)
    ensures |r| == hmax
    ensures forall i :: 0 <= i < hmax ==> r[i] == []
  {
    seq(hmax, i => [])
  }

  lemma EmptyTableOk<K(!new), V>(h: K -> Word, hmax: nat)
    requires hmax > 0
    ensures TableOk<K, V>(h, hmax, EmptyTable(hmax), map[])
  {
  }

  lemma TableAfterRemove<K(!new), V>(h: K -> Word, hmax: nat, table: seq<seq<HtInfo<K, V>>>, m: map<K, V>, ind: nat,
                                     i: nat)
    requires hmax > 0 && TableOk(h, hmax, table, m) && ind < hmax && i < |table[ind]|
    ensures var k := table[ind][i].key;
            k in m && TableOk(h, hmax, table[ind := table[ind][..i] + table[ind][i + 1..]], m - {k})
  {
    BucketAfterRemove(h, hmax, ind, table[ind], m, i);
  }

  lemma TableAfterAdd<K(!new), V>(h: K -> Word, hmax: nat, table: seq<seq<HtInfo<K, V>>>, m: map<K, V>, k: K, v: V)
    requires hmax > 0 && TableOk(h, hmax, table, m) && k !in m
    ensures var ind := Slot(h, hmax, k);
            TableOk(h, hmax, table[ind := [HtInfo(k, v)] + table[ind]], m[k := v])
  {
    var ind := Slot(h, hmax, k);
    BucketAfterAdd(h, hmax, ind, table[ind], m, k, v);
  }

  lemma RemovedThenPut<K(!new), V>(m: map<K, V>, k: K, v: V)
    ensures (m - {k})[k := v] == m[k := v]
  {
  }

  lemma KeysAfterPut<K(!new), V>(m: map<K, V>, k: K, v: V)
    requires k !in m
    ensures |m[k := v].Keys| == |m.Keys| + 1
  {
    assert m[k := v].Keys == m.Keys + {k};
  }

  lemma KeysAfterRemove<K(!new), V>(m: map<K, V>, k: K)
    requires k in m
    ensures |(m - {k}).Keys| == |m.Keys| - 1
  {
    assert (m - {k}).Keys == m.Keys - {k};
  }

  /** As many empty lists, apart from each other. */
  method EmptyLists<T>(n: nat) returns (ls: seq<LinkedList<T>>, ghost inside: set<object>)
    ensures |ls| == n && fresh(inside)
    ensures forall i :: 0 <= i < |ls| ==>
              ls[i].Valid() && ls[i].contents == [] && ls[i] in inside && ls[i].Repr <= inside
    ensures forall i, j :: 0 <= i < j < |ls| ==> ls[i].Repr !! ls[j].Repr
  {
    hide LinkedList.Valid;
    ls, inside := [], {};
    while |ls| < n
      invariant |ls| <= n && fresh(inside)
      invariant forall i :: 0 <= i < |ls| ==>
                  ls[i].Valid() && ls[i].contents == [] && ls[i] in inside && ls[i].Repr <= inside
      invariant forall i, j :: 0 <= i < j < |ls| ==> ls[i].Repr !! ls[j].Repr
    {
      var l := new LinkedList<T>();
      ls, inside := ls + [l], inside + l.Repr;
    }
  }

  /** An array of them. */
  method MakeBuckets<T>(n: nat)
    returns (bs: array<LinkedList<T>>, ghost ls: seq<LinkedList<T>>, ghost inside: set<object>)
    ensures fresh(bs) && fresh(inside) && bs[..] == ls && |ls| == n
    ensures forall i :: 0 <= i < n ==> ls[i] in inside && ls[i].Repr <= inside && bs !in ls[i].Repr
    ensures forall i :: 0 <= i < n ==> ls[i].Valid() && ls[i].contents == []
    ensures forall i, j :: 0 <= i < j < n ==> ls[i].Repr !! ls[j].Repr
  {
    hide LinkedList.Valid;
    var made;
    made, inside := EmptyLists<T>(n);
    ls := made;
    bs := new LinkedList<T>[n](i requires 0 <= i < |made| => made[i]);
    assert bs[..] == ls;
  }

  class HashTable<K(==,!new), V> {
    const hashFunction: K -> Word
    var buckets: array<LinkedList<HtInfo<K, V>>>
    var hmax: nat
    var size: nat

    ghost var lists: seq<LinkedList<HtInfo<K, V>>>
    ghost var table: seq<seq<HtInfo<K, V>>>
    ghost var M: map<K, V>
    ghost var Repr: set<object>

    /** The buckets are lists apart from each other, and hold the table. */
    ghost predicate Shape()
      reads this, Repr
    {
      && this in Repr && buckets in Repr
      && hmax == buckets.Length == |lists| == |table| && hmax > 0
      && buckets[..] == lists
      && (forall i :: 0 <= i < |lists| ==>
            && lists[i] in Repr && lists[i].Repr <= Repr
            && this !in lists[i].Repr && buckets !in lists[i].Repr
            && lists[i].Valid() && lists[i].contents == table[i])
      && (forall i, j :: 0 <= i < j < |lists| ==> lists[i].Repr !! lists[j].Repr)
    }

    ghost predicate Valid()
      reads this, Repr
      ensures Valid() ==> this in Repr
    {
      Shape() && TableOk(hashFunction, hmax, table, M) && size == |M.Keys|
    }

    /** ht_create */
    constructor (hmax: nat, hashFunction: K -> Word)
      requires hmax > 0
      ensures Valid() && fresh(Repr) && M == map[] && this.hmax == hmax && this.hashFunction == hashFunction
    {
      hide LinkedList.Valid, TableOk;
      EmptyTableOk<K, V>(hashFunction, hmax);
      this.hashFunction := hashFunction;
      var bs, ls, inside := MakeBuckets<HtInfo<K, V>>(hmax);
      buckets := bs;
      this.hmax, size := hmax, 0;
      lists, table, M := ls, EmptyTable(hmax), map[];
      Repr := {this, bs} + inside;
    }

    /** The walk of a bucket that every operation makes: the position of a key. */
    method Find(key: K) returns (ind: nat, i: nat, info: Option<HtInfo<K, V>>)
      requires Valid()
      ensures hmax > 0 && ind == Slot(hashFunction, hmax, key)
      ensures info.None? <==> key !in M
      ensures info.Some? ==> i < |table[ind]| && table[ind][i] == info.value && info.value == HtInfo(key, M[key])
    {
      ind := Slot(hashFunction, hmax, key);
      assert buckets[..][ind] == lists[ind];
      ghost var b := lists[ind];
      var node := buckets[ind].head;
      i := 0;
      assert BucketOk(hashFunction, hmax, ind, table[ind], M);
      while node != null
        invariant 0 <= i <= |b.nodes|
        invariant node == if i < |b.nodes| then b.nodes[i] else null
        invariant forall j :: 0 <= j < i ==> b.contents[j].key != key
        decreases |b.nodes| - i
      {
        if node.data.key == key {
          return ind, i, Some(node.data);
        }
        node := node.next;
        i := i + 1;
      }
      info := None;
    }

    /** ht_has_key */
    method HasKey(key: K) returns (has: bool)
      requires Valid()
      ensures has <==> key in M
    {
      var ind, i, info := Find(key);
      has := info.Some?;
    }

    /** ht_get */
    method Get(key: K) returns (value: Option<V>)
      requires Valid()
      ensures value == if key in M then Some(M[key]) else None
    {
      var ind, i, info := Find(key);
      value := if info.Some? then Some(info.value.value) else None;
    }

    /** One entry of a bucket is unlinked. */
    method Unlink(ind: nat, i: nat, ghost m: map<K, V>)
      requires Shape() && ind < hmax && i < |table[ind]| && size > 0
      modifies Repr
      ensures Shape() && Repr == old(Repr) && hmax == old(hmax)
      ensures M == m && size == old(size) - 1
      ensures table == old(table)[ind := old(table)[ind][..i] + old(table)[ind][i + 1..]]
    {
      hide LinkedList.Valid;
      assert buckets[..][ind] == lists[ind];
      var b := buckets[ind];
      M, size := m, size - 1;
      var node := b.RemoveNth(i);
      table := table[ind := b.contents];
    }

    /** A new entry becomes the head of a bucket. */
    method Link(ind: nat, key: K, value: V, ghost m: map<K, V>)
      requires Shape() && ind < hmax
      modifies Repr
      ensures Shape() && fresh(Repr - old(Repr)) && hmax == old(hmax)
      ensures M == m && size == old(size) + 1
      ensures table == old(table)[ind := [HtInfo(key, value)] + old(table)[ind]]
    {
      hide LinkedList.Valid;
      assert buckets[..][ind] == lists[ind];
      var b := buckets[ind];
      M, size := m, size + 1;
      b.AddNth(0, HtInfo(key, value));
      assert b.contents == [HtInfo(key, value)] + old(b.contents);
      table := table[ind := b.contents];
      Repr := Repr + b.Repr;
    }

    /** ht_remove_entry */
    method RemoveEntry(key: K)
      requires Valid()
      modifies Repr
      ensures Valid() && Repr == old(Repr) && hmax == old(hmax)
      ensures M == old(M) - {key}
    {
      var ind, i, info := Find(key);
      if info.Some? {
        TableAfterRemove(hashFunction, hmax, table, M, ind, i);
        KeysAfterRemove(M, key);
        Unlink(ind, i, M - {key});
      }
    }

    /** ht_put: an entry under the same key is removed first. */
    method Put(key: K, value: V) returns (existed: bool)
      requires Valid()
      modifies Repr
      ensures Valid() && fresh(Repr - old(Repr)) && hmax == old(hmax)
      ensures M == old(M)[key := value]
      ensures existed <==> key in old(M)
    {
      var ind := Slot(hashFunction, hmax, key);
      existed := HasKey(key);
      RemovedThenPut(M, key, value);
      if existed {
        RemoveEntry(key);
      }
      TableAfterAdd(hashFunction, hmax, table, M, key, value);
      KeysAfterPut(M, key, value);
      Link(ind, key, value, M[key := value]);
    }
  }
}
