/** What lru_cache.c computes, on values: the list from its head, which is the
    least recently used entry, to its tail. */
module LruModel {
  import opened Wrappers

  datatype Entry<K, V> = Entry(key: K, value: V)

  datatype Cache<K, V> = Cache(capacity: nat, entries: seq<Entry<K, V>>)

  datatype PutResult<K, V> = PutResult(cache: Cache<K, V>, evicted: Option<K>, existed: bool)

  datatype GetResult<K, V> = GetResult(cache: Cache<K, V>, value: Option<V>)

  function Keys<K(!new), V(!new)>(entries: seq<Entry<K, V>>): (r: seq<K>)
    ensures |r| == |entries|
    ensures forall i :: 0 <= i < |r| ==> r[i] == entries[i].key
  {
    seq(|entries|, i requires 0 <= i < |entries| => entries[i].key)
  }

  ghost predicate Distinct<K(!new)>(s: seq<K>) {
    forall i, j :: 0 <= i < j < |s| ==> s[i] != s[j]
  }

  /** The elements of s other than k, in order. */
  function Drop<K(==)>(s: seq<K>, k: K): seq<K> {
    if s == [] then []
    else
      var rest := Drop(s[..|s| - 1], k);
      if s[|s| - 1] == k then rest else rest + [s[|s| - 1]]
  }

  /** The entries under other keys than k, in order. */
  function DropKey<K(==), V>(s: seq<Entry<K, V>>, k: K): seq<Entry<K, V>> {
    if s == [] then []
    else
      var rest := DropKey(s[..|s| - 1], k);
      if s[|s| - 1].key == k then rest else rest + [s[|s| - 1]]
  }

  predicate Has<K(==,!new), V(!new)>(c: Cache<K, V>, k: K) {
    k in Keys(c.entries)
  }

  /** The value cached under k. */
  function Find<K(==,!new), V(!new)>(entries: seq<Entry<K, V>>, k: K): (r: Option<V>)
    ensures r.None? <==> k !in Keys(entries)
    ensures r.Some? ==> Entry(k, r.value) in entries
  {
    if entries == [] then None
    else if entries[0].key == k then Some(entries[0].value)
    else
      KeysOfTail(entries, k);
      Find(entries[1..], k)
  }

  lemma KeysOfTail<K(!new), V(!new)>(entries: seq<Entry<K, V>>, k: K)
    requires entries != [] && entries[0].key != k
    ensures k in Keys(entries) <==> k in Keys(entries[1..])
  {
    var keys, rest := Keys(entries), Keys(entries[1..]);
    assert keys[1..] == rest;
    assert keys == [keys[0]] + keys[1..];
  }

  /** lru_cache_put. The caller asks for an eviction by passing a place for the
      evicted key; without one a full cache grows. */
  function Put<K(==,!new), V(!new)>(c: Cache<K, V>, k: K, v: V, evict: bool): PutResult<K, V>
    requires c.capacity > 0
  {
    if evict && |c.entries| >= c.capacity && !Has(c, k) then
      PutResult(c.(entries := c.entries[1..] + [Entry(k, v)]), Some(c.entries[0].key), false)
    else
      PutResult(c.(entries := DropKey(c.entries, k) + [Entry(k, v)]), None, Has(c, k))
  }

  /** lru_cache_get: a hit is put back at the tail, a miss changes nothing. */
  function Get<K(==,!new), V(!new)>(c: Cache<K, V>, k: K): GetResult<K, V>
    requires c.capacity > 0
  {
    match Find(c.entries, k)
    case None => GetResult(c, None)
    case Some(v) => GetResult(Put(c, k, v, false).cache, Some(v))
  }

  function Remove<K(==,!new), V(!new)>(c: Cache<K, V>, k: K): Cache<K, V> {
    c.(entries := DropKey(c.entries, k))
  }

  // Sizes and keys -------------------------------------------------------------

  ghost predicate Ok<K(!new), V(!new)>(c: Cache<K, V>) {
    c.capacity > 0 && |c.entries| <= c.capacity && Distinct(Keys(c.entries))
  }

  lemma {:induction false} DropMembers<K(!new)>(s: seq<K>, k: K)
    ensures forall x :: x in Drop(s, k) <==> x in s && x != k
  {
    if s != [] {
      DropMembers(s[..|s| - 1], k);
      assert s == s[..|s| - 1] + [s[|s| - 1]];
    }
  }

  lemma {:induction false} DropDistinct<K(!new)>(s: seq<K>, k: K)
    requires Distinct(s)
    ensures Distinct(Drop(s, k))
    ensures |Drop(s, k)| == if k in s then |s| - 1 else |s|
    ensures k !in s ==> Drop(s, k) == s
  {
    if s != [] {
      var init, last := s[..|s| - 1], s[|s| - 1];
      assert s == init + [last];
      DropDistinct(init, k);
      DropMembers(init, k);
      assert last !in init && last !in Drop(init, k);
    }
  }

  lemma {:induction false} DropKeyKeys<K(!new), V(!new)>(s: seq<Entry<K, V>>, k: K)
    ensures Keys(DropKey(s, k)) == Drop(Keys(s), k)
    ensures forall e :: e in DropKey(s, k) <==> e in s && e.key != k
  {
    if s != [] {
      var init := s[..|s| - 1];
      assert s == init + [s[|s| - 1]];
      assert Keys(s)[..|s| - 1] == Keys(init);
      DropKeyKeys(init, k);
      assert Keys(DropKey(init, k) + [s[|s| - 1]]) == Keys(DropKey(init, k)) + [s[|s| - 1].key];
    }
  }

  /** Taking a key out of a list of distinct keys takes out one entry, or none. */
  lemma DropKeyFacts<K(!new), V(!new)>(s: seq<Entry<K, V>>, k: K)
    requires Distinct(Keys(s))
    ensures Keys(DropKey(s, k)) == Drop(Keys(s), k)
    ensures Distinct(Keys(DropKey(s, k)))
    ensures |DropKey(s, k)| == if k in Keys(s) then |s| - 1 else |s|
    ensures forall x :: x in Keys(DropKey(s, k)) <==> x in Keys(s) && x != k
  {
    DropKeyKeys(s, k);
    DropDistinct(Keys(s), k);
    DropMembers(Keys(s), k);
  }

  lemma {:induction false} DropOneOf<K(!new)>(s: seq<K>, i: nat)
    requires i < |s| && Distinct(s)
    ensures Drop(s, s[i]) == s[..i] + s[i + 1..]
  {
    var n := |s| - 1;
    if i == n {
      DropDistinct(s[..n], s[n]);
    } else {
      DropOneOf(s[..n], i);
      assert s[..n][..i] + s[..n][i + 1..] + [s[n]] == s[..i] + s[i + 1..];
    }
  }

  lemma PutKeys<K(!new), V(!new)>(c: Cache<K, V>, k: K, v: V, evict: bool)
    requires c.capacity > 0
    ensures Keys(Put(c, k, v, evict).cache.entries) ==
            if evict && |c.entries| >= c.capacity && !Has(c, k)
            then Keys(c.entries)[1..] + [k] else Drop(Keys(c.entries), k) + [k]
  {
    DropKeyKeys(c.entries, k);
  }

  /** A put keeps keys distinct, and keeps the size within capacity exactly when the
      cache may evict, or holds the key already, or has room. */
  lemma PutKeepsOk<K(!new), V(!new)>(c: Cache<K, V>, k: K, v: V, evict: bool)
    requires Ok(c)
    ensures Ok(Put(c, k, v, evict).cache) <==> evict || Has(c, k) || |c.entries| < c.capacity
  {
    DropKeyFacts(c.entries, k);
    PutKeys(c, k, v, evict);
  }

  /** What a put changes: k is present with v, and what is reported evicted, and
      nothing else, is gone. */
  lemma PutEffect<K(!new), V(!new)>(c: Cache<K, V>, k: K, v: V, evict: bool)
    requires Ok(c)
    ensures var r := Put(c, k, v, evict);
            r.evicted.Some? ==> Has(c, r.evicted.value) && !Has(r.cache, r.evicted.value)
    ensures var r := Put(c, k, v, evict);
            forall x :: Has(r.cache, x) <==> x == k || (Has(c, x) && r.evicted != Some(x))
  {
    var keys := Keys(c.entries);
    DropKeyFacts(c.entries, k);
    PutKeys(c, k, v, evict);
    assert keys != [] ==> keys == [keys[0]] + keys[1..] && keys[0] !in keys[1..];
  }

  lemma PutEntries<K(!new), V(!new)>(c: Cache<K, V>, k: K, v: V, evict: bool, e: Entry<K, V>)
    requires c.capacity > 0 && e in Put(c, k, v, evict).cache.entries
    ensures e == Entry(k, v) || (e in c.entries && e.key != k)
  {
    DropKeyKeys(c.entries, k);
    if e in c.entries && e.key == k {
      var i :| 0 <= i < |c.entries| && c.entries[i] == e;
      assert Keys(c.entries)[i] == k;
    }
  }

  lemma GetKeepsOk<K(!new), V(!new)>(c: Cache<K, V>, k: K)
    requires Ok(c)
    ensures Ok(Get(c, k).cache)
    ensures forall x :: Has(Get(c, k).cache, x) <==> Has(c, x)
  {
    if Has(c, k) {
      PutKeepsOk(c, k, Find(c.entries, k).value, false);
      PutEffect(c, k, Find(c.entries, k).value, false);
    }
  }

  lemma RemoveKeepsOk<K(!new), V(!new)>(c: Cache<K, V>, k: K)
    requires Ok(c)
    ensures Ok(Remove(c, k))
  {
    DropKeyFacts(c.entries, k);
  }

  /** In a list of distinct keys Find returns the value of the entry. */
  lemma {:induction false} FindIsEntry<K(!new), V(!new)>(entries: seq<Entry<K, V>>, i: nat)
    requires i < |entries|
    requires forall j :: 0 <= j < i ==> entries[j].key != entries[i].key
    ensures Find(entries, entries[i].key) == Some(entries[i].value)
  {
    if i > 0 {
      FindIsEntry(entries[1..], i - 1);
    }
  }

  // Whole runs -----------------------------------------------------------------

  datatype Op<K, V> = PutOp(key: K, value: V) | GetOp(key: K) | RemoveOp(key: K)

  function Apply<K(==,!new), V(!new)>(c: Cache<K, V>, op: Op<K, V>): (r: Cache<K, V>)
    requires c.capacity > 0
    ensures r.capacity == c.capacity
  {
    match op
    case PutOp(k, v) => Put(c, k, v, true).cache
    case GetOp(k) => Get(c, k).cache
    case RemoveOp(k) => Remove(c, k)
  }

  /** A fresh cache after a run of operations. */
  function Run<K(==,!new), V(!new)>(capacity: nat, ops: seq<Op<K, V>>): (r: Cache<K, V>)
    requires capacity > 0
    ensures r.capacity == capacity
  {
    if ops == [] then Cache(capacity, [])
    else Apply(Run(capacity, ops[..|ops| - 1]), ops[|ops| - 1])
  }

  lemma ApplyKeepsOk<K(!new), V(!new)>(c: Cache<K, V>, op: Op<K, V>)
    requires Ok(c)
    ensures Ok(Apply(c, op))
  {
    match op
    case PutOp(k, v) => PutKeepsOk(c, k, v, true);
    case GetOp(k) => GetKeepsOk(c, k);
    case RemoveOp(k) => RemoveKeepsOk(c, k);
  }

  lemma {:induction false} RunOk<K(!new), V(!new)>(capacity: nat, ops: seq<Op<K, V>>)
    requires capacity > 0
    ensures Ok(Run(capacity, ops))
  {
    if ops != [] {
      RunOk(capacity, ops[..|ops| - 1]);
      ApplyKeepsOk(Run(capacity, ops[..|ops| - 1]), ops[|ops| - 1]);
    }
  }

  // Inclusion ------------------------------------------------------------------

  /** a is b with some elements left out, in the same order. */
  ghost predicate SubSeq<T(!new)>(a: seq<T>, b: seq<T>)
    decreases |b|
  {
    a == [] ||
    (b != [] &&
     (SubSeq(a, b[..|b| - 1]) ||
      (a[|a| - 1] == b[|b| - 1] && SubSeq(a[..|a| - 1], b[..|b| - 1]))))
  }

  lemma {:induction false} SubSeqFacts<T(!new)>(a: seq<T>, b: seq<T>)
    requires SubSeq(a, b)
    ensures |a| <= |b|
    ensures forall x :: x in a ==> x in b
    decreases |b|
  {
    if a != [] {
      var bi := b[..|b| - 1];
      if SubSeq(a, bi) {
        SubSeqFacts(a, bi);
      } else {
        SubSeqFacts(a[..|a| - 1], bi);
        assert a == a[..|a| - 1] + [a[|a| - 1]];
      }
    }
  }

  lemma SubSeqAppend<T(!new)>(a: seq<T>, b: seq<T>, x: T)
    requires SubSeq(a, b)
    ensures SubSeq(a + [x], b + [x])
  {
    assert (a + [x])[..|a|] == a && (b + [x])[..|b|] == b;
  }

  /** Leaving out one key on both sides, or on the longer side only when the
      shorter one lacks it. */
  lemma {:induction false} SubSeqDropKey<K(!new), V(!new)>(a: seq<Entry<K, V>>, b: seq<Entry<K, V>>, k: K)
    requires SubSeq(a, b)
    ensures SubSeq(DropKey(a, k), DropKey(b, k))
    decreases |b|
  {
    if a != [] {
      var bi := b[..|b| - 1];
      if SubSeq(a, bi) {
        SubSeqDropKey(a, bi, k);
        SubSeqSkip(DropKey(a, k), DropKey(bi, k), b[|b| - 1]);
      } else {
        SubSeqDropKey(a[..|a| - 1], bi, k);
        SubSeqAppend(DropKey(a[..|a| - 1], k), DropKey(bi, k), b[|b| - 1]);
      }
    }
  }

  lemma SubSeqSkip<T(!new)>(a: seq<T>, b: seq<T>, x: T)
    requires SubSeq(a, b)
    ensures SubSeq(a, b + [x])
  {
    assert (b + [x])[..|b|] == b;
  }

  /** Leaving out the head of the shorter list. */
  lemma {:induction false} SubSeqTail<T(!new)>(a: seq<T>, b: seq<T>)
    requires SubSeq(a, b) && a != []
    ensures SubSeq(a[1..], b)
    decreases |b|
  {
    var bi := b[..|b| - 1];
    if SubSeq(a, bi) {
      SubSeqTail(a, bi);
    } else if |a| > 1 {
      SubSeqTail(a[..|a| - 1], bi);
      assert a[1..][..|a| - 2] == a[..|a| - 1][1..];
    }
  }

  /** Leaving out the head of both lists: the head of the longer one is at best the
      head of the shorter one. */
  lemma {:induction false} SubSeqTails<T(!new)>(a: seq<T>, b: seq<T>)
    requires SubSeq(a, b) && a != []
    ensures SubSeq(a[1..], b[1..])
    decreases |b|
  {
    var bi := b[..|b| - 1];
    assert |b| > 1 ==> b[1..][..|b| - 2] == bi[1..];
    if SubSeq(a, bi) {
      SubSeqFacts(a, bi);
      SubSeqTails(a, bi);
    } else if |a| > 1 {
      SubSeqFacts(a[..|a| - 1], bi);
      SubSeqTails(a[..|a| - 1], bi);
      assert a[1..][..|a| - 2] == a[..|a| - 1][1..];
    }
  }

  /** The small cache's list is the large one's with some entries left out, and it
      never falls behind by more than the difference of the capacities. */
  ghost predicate Included<K(!new), V(!new)>(small: Cache<K, V>, large: Cache<K, V>) {
    && small.capacity <= large.capacity
    && SubSeq(small.entries, large.entries)
    && |large.entries| - |small.entries| <= large.capacity - small.capacity
  }

  lemma IncludedKeys<K(!new), V(!new)>(a: seq<Entry<K, V>>, b: seq<Entry<K, V>>, k: K)
    requires SubSeq(a, b) && Distinct(Keys(a)) && Distinct(Keys(b))
    ensures |a| <= |b|
    ensures k in Keys(a) ==> k in Keys(b) && Find(b, k) == Find(a, k)
  {
    SubSeqFacts(a, b);
    if k in Keys(a) {
      var e := Entry(k, Find(a, k).value);
      var i :| 0 <= i < |b| && b[i] == e;
      assert Keys(b)[i] == k;
      assert forall j :: 0 <= j < i ==> Keys(b)[j] != k;
      FindIsEntry(b, i);
    }
  }

  lemma PutKeepsIncluded<K(!new), V(!new)>(small: Cache<K, V>, large: Cache<K, V>, k: K, v: V)
    requires Ok(small) && Ok(large) && Included(small, large)
    ensures Included(Put(small, k, v, true).cache, Put(large, k, v, true).cache)
  {
    var a, b, e := small.entries, large.entries, Entry(k, v);
    IncludedKeys(a, b, k);
    DropKeyFacts(a, k);
    DropKeyFacts(b, k);
    if Has(small, k) || |a| < small.capacity {
      SubSeqDropKey(a, b, k);
      SubSeqAppend(DropKey(a, k), DropKey(b, k), e);
    } else if Has(large, k) || |b| < large.capacity {
      SubSeqDropKey(a, b, k);
      DropAbsent(a, k);
      SubSeqTail(a, DropKey(b, k));
      SubSeqAppend(a[1..], DropKey(b, k), e);
    } else {
      SubSeqTails(a, b);
      SubSeqAppend(a[1..], b[1..], e);
    }
  }

  lemma {:induction false} DropAbsent<K(!new), V(!new)>(s: seq<Entry<K, V>>, k: K)
    requires k !in Keys(s)
    ensures DropKey(s, k) == s
  {
    if s != [] {
      assert Keys(s)[|s| - 1] == s[|s| - 1].key;
      assert Keys(s[..|s| - 1]) == Keys(s)[..|s| - 1];
      DropAbsent(s[..|s| - 1], k);
    }
  }

  lemma GetKeepsIncluded<K(!new), V(!new)>(small: Cache<K, V>, large: Cache<K, V>, k: K)
    requires Ok(small) && Ok(large) && Included(small, large)
    ensures Included(Get(small, k).cache, Get(large, k).cache)
    ensures Get(small, k).value.Some? ==> Get(large, k).value == Get(small, k).value
  {
    var a, b := small.entries, large.entries;
    IncludedKeys(a, b, k);
    if Has(small, k) {
      PutKeepsIncluded(small, large, k, Find(a, k).value);
    } else if Has(large, k) {
      DropAbsent(a, k);
      SubSeqDropKey(a, b, k);
      DropKeyFacts(b, k);
      SubSeqSkip(a, DropKey(b, k), Entry(k, Find(b, k).value));
    }
  }

  lemma RemoveKeepsIncluded<K(!new), V(!new)>(small: Cache<K, V>, large: Cache<K, V>, k: K)
    requires Ok(small) && Ok(large) && Included(small, large)
    ensures Included(Remove(small, k), Remove(large, k))
  {
    IncludedKeys(small.entries, large.entries, k);
    SubSeqDropKey(small.entries, large.entries, k);
    DropKeyFacts(small.entries, k);
    DropKeyFacts(large.entries, k);
  }

  /** LRU inclusion over whole runs: what a small cache holds, a larger one fed the
      same operations holds too, in the same order of recency. */
  lemma {:induction false} Inclusion<K(!new), V(!new)>(c: nat, d: nat, ops: seq<Op<K, V>>)
    requires 0 < c <= d
    ensures Included(Run(c, ops), Run(d, ops))
  {
    if ops != [] {
      var before, op := ops[..|ops| - 1], ops[|ops| - 1];
      Inclusion(c, d, before);
      RunOk(c, before);
      RunOk(d, before);
      var small, large := Run(c, before), Run(d, before);
      match op
      case PutOp(k, v) => PutKeepsIncluded(small, large, k, v);
      case GetOp(k) => GetKeepsIncluded(small, large, k);
      case RemoveOp(k) => RemoveKeepsIncluded(small, large, k);
    }
  }

  // Recency --------------------------------------------------------------------

  /** The keys touched by a run: put, or got with a hit. */
  function Touches<K(==,!new), V(!new)>(capacity: nat, ops: seq<Op<K, V>>): seq<K>
    requires capacity > 0
  {
    if ops == [] then []
    else
      var before, op := ops[..|ops| - 1], ops[|ops| - 1];
      Touches(capacity, before) +
      if op.PutOp? || (op.GetOp? && Has(Run(capacity, before), op.key)) then [op.key] else []
  }

  /** The distinct keys of a trace, ordered by last touch. */
  function Recent<K(==,!new)>(t: seq<K>): seq<K> {
    if t == [] then [] else Drop(Recent(t[..|t| - 1]), t[|t| - 1]) + [t[|t| - 1]]
  }

  /** When k was last touched; -1 if never. */
  function LastTouch<K(==,!new)>(t: seq<K>, k: K): (i: int)
    ensures -1 <= i < |t|
    ensures i >= 0 ==> t[i] == k
    ensures forall j :: i < j < |t| ==> t[j] != k
  {
    if t == [] then -1
    else if t[|t| - 1] == k then |t| - 1
    else LastTouch(t[..|t| - 1], k)
  }

  /** The order of the keys other than the last one is that before the last touch. */
  lemma RecentOrder<K(!new)>(init: seq<K>, last: K, r: seq<K>, i: nat, j: nat)
    requires i < j <= |Drop(r, last)|
    requires forall p, q :: 0 <= p < q < |r| ==> LastTouch(init, r[p]) < LastTouch(init, r[q])
    ensures var after := Drop(r, last) + [last];
            LastTouch(init + [last], after[i]) < LastTouch(init + [last], after[j])
  {
    hide Drop;
    var t, d := init + [last], Drop(r, last);
    assert t[..|t| - 1] == init;
    DropMembers(r, last);
    assert d[i] in d;
    if j < |d| {
      DropOrder(r, last, i, j);
      assert d[j] in d;
    }
  }

  /** Recent lists exactly the touched keys, once each, by increasing last touch. */
  lemma {:induction false} RecentIsByLastTouch<K(!new)>(t: seq<K>)
    ensures forall k :: k in Recent(t) <==> k in t
    ensures Distinct(Recent(t))
    ensures forall i, j :: 0 <= i < j < |Recent(t)| ==> LastTouch(t, Recent(t)[i]) < LastTouch(t, Recent(t)[j])
  {
    if t != [] {
      var init, last := t[..|t| - 1], t[|t| - 1];
      assert t == init + [last];
      RecentIsByLastTouch(init);
      DropDistinct(Recent(init), last);
      DropMembers(Recent(init), last);
      forall i, j | 0 <= i < j < |Recent(t)|
        ensures LastTouch(t, Recent(t)[i]) < LastTouch(t, Recent(t)[j])
      {
        RecentOrder(init, last, Recent(init), i, j);
      }
    }
  }

  /** Drop keeps the order of what it keeps. */
  lemma {:induction false} DropOrder<K(!new)>(s: seq<K>, k: K, i: nat, j: nat)
    requires i < j < |Drop(s, k)|
    ensures exists p, q :: 0 <= p < q < |s| && s[p] == Drop(s, k)[i] && s[q] == Drop(s, k)[j]
  {
    var init := s[..|s| - 1];
    var d := Drop(init, k);
    if j < |d| {
      DropOrder(init, k, i, j);
      var p, q :| 0 <= p < q < |init| && init[p] == d[i] && init[q] == d[j];
      assert s[p] == Drop(s, k)[i] && s[q] == Drop(s, k)[j];
    } else {
      DropMembers(init, k);
      assert d[i] in d;
      var p :| 0 <= p < |init| && init[p] == d[i];
      assert s[p] == Drop(s, k)[i] && s[|s| - 1] == Drop(s, k)[j];
    }
  }

  function LastN<T>(s: seq<T>, n: nat): seq<T> {
    if |s| <= n then s else s[|s| - n..]
  }

  /** One touch of the window of the last n distinct keys: a key inside it moves to
      the end, another one pushes the first key out when the window is full. */
  lemma WindowAfterTouch<K(!new)>(r: seq<K>, k: K, n: nat)
    requires n > 0 && Distinct(r)
    ensures var w := LastN(r, n);
            LastN(Drop(r, k) + [k], n) == if k in w || |w| < n then Drop(w, k) + [k] else w[1..] + [k]
  {
    hide Drop;
    DropDistinct(r, k);
    if |r| > n {
      WindowOfMore(r, k, n);
    }
  }

  lemma LastOfConcat<T(!new)>(a: seq<T>, b: seq<T>)
    ensures LastN(a + b, |b|) == b
  {
  }

  lemma WindowOfMore<K(!new)>(r: seq<K>, k: K, n: nat)
    requires 0 < n < |r| && Distinct(r)
    ensures var w := r[|r| - n..];
            LastN(Drop(r, k) + [k], n) == if k in w then Drop(w, k) + [k] else w[1..] + [k]
  {
    var cut := |r| - n;
    var w := r[cut..];
    if k in w {
      KeyInWindow(r, k, cut);
      LastOfConcat(r[..cut], Drop(w, k) + [k]);
      assert r[..cut] + (Drop(w, k) + [k]) == Drop(r, k) + [k];
    } else {
      KeyBeforeWindow(r, k, cut);
      var front := Drop(r, k)[..|Drop(r, k)| - (n - 1)];
      LastOfConcat(front, w[1..] + [k]);
      assert front + (w[1..] + [k]) == Drop(r, k) + [k];
    }
  }

  lemma KeyInWindow<K(!new)>(r: seq<K>, k: K, cut: nat)
    requires cut < |r| && Distinct(r) && k in r[cut..]
    ensures Drop(r, k) == r[..cut] + Drop(r[cut..], k)
    ensures |Drop(r[cut..], k)| == |r| - cut - 1
  {
    hide Drop;
    var w := r[cut..];
    var j :| 0 <= j < |w| && w[j] == k;
    DropOneOf(r, cut + j);
    DropOneOf(w, j);
    CutInWindow(r, cut, j);
  }

  lemma CutInWindow<K(!new)>(r: seq<K>, cut: nat, j: nat)
    requires cut + j < |r|
    ensures r[..cut + j] + r[cut + j + 1..] == r[..cut] + (r[cut..][..j] + r[cut..][j + 1..])
  {
  }

  lemma KeyBeforeWindow<K(!new)>(r: seq<K>, k: K, cut: nat)
    requires cut < |r| && Distinct(r) && k !in r[cut..]
    ensures |Drop(r, k)| >= |r| - cut - 1
    ensures Drop(r, k)[|Drop(r, k)| - (|r| - cut - 1)..] == r[cut + 1..]
  {
    hide Drop;
    DropDistinct(r, k);
    if k in r {
      assert forall j :: cut <= j < |r| ==> r[j] in r[cut..];
      var i :| 0 <= i < |r| && r[i] == k;
      DropOneOf(r, i);
    }
  }

  ghost predicate NoRemoves<K(!new), V(!new)>(ops: seq<Op<K, V>>) {
    forall i :: 0 <= i < |ops| ==> !ops[i].RemoveOp?
  }

  /** Without removes the cache holds the last min(capacity, distinct) touched keys,
      ordered by last touch. */
  lemma {:induction false} Recency<K(!new), V(!new)>(capacity: nat, ops: seq<Op<K, V>>)
    requires capacity > 0 && NoRemoves(ops)
    ensures Keys(Run(capacity, ops).entries) == LastN(Recent(Touches(capacity, ops)), capacity)
  {
    hide Drop, Distinct, DropKey;
    if ops != [] {
      var before, op := ops[..|ops| - 1], ops[|ops| - 1];
      Recency(capacity, before);
      RunOk(capacity, before);
      var c, t := Run(capacity, before), Touches(capacity, before);
      RecentIsByLastTouch(t);
      if op.PutOp? || (op.GetOp? && Has(c, op.key)) {
        assert Touches(capacity, ops) == t + [op.key];
        assert (t + [op.key])[..|t|] == t;
        WindowAfterTouch(Recent(t), op.key, capacity);
        PutKeys(c, op.key, if op.PutOp? then op.value else Find(c.entries, op.key).value, op.PutOp?);
      } else {
        assert Touches(capacity, ops) == t;
      }
    }
  }

  /** Every eviction takes the cached key whose last touch is the oldest. */
  lemma EvictsLeastRecent<K(!new), V(!new)>(capacity: nat, ops: seq<Op<K, V>>, k: K, v: V, x: K)
    requires capacity > 0 && NoRemoves(ops)
    requires Put(Run(capacity, ops), k, v, true).evicted.Some?
    requires Has(Run(capacity, ops), x)
    ensures var out := Put(Run(capacity, ops), k, v, true).evicted.value;
            var t := Touches(capacity, ops);
            Has(Run(capacity, ops), out) && LastTouch(t, out) <= LastTouch(t, x)
  {
    hide Run, Touches, Recent, LastTouch, DropKey;
    var t := Touches(capacity, ops);
    Recency(capacity, ops);
    RecentIsByLastTouch(t);
    var keys, r := Keys(Run(capacity, ops).entries), Recent(t);
    var i :| 0 <= i < |keys| && keys[i] == x;
    var off := if |r| <= capacity then 0 else |r| - capacity;
    assert keys[0] == r[off] && keys[i] == r[off + i];
  }

  // Freshness ------------------------------------------------------------------

  /** The value of the latest put of k that no later remove of k undid. */
  function Latest<K(==), V>(ops: seq<Op<K, V>>, k: K): Option<V> {
    if ops == [] then None
    else
      match ops[|ops| - 1]
      case PutOp(x, v) => if x == k then Some(v) else Latest(ops[..|ops| - 1], k)
      case GetOp(_) => Latest(ops[..|ops| - 1], k)
      case RemoveOp(x) => if x == k then None else Latest(ops[..|ops| - 1], k)
  }

  /** No stale or removed value is ever cached. */
  lemma {:induction false} NeverStale<K(!new), V(!new)>(capacity: nat, ops: seq<Op<K, V>>, e: Entry<K, V>)
    requires capacity > 0 && e in Run(capacity, ops).entries
    ensures Latest(ops, e.key) == Some(e.value)
  {
    var before, op := ops[..|ops| - 1], ops[|ops| - 1];
    var c := Run(capacity, before);
    match op {
      case PutOp(k, v) =>
        PutEntries(c, k, v, true, e);
      case GetOp(k) =>
        if Has(c, k) {
          PutEntries(c, k, Find(c.entries, k).value, false, e);
          assert e in c.entries;
        }
      case RemoveOp(k) =>
        DropKeyKeys(c.entries, k);
    }
    if e in c.entries {
      NeverStale(capacity, before, e);
    }
  }
}
