/** Where documents are: exactly one copy each, on the server and replica that the ring
    gives, moved only when their owner changes. */
module Placement {
  import opened Wrappers
  import opened Hashing
  import opened Ring
  import opened ServerModel
  import opened ClusterModel
  import opened Migration
  import opened Removal

  /** A flushed server that was well placed stores a document exactly when that is what is
      readable there under the name and the ring files the hash there. */
  lemma StoredAt(cfg: Config, ring: seq<Peer>, k: nat, s: ServerState, d: Doc)
    requires Live(ring) && k < |ring| && ring[k] == s.peer && Sound(s) && Placed(cfg, ring, k, s)
    ensures d in Flush(cfg, s).docs <==>
            ReadAt(s, d.name) == Some(d.content) && d.hash == cfg.docHash(d.name) &&
            Next(ring, d.hash) == Place(k, d.index)
  {
    hide Next, RunEdits;
    var f := Flush(cfg, s);
    FlushReads(cfg, s);
    FlushKeepsPlaced(cfg, ring, k, s);
    var i := FindDoc(f.docs, d.name);
    if i < |f.docs| {
      assert f.docs[i] in f.docs;
    }
    if d in f.docs {
      LookupDoc(f.docs, d);
    }
  }

  /** Once its queue is flushed, server k stores a document exactly when that is what is
      readable under the name and the ring files the hash there: the databases are a
      function of the ring and of what is readable. */
  lemma StoredIffReadable(cfg: Config, ss: Cluster, k: nat, d: Doc)
    requires Inv(cfg, ss) && k < |ss|
    ensures d in Flush(cfg, ss[k]).docs <==>
            Read(cfg, ss, d.name) == Some(d.content) && d.hash == cfg.docHash(d.name) &&
            Next(RingOf(ss), d.hash) == Place(k, d.index)
  {
    StoredAt(cfg, RingOf(ss), k, ss[k], d);
  }

  // What ADD_SERVER moves ------------------------------------------------------

  /** A document that a label takes is on the newcomer, under the label that owns it. */
  lemma TakenMoves(cfg: Config, ss: Cluster, ss': Cluster, joiner: ServerState, i: nat, d: Doc)
    requires Joined(cfg, ss, ss', joiner) && i < |ss| && d in Flush(cfg, ss[i]).docs
    requires Taken(RingOf(ss), d.hash, joiner.peer.hashes, |joiner.peer.hashes|)
    ensures |ss'| == |ss|
    ensures var p := Next([joiner.peer] + RingOf(ss), d.hash);
            && p.server == 0
            && d.(index := p.replica) in Newcomer(joiner).docs
            && d !in Flush(cfg, ss'[i]).docs
  {
    hide Next, RunEdits, LocalNext, RingOk, DistinctHashes, FreshLabels, Captured;
    StoredAt(cfg, RingOf(ss), i, ss[i], d);
    JoinedMidRead(cfg, ss, ss', joiner, d.name);
    var j := FindDoc(joiner.docs, d.name);
    var e := joiner.docs[j];
    assert e in joiner.docs;
    NewcomerDoc(cfg, ss, ss', joiner, e);
    assert Newcomer(joiner).docs[j] == d.(index := LocalNext(joiner.peer.hashes, d.hash));
    assert |RingOf(ss')| == |RingOf(ss)|;
    if d in Flush(cfg, ss'[i]).docs {
      FlushNames(cfg, ss'[i], d);
    }
  }

  /** Any other document is where it was. */
  lemma OthersStay(cfg: Config, ss: Cluster, ss': Cluster, joiner: ServerState, i: nat, d: Doc)
    requires Joined(cfg, ss, ss', joiner) && i < |ss| && d in Flush(cfg, ss[i]).docs
    requires !Taken(RingOf(ss), d.hash, joiner.peer.hashes, |joiner.peer.hashes|)
    ensures |ss'| == |ss| && d in Flush(cfg, ss'[i]).docs
    ensures forall e :: e in Newcomer(joiner).docs ==> e.name != d.name
  {
    hide Next, RunEdits, LocalNext, RingOk, DistinctHashes, FreshLabels, Captured;
    StoredAt(cfg, RingOf(ss), i, ss[i], d);
    JoinedMidRead(cfg, ss, ss', joiner, d.name);
    assert |RingOf(ss')| == |RingOf(ss)|;
    StoredAt(cfg, RingOf(ss), i, ss'[i], d);
    forall e | e in Newcomer(joiner).docs
      ensures e.name != d.name
    {
      var j :| 0 <= j < |joiner.docs| && Newcomer(joiner).docs[j] == e;
      assert joiner.docs[j] in joiner.docs;
    }
  }

  /** ADD_SERVER moves exactly the documents whose owner changes, except that a document on
      the only label of the ring stays: a document of the flushed server i is afterwards
      on the newcomer, under the newcomer's label that owns its hash, or else still on
      server i under the same label, and never on both. */
  lemma AddMovesExactly(cfg: Config, ss: Cluster, id: nat, capacity: nat, i: nat, d: Doc)
    requires GoodConfig(cfg) && Inv(cfg, ss) && NewId(ss, id) && capacity > 0
    requires i < |ss| && d in Flush(cfg, ss[i]).docs
    ensures var all := AddServer(cfg, ss, id, capacity);
            && (Inv(cfg, all) <==> !OnOnlyLabel(cfg, ss))
            && AllWorking(all) && Live(RingOf(all)) && |all| == |ss| + 1
            && var p := Next(RingOf(all), d.hash);
               if p.server == 0 && !OnlyLabelAt(RingOf(ss), d.hash)
               then d.(index := p.replica) in Flush(cfg, all[0]).docs && d !in Flush(cfg, all[i + 1]).docs
               else && (OnlyLabelAt(RingOf(ss), d.hash) || p == Place(i + 1, d.index))
                    && d in Flush(cfg, all[i + 1]).docs
                    && forall e :: e in Flush(cfg, all[0]).docs ==> e.name != d.name
  {
    hide AddServer, MigrateLabels, OnOnlyLabel, Placed, RingOk, GoodConfig, MidInv, Next, LocalNext, DistinctHashes;
    AddKeepsInvIff(cfg, ss, id, capacity);
    AddReads(cfg, ss, id, capacity, d.name);
    AddIsJoined(cfg, ss, id, capacity);
    var (ss', joiner) := MigrateLabels(cfg, ss, NewServer(cfg, id, capacity), Replicas(cfg));
    JoinedMove(cfg, ss, ss', joiner, i, d);
  }

  lemma JoinedMove(cfg: Config, ss: Cluster, ss': Cluster, joiner: ServerState, i: nat, d: Doc)
    requires Joined(cfg, ss, ss', joiner) && i < |ss| && d in Flush(cfg, ss[i]).docs
    ensures var all := [Newcomer(joiner)] + ss';
            && AllWorking(all) && |all| == |ss| + 1 && Live(RingOf(all))
            && var p := Next(RingOf(all), d.hash);
               if p.server == 0 && !OnlyLabelAt(RingOf(ss), d.hash)
               then d.(index := p.replica) in Flush(cfg, all[0]).docs && d !in Flush(cfg, all[i + 1]).docs
               else && (OnlyLabelAt(RingOf(ss), d.hash) || p == Place(i + 1, d.index))
                    && d in Flush(cfg, all[i + 1]).docs
                    && forall e :: e in Flush(cfg, all[0]).docs ==> e.name != d.name
  {
    hide Next, LocalNext, DistinctHashes, Placed, RingOk, FreshLabels, Captured;
    JoinedOwner(cfg, ss, ss', joiner, d.name);
    StoredAt(cfg, RingOf(ss), i, ss[i], d);
    NextAfterJoin(RingOf(ss), joiner.peer, d.hash);
    if Taken(RingOf(ss), d.hash, joiner.peer.hashes, |joiner.peer.hashes|) {
      TakenMoves(cfg, ss, ss', joiner, i, d);
    } else {
      OthersStay(cfg, ss, ss', joiner, i, d);
    }
    assert Flush(cfg, Newcomer(joiner)).docs == Newcomer(joiner).docs;
  }

  /** Placement depends only on which servers are in: two systems with the same servers,
      in any order of their lists and after any history, file a hash alike. */
  lemma PlacementBySetOfIds(cfg: Config, ss: Cluster, tt: Cluster, n: CString)
    requires GoodConfig(cfg) && Inv(cfg, ss) && Inv(cfg, tt) && ss != [] && tt != []
    requires Ids(RingOf(ss)) == Ids(RingOf(tt))
    ensures ss[Owner(cfg, ss, n)].peer == tt[Owner(cfg, tt, n)].peer
    ensures Next(RingOf(ss), cfg.docHash(n)).replica == Next(RingOf(tt), cfg.docHash(n)).replica
  {
    SameIdsSamePeers(cfg, RingOf(ss), RingOf(tt));
    SameIdsSamePeers(cfg, RingOf(tt), RingOf(ss));
    NextIgnoresListOrder(RingOf(ss), RingOf(tt), cfg.docHash(n));
  }

  lemma SameIdsSamePeers(cfg: Config, r1: seq<Peer>, r2: seq<Peer>)
    requires RingOk(cfg, r1) && RingOk(cfg, r2) && Ids(r1) == Ids(r2)
    ensures forall x :: x in r1 ==> x in r2
  {
    forall x | x in r1
      ensures x in r2
    {
      assert x.id in Ids(r1);
      var j :| 0 <= j < |r2| && r2[j].id == x.id;
      assert r2[j] == x;
    }
  }

  // Conservation ---------------------------------------------------------------

  /** The images of the documents of a database, with multiplicity. */
  ghost function Image<T>(docs: seq<Doc>, f: Doc -> T): multiset<T> {
    if docs == [] then multiset{} else Image(docs[..|docs| - 1], f) + multiset{f(docs[|docs| - 1])}
  }

  ghost predicate IgnoresIndex<T(!new)>(f: Doc -> T) {
    forall d: Doc, i: nat :: f(d.(index := i)) == f(d)
  }

  /** The (name, content) pair of a document. */
  function Pair(d: Doc): (CString, CString) {
    (d.name, d.content)
  }

  /** A document without its index. */
  function Bare(d: Doc): Doc {
    d.(index := 0)
  }

  /** What the first k servers store once their queues are flushed. */
  ghost function Held<T>(cfg: Config, ss: Cluster, k: nat, f: Doc -> T): multiset<T>
    requires AllWorking(ss) && k <= |ss|
  {
    if k == 0 then multiset{} else Held(cfg, ss, k - 1, f) + Image(Flush(cfg, ss[k - 1]).docs, f)
  }

  lemma ImageNext<T(!new)>(docs: seq<Doc>, d: Doc, f: Doc -> T, x: T)
    ensures Image(docs + [d], f)[x] == Image(docs, f)[x] + if f(d) == x then 1 else 0
  {
    assert (docs + [d])[..|docs|] == docs;
  }

  lemma {:induction false} ImageConcat<T(!new)>(a: seq<Doc>, b: seq<Doc>, f: Doc -> T, x: T)
    ensures Image(a + b, f)[x] == Image(a, f)[x] + Image(b, f)[x]
    decreases |b|
  {
    hide Image;
    if b == [] {
      assert a + b == a;
      ImageOfNone(f);
    } else {
      var init, d := b[..|b| - 1], b[|b| - 1];
      ImageConcat(a, init, f, x);
      assert a + b == (a + init) + [d] && b == init + [d];
      ImageNext(a + init, d, f, x);
      ImageNext(init, d, f, x);
    }
  }

  lemma ImageOfNone<T(!new)>(f: Doc -> T)
    ensures Image([], f) == multiset{}
  {
  }

  /** A cut splits a database: what stays and what is handed over is what there was. */
  lemma {:induction false} ImageSplit<T(!new)>(docs: seq<Doc>, cut: Cut, f: Doc -> T, x: T)
    requires IgnoresIndex(f)
    ensures Image(Staying(docs, cut), f)[x] + Image(Handed(docs, cut), f)[x] == Image(docs, f)[x]
  {
    hide Image;
    if docs == [] {
      ImageOfNone(f);
    } else {
      var init, d := docs[..|docs| - 1], docs[|docs| - 1];
      ImageSplit(init, cut, f, x);
      assert docs == init + [d];
      ImageNext(init, d, f, x);
      if cut.Leaves(d) {
        var e := d.(index := cut.replica);
        ImageConcat([e], Handed(init, cut), f, x);
        ImageNext([], e, f, x);
        ImageOfNone(f);
        assert [] + [e] == [e];
        assert Staying(docs, cut) == Staying(init, cut);
      } else {
        ImageNext(Staying(init, cut), d, f, x);
        assert Handed(docs, cut) == Handed(init, cut);
      }
    }
  }

  /** New indexes do not count. */
  lemma {:induction false} ImageByIndex<T(!new)>(a: seq<Doc>, b: seq<Doc>, f: Doc -> T, x: T)
    requires IgnoresIndex(f) && |a| == |b|
    requires forall i :: 0 <= i < |a| ==> b[i] == a[i].(index := b[i].index)
    ensures Image(b, f)[x] == Image(a, f)[x]
  {
    if a != [] {
      ImageByIndex(a[..|a| - 1], b[..|b| - 1], f, x);
    }
  }

  lemma HeldNext<T(!new)>(cfg: Config, ss: Cluster, k: nat, f: Doc -> T, x: T)
    requires AllWorking(ss) && k < |ss|
    ensures Held(cfg, ss, k + 1, f)[x] == Held(cfg, ss, k, f)[x] + Image(Flush(cfg, ss[k]).docs, f)[x]
    ensures Held(cfg, ss, 0, f)[x] == 0
  {
  }

  /** Replacing one server. */
  lemma {:induction false} HeldUpdate<T(!new)>(cfg: Config, ss: Cluster, i: nat, s: ServerState, k: nat,
                                               f: Doc -> T, x: T)
    requires AllWorking(ss) && i < |ss| && Working(s) && k <= |ss|
    ensures AllWorking(ss[i := s])
    ensures Held(cfg, ss[i := s], k, f)[x] + (if i < k then Image(Flush(cfg, ss[i]).docs, f)[x] else 0) ==
            Held(cfg, ss, k, f)[x] + (if i < k then Image(Flush(cfg, s).docs, f)[x] else 0)
  {
    hide Flush, Image, Held;
    if k > 0 {
      HeldUpdate(cfg, ss, i, s, k - 1, f, x);
      HeldNext(cfg, ss, k - 1, f, x);
      HeldNext(cfg, ss[i := s], k - 1, f, x);
    } else {
      HeldNext(cfg, ss, 0, f, x);
      HeldNext(cfg, ss[i := s], 0, f, x);
    }
  }

  lemma {:induction false} HeldFront<T(!new)>(cfg: Config, s: ServerState, ss: Cluster, k: nat, f: Doc -> T, x: T)
    requires Working(s) && AllWorking(ss) && k <= |ss|
    ensures AllWorking([s] + ss)
    ensures Held(cfg, [s] + ss, k + 1, f)[x] == Image(Flush(cfg, s).docs, f)[x] + Held(cfg, ss, k, f)[x]
  {
    hide Flush, Image, Held;
    var all := [s] + ss;
    HeldNext(cfg, all, k, f, x);
    if k == 0 {
      HeldNone(cfg, ss, f);
      assert all[0] == s;
    } else {
      HeldFront(cfg, s, ss, k - 1, f, x);
      HeldNext(cfg, ss, k - 1, f, x);
      assert all[k] == ss[k - 1];
    }
  }

  lemma HeldNone<T(!new)>(cfg: Config, ss: Cluster, f: Doc -> T)
    requires AllWorking(ss)
    ensures Held(cfg, ss, 0, f) == multiset{}
  {
  }

  /** How often x is stored, on the servers and on a server that is about to join. */
  ghost function HeldWith<T(!new)>(cfg: Config, ss: Cluster, joiner: ServerState, f: Doc -> T, x: T): nat
    requires AllWorking(ss)
  {
    Held(cfg, ss, |ss|, f)[x] + Image(joiner.docs, f)[x]
  }

  lemma MigrateConserves<T(!new)>(cfg: Config, ss: Cluster, joiner: ServerState, r: nat, f: Doc -> T, x: T)
    requires AllWorking(ss) && r < |joiner.peer.hashes| && IgnoresIndex(f)
    ensures var (ss', joiner') := MigrateLabel(cfg, ss, joiner, r);
            HeldWith(cfg, ss', joiner', f, x) == HeldWith(cfg, ss, joiner, f, x)
  {
    hide Flush, Staying, Handed, Next, CacheAfter, Image, Held, CutAt;
    if ss != [] {
      var p := Next(RingOf(ss), joiner.peer.hashes[r]);
      var s, cut := Flush(cfg, ss[p.server]), CutAt(joiner.peer, r, RingOf(ss), p);
      FlushTwice(cfg, Donor(s, cut));
      HeldUpdate(cfg, ss, p.server, Donor(s, cut), |ss|, f, x);
      ImageSplit(s.docs, cut, f, x);
      ImageConcat(Handed(s.docs, cut), joiner.docs, f, x);
    }
  }

  lemma {:induction false} MigrationsConserve<T(!new)>(cfg: Config, ss: Cluster, joiner: ServerState, k: nat,
                                                       f: Doc -> T, x: T)
    requires AllWorking(ss) && k <= |joiner.peer.hashes| && IgnoresIndex(f)
    ensures var (ss', joiner') := MigrateLabels(cfg, ss, joiner, k);
            HeldWith(cfg, ss', joiner', f, x) == HeldWith(cfg, ss, joiner, f, x)
  {
    hide MigrateLabel, HeldWith, IgnoresIndex;
    if k > 0 {
      MigrationsConserve(cfg, ss, joiner, k - 1, f, x);
      var (ss', joiner') := MigrateLabels(cfg, ss, joiner, k - 1);
      MigrateConserves(cfg, ss', joiner', k - 1, f, x);
    }
  }

  /** What the newcomer stores, under whatever indexes. */
  lemma NewcomerImage<T(!new)>(cfg: Config, joiner: ServerState, f: Doc -> T, x: T)
    requires Working(joiner) && joiner.tasks == [] && IgnoresIndex(f)
    ensures Working(Newcomer(joiner))
    ensures Image(Flush(cfg, Newcomer(joiner)).docs, f)[x] == Image(joiner.docs, f)[x]
  {
    hide Flush;
    FlushTwice(cfg, Newcomer(joiner));
    ImageByIndex(joiner.docs, Newcomer(joiner).docs, f, x);
  }

  lemma AddWorks(cfg: Config, ss: Cluster, id: nat, capacity: nat)
    requires AllWorking(ss) && id <= MAX_SERVERS && capacity > 0
    ensures AllWorking(AddServer(cfg, ss, id, capacity)) && |AddServer(cfg, ss, id, capacity)| == |ss| + 1
  {
    hide MigrateLabels;
    var (ss', joiner) := MigrateLabels(cfg, ss, NewServer(cfg, id, capacity), Replicas(cfg));
    assert |RingOf(ss')| == |RingOf(ss)|;
  }

  lemma AddConservesEach<T(!new)>(cfg: Config, ss: Cluster, id: nat, capacity: nat, f: Doc -> T, x: T)
    requires AllWorking(ss) && id <= MAX_SERVERS && capacity > 0 && IgnoresIndex(f)
    ensures var all := AddServer(cfg, ss, id, capacity);
            AllWorking(all) && |all| == |ss| + 1 && Held(cfg, all, |all|, f)[x] == Held(cfg, ss, |ss|, f)[x]
  {
    hide MigrateLabels, Flush, Held, Image;
    var s := NewServer(cfg, id, capacity);
    MigrationsConserve(cfg, ss, s, Replicas(cfg), f, x);
    var (ss', joiner) := MigrateLabels(cfg, ss, s, Replicas(cfg));
    NewcomerImage(cfg, joiner, f, x);
    HeldFront(cfg, Newcomer(joiner), ss', |ss'|, f, x);
    assert |RingOf(ss')| == |RingOf(ss)|;
    ImageOfNone(f);
  }

  /** ADD_SERVER conserves every image of the documents that does not see their index. */
  lemma AddConservesImage<T(!new)>(cfg: Config, ss: Cluster, id: nat, capacity: nat, f: Doc -> T)
    requires AllWorking(ss) && id <= MAX_SERVERS && capacity > 0 && IgnoresIndex(f)
    ensures var all := AddServer(cfg, ss, id, capacity);
            AllWorking(all) && |all| == |ss| + 1 && Held(cfg, all, |all|, f) == Held(cfg, ss, |ss|, f)
  {
    hide AddServer, Held, IgnoresIndex;
    var all := AddServer(cfg, ss, id, capacity);
    AddWorks(cfg, ss, id, capacity);
    forall x
      ensures Held(cfg, all, |all|, f)[x] == Held(cfg, ss, |ss|, f)[x]
    {
      AddConservesEach(cfg, ss, id, capacity, f, x);
    }
  }

  /** Adding a server loses and duplicates no document, whatever the ring. */
  lemma AddConserves(cfg: Config, ss: Cluster, id: nat, capacity: nat)
    requires AllWorking(ss) && id <= MAX_SERVERS && capacity > 0
    ensures var all := AddServer(cfg, ss, id, capacity);
            AllWorking(all) && Held(cfg, all, |all|, Pair) == Held(cfg, ss, |ss|, Pair)
  {
    AddConservesImage(cfg, ss, id, capacity, Pair);
  }

  lemma {:induction false} CountPairs(docs: seq<Doc>, n: CString, c: CString)
    requires NamesDistinct(docs)
    ensures Image(docs, Pair)[(n, c)] == if Lookup(docs, n) == Some(c) then 1 else 0
  {
    if docs != [] {
      CountPairs(docs[..|docs| - 1], n, c);
      LookupPrefix(docs, n);
      var last := docs[|docs| - 1];
      if last.name == n {
        LookupNone(docs[..|docs| - 1], n);
      }
    }
  }

  lemma CountServer(cfg: Config, ss: Cluster, k: nat, n: CString, c: CString)
    requires Inv(cfg, ss) && k < |ss|
    ensures Image(Flush(cfg, ss[k]).docs, Pair)[(n, c)] ==
            if Owner(cfg, ss, n) == k && Read(cfg, ss, n) == Some(c) then 1 else 0
  {
    FlushReads(cfg, ss[k]);
    CountPairs(Flush(cfg, ss[k]).docs, n, c);
    if Owner(cfg, ss, n) != k {
      NotHeld(cfg, ss, k, n);
    }
  }

  lemma {:induction false} CountHeld(cfg: Config, ss: Cluster, k: nat, x: (CString, CString), owner: nat, there: bool)
    requires AllWorking(ss) && k <= |ss|
    requires forall j :: 0 <= j < |ss| ==>
               Image(Flush(cfg, ss[j]).docs, Pair)[x] == if owner == j && there then 1 else 0
    ensures Held(cfg, ss, k, Pair)[x] == if owner < k && there then 1 else 0
  {
    hide Flush, Image;
    if k > 0 {
      CountHeld(cfg, ss, k - 1, x, owner, there);
    }
  }

  /** Each readable name is stored once in the whole system, with its content, and
      nothing else is stored. */
  lemma StoredOnce(cfg: Config, ss: Cluster, n: CString, c: CString)
    requires Inv(cfg, ss)
    ensures Held(cfg, ss, |ss|, Pair)[(n, c)] == if Read(cfg, ss, n) == Some(c) then 1 else 0
  {
    if ss != [] {
      forall j | 0 <= j < |ss|
        ensures Image(Flush(cfg, ss[j]).docs, Pair)[(n, c)] ==
                if Owner(cfg, ss, n) == j && Read(cfg, ss, n) == Some(c) then 1 else 0
      {
        CountServer(cfg, ss, j, n, c);
      }
      CountHeld(cfg, ss, |ss|, (n, c), Owner(cfg, ss, n), Read(cfg, ss, n) == Some(c));
    }
  }

  /** Systems that read alike hold the same pairs the same number of times. */
  lemma HeldByReads(cfg: Config, ss: Cluster, tt: Cluster)
    requires Inv(cfg, ss) && Inv(cfg, tt)
    requires forall n :: Read(cfg, ss, n) == Read(cfg, tt, n)
    ensures Held(cfg, ss, |ss|, Pair) == Held(cfg, tt, |tt|, Pair)
  {
    hide Read, Held, Sound, Placed;
    forall x: (CString, CString)
      ensures Held(cfg, ss, |ss|, Pair)[x] == Held(cfg, tt, |tt|, Pair)[x]
    {
      StoredOnce(cfg, ss, x.0, x.1);
      StoredOnce(cfg, tt, x.0, x.1);
    }
  }

  /** Removing a server loses and duplicates no document, unless it is the last one. */
  lemma RemoveConserves(cfg: Config, ss: Cluster, id: nat)
    requires GoodConfig(cfg) && Inv(cfg, ss)
    ensures var k := FindServer(ss, id); k < |ss| ==> IndexesOk(Flush(cfg, ss[k]))
    ensures var rest := RemoveServer(cfg, ss, id);
            && Inv(cfg, rest)
            && if |ss| == 1 && ss[0].peer.id == id then rest == []
               else Held(cfg, rest, |rest|, Pair) == Held(cfg, ss, |ss|, Pair)
  {
    hide Flush, Rehome, GoodConfig, Placed, RingOk, ReadAt;
    RemoveRefines(cfg, ss, id, []);
    var rest := RemoveServer(cfg, ss, id);
    if !(|ss| == 1 && ss[0].peer.id == id) {
      forall n
        ensures Read(cfg, rest, n) == Read(cfg, ss, n)
      {
        RemoveRefines(cfg, ss, id, n);
      }
      HeldByReads(cfg, rest, ss);
    }
  }

  // Add, then remove -----------------------------------------------------------

  lemma AddThenRemoveRing(cfg: Config, ss: Cluster, id: nat, capacity: nat)
    requires GoodConfig(cfg) && Inv(cfg, ss) && NewId(ss, id) && capacity > 0 && !OnOnlyLabel(cfg, ss) && ss != []
    ensures var all := AddServer(cfg, ss, id, capacity);
            && Inv(cfg, all)
            && FindServer(all, id) == 0 && |all| > 1
            && IndexesOk(Flush(cfg, all[0]))
            && Inv(cfg, RemoveServer(cfg, all, id))
            && RingOf(RemoveServer(cfg, all, id)) == RingOf(ss)
  {
    var all := AddServer(cfg, ss, id, capacity);
    AddKeepsInvIff(cfg, ss, id, capacity);
    JoinedRing(cfg, ss, id, capacity);
    assert |RingOf(all)| == |ss| + 1;
    assert RingOf(all)[0].id == id;
    RemoveRefines(cfg, all, id, []);
    RingWithout(all, 0);
    assert Without(RingOf(all), 0) == RingOf(ss);
  }

  lemma AddThenRemoveKept(cfg: Config, ss: Cluster, id: nat, capacity: nat, k: nat)
    requires GoodConfig(cfg) && Inv(cfg, ss) && NewId(ss, id) && capacity > 0 && k < |ss|
    requires !OnOnlyLabel(cfg, ss)
    ensures AddRemoved(cfg, ss, id, capacity, k)
  {
    var all := AddServer(cfg, ss, id, capacity);
    AddThenRemoveRing(cfg, ss, id, capacity);
    AddKeepsReadsIff(cfg, ss, id, capacity);
    var back := RemoveServer(cfg, all, id);
    assert |RingOf(back)| == |RingOf(ss)|;
    var a, b := Flush(cfg, back[k]).docs, Flush(cfg, ss[k]).docs;
    forall d
      ensures d in a <==> d in b
    {
      RemoveRefines(cfg, all, id, d.name);
      StoredIffReadable(cfg, back, k, d);
      StoredIffReadable(cfg, ss, k, d);
    }
    FlushReads(cfg, back[k]);
    FlushReads(cfg, ss[k]);
    SameMembersSameMultiset(a, b);
  }

  /** Server k has its documents back after a server was added and removed again. */
  ghost predicate AddRemoved(cfg: Config, ss: Cluster, id: nat, capacity: nat, k: nat)
    requires AllWorking(ss) && id <= MAX_SERVERS && k < |ss|
  {
    var all := AddServer(cfg, ss, id, capacity);
    && AllWorking(all) && FindServer(all, id) < |all|
    && IndexesOk(Flush(cfg, all[FindServer(all, id)]))
    && var back := RemoveServer(cfg, all, id);
       && RingOf(back) == RingOf(ss) && AllWorking(back) && |back| == |ss|
       && multiset(Flush(cfg, back[k]).docs) == multiset(Flush(cfg, ss[k]).docs)
  }

  ghost predicate ZeroIndexed(docs: seq<Doc>) {
    forall d :: d in docs ==> d.index == 0
  }

  lemma {:induction false} BareIsAll(docs: seq<Doc>)
    requires ZeroIndexed(docs)
    ensures Image(docs, Bare) == multiset(docs)
  {
    if docs != [] {
      var init, d := docs[..|docs| - 1], docs[|docs| - 1];
      assert docs == init + [d];
      BareIsAll(init);
    }
  }

  lemma OnlyOneNext(ring: seq<Peer>, h: Word)
    requires |ring| == 1 && |ring[0].hashes| == 1
    ensures Next(ring, h) == Place(0, 0)
  {
  }

  /** Documents sent to a ring with one label all get index 0. */
  lemma {:induction false} RehomeToOne(s: ServerState, hashes: seq<Word>, docs: seq<Doc>, x: Doc)
    requires Working(s) && |s.peer.hashes| == 1 && ZeroIndexed(s.docs)
    requires forall i :: 0 <= i < |docs| ==> docs[i].index < |hashes|
    ensures var r := Rehome([s], hashes, docs);
            && |r| == 1 && r[0].peer == s.peer && r[0].tasks == s.tasks && ZeroIndexed(r[0].docs)
            && Image(r[0].docs, Bare)[x] == Image(s.docs, Bare)[x] + Image(docs, Bare)[x]
  {
    hide Image, Next;
    if docs == [] {
      ImageOfNone(Bare);
    } else {
      var init, d := docs[..|docs| - 1], docs[|docs| - 1];
      RehomeToOne(s, hashes, init, x);
      var e, before := d.(index := 0), Rehome([s], hashes, init);
      OnlyOneNext(RingOf([s]), hashes[d.index]);
      assert docs == init + [d];
      ImageNext(init, d, Bare, x);
      ImageConcat([e], before[0].docs, Bare, x);
      ImageNext([], e, Bare, x);
      ImageOfNone(Bare);
      assert [] + [e] == [e];
    }
  }

  /** A single server with a single label, after another server joined: both queues are
      empty, and what is left of the database has index 0. */
  lemma AddToOne(cfg: Config, ss: Cluster, id: nat, capacity: nat)
    requires Inv(cfg, ss) && |ss| == 1 && |ss[0].peer.hashes| == 1 && id <= MAX_SERVERS && capacity > 0
    ensures ZeroIndexed(Flush(cfg, ss[0]).docs)
    ensures var all := AddServer(cfg, ss, id, capacity);
            && |all| == 2 && AllWorking(all) && all[0].peer.id == id && all[0].tasks == [] && IndexesOk(all[0])
            && all[1].peer == ss[0].peer && all[1].tasks == [] && ZeroIndexed(all[1].docs)
  {
    hide Flush, Staying, Handed, CacheAfter;
    FlushKeepsPlaced(cfg, RingOf(ss), 0, ss[0]);
    var joiner, f := NewServer(cfg, id, capacity), Flush(cfg, ss[0]);
    var cut := CutAt(joiner.peer, 0, RingOf(ss), Next(RingOf(ss), joiner.peer.hashes[0]));
    StayingMembers(f.docs, cut);
    assert Replicas(cfg) == |LabelHashes(cfg, ss[0].peer.id)| == 1;
    assert MigrateLabels(cfg, ss, joiner, 0) == (ss, joiner);
    assert MigrateLabels(cfg, ss, joiner, 1) == MigrateLabel(cfg, ss, joiner, 0);
    assert ss[0 := Donor(f, cut)] == [Donor(f, cut)];
  }

  lemma HeldOfTwo(cfg: Config, ss: Cluster, x: Doc)
    requires AllWorking(ss) && |ss| == 2
    ensures Held(cfg, ss, 2, Bare)[x] == Image(Flush(cfg, ss[0]).docs, Bare)[x] + Image(Flush(cfg, ss[1]).docs, Bare)[x]
  {
    hide Flush, Image, Held;
    HeldNext(cfg, ss, 0, Bare, x);
    HeldNext(cfg, ss, 1, Bare, x);
  }

  /** On a ring with a single label the newcomer's documents all come back, and a document
      on that label never left. */
  lemma AddThenRemoveOne(cfg: Config, ss: Cluster, id: nat, capacity: nat)
    requires Inv(cfg, ss) && |ss| == 1 && |ss[0].peer.hashes| == 1 && NewId(ss, id) && capacity > 0
    ensures AddRemoved(cfg, ss, id, capacity, 0)
  {
    hide AddServer, Rehome, Flush, Image, Held, IgnoresIndex, ZeroIndexed;
    var all := AddServer(cfg, ss, id, capacity);
    AddToOne(cfg, ss, id, capacity);
    FlushTwice(cfg, all[0]);
    FlushTwice(cfg, all[1]);
    var back := RemoveServer(cfg, all, id);
    assert Without(all, 0) == [all[1]];
    assert back == Rehome([all[1]], all[0].peer.hashes, all[0].docs);
    RehomeToOne(all[1], all[0].peer.hashes, all[0].docs, Doc([], [], 0, 0));
    FlushTwice(cfg, back[0]);
    forall x
      ensures Image(back[0].docs, Bare)[x] == Image(Flush(cfg, ss[0]).docs, Bare)[x]
    {
      RehomeToOne(all[1], all[0].peer.hashes, all[0].docs, x);
      BareIgnoresIndex();
      AddConservesEach(cfg, ss, id, capacity, Bare, x);
      HeldOfTwo(cfg, all, x);
      HeldNext(cfg, ss, 0, Bare, x);
    }
    BareIsAll(back[0].docs);
    BareIsAll(Flush(cfg, ss[0]).docs);
    assert Image(back[0].docs, Bare) == Image(Flush(cfg, ss[0]).docs, Bare);
    assert RingOf(back) == RingOf(ss);
  }

  lemma BareIgnoresIndex()
    ensures IgnoresIndex(Bare)
  {
  }

  /** Adding a server and removing it again, with no request in between, brings every
      document back to its server and its label: once their queues are flushed, all
      databases hold what they held, up to order. This includes a document on the only label
      of the ring, which the newcomer owns for a while and never gets. */
  lemma AddThenRemove(cfg: Config, ss: Cluster, id: nat, capacity: nat, k: nat)
    requires GoodConfig(cfg) && Inv(cfg, ss) && NewId(ss, id) && capacity > 0 && k < |ss|
    ensures Inv(cfg, AddServer(cfg, ss, id, capacity)) <==> !OnOnlyLabel(cfg, ss)
    ensures AddRemoved(cfg, ss, id, capacity, k)
  {
    AddKeepsInvIff(cfg, ss, id, capacity);
    if OnOnlyLabel(cfg, ss) {
      AddThenRemoveOne(cfg, ss, id, capacity);
    } else {
      AddThenRemoveKept(cfg, ss, id, capacity, k);
    }
  }

  lemma {:induction false} CountInDistinct(docs: seq<Doc>, d: Doc)
    requires NamesDistinct(docs)
    ensures multiset(docs)[d] == if d in docs then 1 else 0
  {
    if docs != [] {
      var init, last := docs[..|docs| - 1], docs[|docs| - 1];
      assert docs == init + [last];
      CountInDistinct(init, d);
    }
  }

  lemma SameMembersSameMultiset(a: seq<Doc>, b: seq<Doc>)
    requires NamesDistinct(a) && NamesDistinct(b) && forall d :: d in a <==> d in b
    ensures multiset(a) == multiset(b)
  {
    forall d
      ensures multiset(a)[d] == multiset(b)[d]
    {
      CountInDistinct(a, d);
      CountInDistinct(b, d);
    }
  }
}
