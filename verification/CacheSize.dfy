/** What larger caches change: nothing but more cache hits. */
module CacheSize {
  import opened Hashing
  import opened Ring
  import opened ServerModel
  import opened ClusterModel
  import opened Migration
  import Removal
  import opened System
  import Lru = LruModel

  /** Two states of a server that differ in cache capacity, in what fits, and in the
      logs printed. */
  ghost predicate Smaller(s: ServerState, t: ServerState) {
    && s.peer == t.peer && s.docs == t.docs && s.tasks == t.tasks
    && Lru.Included(s.cache, t.cache)
  }

  ghost predicate AllSmaller(ss: Cluster, tt: Cluster) {
    |ss| == |tt| && forall k :: 0 <= k < |ss| ==> Smaller(ss[k], tt[k])
  }

  ghost predicate AllSound(ss: Cluster) {
    forall k :: 0 <= k < |ss| ==> Sound(ss[k])
  }

  lemma EditKeepsSmaller(cfg: Config, s: ServerState, t: ServerState, e: Task)
    requires Sound(s) && Sound(t) && Smaller(s, t)
    ensures Smaller(Edit(cfg, s, e), Edit(cfg, t, e))
  {
    PutAfterGet(s.cache, e.name, e.content, true);
    PutAfterGet(t.cache, e.name, e.content, true);
    Lru.PutKeepsIncluded(s.cache, t.cache, e.name, e.content);
  }

  lemma {:induction false} EditsKeepSmaller(cfg: Config, s: ServerState, t: ServerState, ts: seq<Task>)
    requires Sound(s) && Sound(t) && Smaller(s, t)
    ensures Smaller(RunEdits(cfg, s, ts), RunEdits(cfg, t, ts))
  {
    if ts != [] {
      var init := ts[..|ts| - 1];
      EditsKeepSmaller(cfg, s, t, init);
      RunEditsSound(cfg, s, init);
      RunEditsSound(cfg, t, init);
      EditKeepsSmaller(cfg, RunEdits(cfg, s, init), RunEdits(cfg, t, init), ts[|ts| - 1]);
    }
  }

  lemma FlushKeepsSmaller(cfg: Config, s: ServerState, t: ServerState)
    requires Sound(s) && Sound(t) && Smaller(s, t)
    ensures Smaller(Flush(cfg, s), Flush(cfg, t))
  {
    EditsKeepSmaller(cfg, s, t, s.tasks);
  }

  /** A GET of a stored document leaves the cache as a put of it would, hit or miss. */
  lemma GetCache(s: ServerState, n: CString)
    requires Sound(s)
    ensures var i := FindDoc(s.docs, n);
            GetDocument(s, n).0.cache ==
            if i < |s.docs| then Lru.Put(s.cache, n, s.docs[i].content, true).cache else s.cache
    ensures GetDocument(s, n).1.log == Hit(n) <==> Lru.Has(s.cache, n)
  {
    if Lru.Has(s.cache, n) {
      var v := Lru.Find(s.cache.entries, n).value;
      assert Lru.Entry(n, v) in s.cache.entries;
      PutAfterGet(s.cache, n, v, false);
    }
  }

  /** The larger cache hits whenever the smaller one does. */
  lemma GetKeepsSmaller(cfg: Config, s: ServerState, t: ServerState, n: CString)
    requires Sound(s) && Sound(t) && Smaller(s, t)
    ensures Smaller(HandleGet(cfg, s, n).0, HandleGet(cfg, t, n).0)
    ensures HandleGet(cfg, s, n).1.log == Hit(n) ==> HandleGet(cfg, t, n).1.log == Hit(n)
  {
    FlushKeepsSmaller(cfg, s, t);
    FlushReads(cfg, s);
    FlushReads(cfg, t);
    var a, b := Flush(cfg, s), Flush(cfg, t);
    GetCache(a, n);
    GetCache(b, n);
    Lru.IncludedKeys(a.cache.entries, b.cache.entries, n);
    var i := FindDoc(a.docs, n);
    if i < |a.docs| {
      Lru.PutKeepsIncluded(a.cache, b.cache, n, a.docs[i].content);
    }
  }

  lemma {:induction false} DonorKeepsIncluded(c: Cache, d: Cache, docs: seq<Doc>, cut: Cut)
    requires Lru.Ok(c) && Lru.Ok(d) && Lru.Included(c, d)
    ensures Lru.Included(CacheAfter(c, docs, cut), CacheAfter(d, docs, cut))
  {
    if docs != [] {
      var init := docs[..|docs| - 1];
      DonorKeepsIncluded(c, d, init, cut);
      CacheAfterMembers(c, init, cut);
      CacheAfterMembers(d, init, cut);
      Lru.RemoveKeepsIncluded(CacheAfter(c, init, cut), CacheAfter(d, init, cut), docs[|docs| - 1].name);
    }
  }

  lemma SameRing(ss: Cluster, tt: Cluster)
    requires AllSmaller(ss, tt)
    ensures RingOf(ss) == RingOf(tt)
  {
  }

  // ADD_SERVER -----------------------------------------------------------------

  lemma MigrateKeepsSmaller(cfg: Config, ss: Cluster, tt: Cluster, s: ServerState, t: ServerState, r: nat)
    requires AllSound(ss) && AllSound(tt) && AllSmaller(ss, tt) && Smaller(s, t) && r < |s.peer.hashes|
    ensures AllSound(MigrateLabel(cfg, ss, s, r).0) && AllSound(MigrateLabel(cfg, tt, t, r).0)
    ensures AllSmaller(MigrateLabel(cfg, ss, s, r).0, MigrateLabel(cfg, tt, t, r).0)
    ensures Smaller(MigrateLabel(cfg, ss, s, r).1, MigrateLabel(cfg, tt, t, r).1)
  {
    SameRing(ss, tt);
    if ss != [] {
      var p := Next(RingOf(ss), s.peer.hashes[r]);
      var cut := CutAt(s.peer, r, RingOf(ss), p);
      var a, b := Flush(cfg, ss[p.server]), Flush(cfg, tt[p.server]);
      FlushKeepsSmaller(cfg, ss[p.server], tt[p.server]);
      FlushReads(cfg, ss[p.server]);
      FlushReads(cfg, tt[p.server]);
      DonorKeepsIncluded(a.cache, b.cache, a.docs, cut);
      DonorSound(a, cut);
      DonorSound(b, cut);
    }
  }

  ghost predicate SmallerPairs(a: (Cluster, ServerState), b: (Cluster, ServerState)) {
    AllSound(a.0) && AllSound(b.0) && AllSmaller(a.0, b.0) && Smaller(a.1, b.1)
  }

  lemma TurnKeepsSmaller(cfg: Config, a: (Cluster, ServerState), b: (Cluster, ServerState), r: nat)
    requires SmallerPairs(a, b) && r < |a.1.peer.hashes|
    ensures SmallerPairs(MigrateLabel(cfg, a.0, a.1, r), MigrateLabel(cfg, b.0, b.1, r))
  {
    MigrateKeepsSmaller(cfg, a.0, b.0, a.1, b.1, r);
  }

  lemma LabelsTurn(cfg: Config, ss: Cluster, s: ServerState, k: nat)
    requires AllWorking(ss) && 0 < k <= |s.peer.hashes|
    ensures var a := MigrateLabels(cfg, ss, s, k - 1);
            MigrateLabels(cfg, ss, s, k) == MigrateLabel(cfg, a.0, a.1, k - 1)
  {
  }

  lemma MigrationsStep(cfg: Config, ss: Cluster, tt: Cluster, s: ServerState, t: ServerState, k: nat,
                       a: (Cluster, ServerState), b: (Cluster, ServerState))
    requires AllWorking(ss) && AllWorking(tt) && s.peer == t.peer && 0 < k <= |s.peer.hashes|
    requires SmallerPairs(a, b) && k <= |a.1.peer.hashes|
    requires MigrateLabels(cfg, ss, s, k) == MigrateLabel(cfg, a.0, a.1, k - 1)
    requires MigrateLabels(cfg, tt, t, k) == MigrateLabel(cfg, b.0, b.1, k - 1)
    ensures SmallerPairs(MigrateLabels(cfg, ss, s, k), MigrateLabels(cfg, tt, t, k))
  {
    hide MigrateLabel, MigrateLabels;
    TurnKeepsSmaller(cfg, a, b, k - 1);
  }

  lemma MigrationsNext(cfg: Config, ss: Cluster, tt: Cluster, s: ServerState, t: ServerState, k: nat)
    requires AllWorking(ss) && AllWorking(tt) && s.peer == t.peer && 0 < k <= |s.peer.hashes|
    requires SmallerPairs(MigrateLabels(cfg, ss, s, k - 1), MigrateLabels(cfg, tt, t, k - 1))
    ensures SmallerPairs(MigrateLabels(cfg, ss, s, k), MigrateLabels(cfg, tt, t, k))
  {
    LabelsTurn(cfg, ss, s, k);
    LabelsTurn(cfg, tt, t, k);
    MigrationsStep(cfg, ss, tt, s, t, k, MigrateLabels(cfg, ss, s, k - 1), MigrateLabels(cfg, tt, t, k - 1));
  }

  lemma {:induction false} MigrationsKeepSmaller(cfg: Config, ss: Cluster, tt: Cluster, s: ServerState, t: ServerState,
                                                 k: nat)
    requires SmallerPairs((ss, s), (tt, t)) && k <= |s.peer.hashes|
    ensures SmallerPairs(MigrateLabels(cfg, ss, s, k), MigrateLabels(cfg, tt, t, k))
    decreases k
  {
    hide MigrateLabel;
    if k > 0 {
      MigrationsKeepSmaller(cfg, ss, tt, s, t, k - 1);
      MigrationsNext(cfg, ss, tt, s, t, k);
    }
  }

  lemma AddKeepsSmaller(cfg: Config, ss: Cluster, tt: Cluster, id: nat, c: nat, d: nat)
    requires AllSound(ss) && AllSound(tt) && AllSmaller(ss, tt) && id <= MAX_SERVERS && 0 < c <= d
    ensures AllSmaller(AddServer(cfg, ss, id, c), AddServer(cfg, tt, id, d))
  {
    var s, t := NewServer(cfg, id, c), NewServer(cfg, id, d);
    MigrationsKeepSmaller(cfg, ss, tt, s, t, Replicas(cfg));
  }

  // REMOVE_SERVER --------------------------------------------------------------

  lemma {:induction false} RehomeKeepsSmaller(ss: Cluster, tt: Cluster, hashes: seq<Word>, docs: seq<Doc>)
    requires ss != [] && AllWorking(ss) && AllWorking(tt) && AllSmaller(ss, tt)
    requires forall i :: 0 <= i < |docs| ==> docs[i].index < |hashes|
    ensures AllSmaller(Rehome(ss, hashes, docs), Rehome(tt, hashes, docs))
  {
    SameRing(ss, tt);
    if docs != [] {
      RehomeKeepsSmaller(ss, tt, hashes, docs[..|docs| - 1]);
    }
  }

  lemma FindInSmaller(ss: Cluster, tt: Cluster, id: nat)
    requires AllSmaller(ss, tt)
    ensures FindServer(ss, id) == FindServer(tt, id)
  {
    var i, j := FindServer(ss, id), FindServer(tt, id);
    assert i < |ss| ==> tt[i].peer.id == id;
    assert j < |tt| ==> ss[j].peer.id == id;
  }

  lemma GoneKeepsSmaller(cfg: Config, ss: Cluster, tt: Cluster, k: nat)
    requires AllSound(ss) && AllSound(tt) && AllSmaller(ss, tt) && k < |ss| && |ss| > 1
    requires IndexesOk(Flush(cfg, ss[k]))
    ensures Flush(cfg, tt[k]).docs == Flush(cfg, ss[k]).docs
    ensures AllSmaller(Rehome(Without(ss, k), ss[k].peer.hashes, Flush(cfg, ss[k]).docs),
                       Rehome(Without(tt, k), ss[k].peer.hashes, Flush(cfg, ss[k]).docs))
  {
    FlushKeepsSmaller(cfg, ss[k], tt[k]);
    RehomeKeepsSmaller(Without(ss, k), Without(tt, k), ss[k].peer.hashes, Flush(cfg, ss[k]).docs);
  }

  lemma RemovedOne(cfg: Config, ss: Cluster, id: nat)
    requires AllWorking(ss) && |ss| > 1 && FindServer(ss, id) < |ss|
    requires IndexesOk(Flush(cfg, ss[FindServer(ss, id)]))
    ensures var k := FindServer(ss, id);
            RemoveServer(cfg, ss, id) == Rehome(Without(ss, k), ss[k].peer.hashes, Flush(cfg, ss[k]).docs)
  {
  }

  lemma RemoveKeepsSmaller(cfg: Config, ss: Cluster, tt: Cluster, id: nat)
    requires AllSound(ss) && AllSound(tt) && AllSmaller(ss, tt)
    requires var k := FindServer(ss, id); k < |ss| ==> IndexesOk(Flush(cfg, ss[k]))
    requires var k := FindServer(tt, id); k < |tt| ==> IndexesOk(Flush(cfg, tt[k]))
    ensures AllSmaller(RemoveServer(cfg, ss, id), RemoveServer(cfg, tt, id))
  {
    hide Rehome, Flush;
    var k := FindServer(ss, id);
    FindInSmaller(ss, tt, id);
    if k < |ss| && |ss| > 1 {
      RemovedOne(cfg, ss, id);
      RemovedOne(cfg, tt, id);
      GoneKeepsSmaller(cfg, ss, tt, k);
    }
  }

  // Whole runs -----------------------------------------------------------------

  /** The same requests, with capacities at least as large. */
  ghost predicate LargerCaches(p: seq<Request>, q: seq<Request>) {
    |p| == |q| &&
    forall i :: 0 <= i < |p| ==>
      p[i] == q[i] || (p[i].AddRequest? && q[i].AddRequest? && p[i].id == q[i].id && p[i].capacity <= q[i].capacity)
  }

  lemma StepKeepsSmaller(cfg: Config, ss: Cluster, tt: Cluster, p: Request, q: Request)
    requires GoodConfig(cfg) && Inv(cfg, ss) && Inv(cfg, tt) && AllSmaller(ss, tt)
    requires Callable(ss, p) && Callable(tt, q) && LargerCaches([p], [q])
    ensures AllSmaller(Step(cfg, ss, p), Step(cfg, tt, q))
  {
    hide AddServer, RemoveServer, HandleGet, GoodConfig, RingOk, Placed;
    SameRing(ss, tt);
    assert [p][0] == p && [q][0] == q;
    match p
    case AddRequest(id, capacity) => AddKeepsSmaller(cfg, ss, tt, id, capacity, q.capacity);
    case RemoveRequest(id) => StepRemoveSmaller(cfg, ss, tt, id);
    case Write(n, content) =>
    case Fetch(n) => GetKeepsSmaller(cfg, ss[Owner(cfg, ss, n)], tt[Owner(cfg, ss, n)], n);
  }

  lemma StepRemoveSmaller(cfg: Config, ss: Cluster, tt: Cluster, id: nat)
    requires GoodConfig(cfg) && Inv(cfg, ss) && Inv(cfg, tt) && AllSmaller(ss, tt)
    ensures AllSmaller(Step(cfg, ss, RemoveRequest(id)), Step(cfg, tt, RemoveRequest(id)))
  {
    if FindServer(ss, id) < |ss| {
      Removal.RemoveDefined(cfg, ss, FindServer(ss, id));
    }
    if FindServer(tt, id) < |tt| {
      Removal.RemoveDefined(cfg, tt, FindServer(tt, id));
    }
    RemoveKeepsSmaller(cfg, ss, tt, id);
  }

  /** Larger caches change nothing about whether a request may be made. */
  lemma CallableAlike(cfg: Config, ss: Cluster, tt: Cluster, p: Request, q: Request)
    requires AllSmaller(ss, tt) && LargerCaches([p], [q]) && Callable(ss, p) && Safe(cfg, ss, p)
    ensures Callable(tt, q) && Safe(cfg, tt, q)
  {
    assert [p][0] == p && [q][0] == q;
  }

  /** A run with larger caches goes the same way. */
  lemma {:induction false} RunKeepsSmaller(cfg: Config, p: seq<Request>, q: seq<Request>)
    requires GoodConfig(cfg) && LargerCaches(p, q) && Run(cfg, p).Some?
    ensures Run(cfg, q).Some? && AllSmaller(Run(cfg, p).value, Run(cfg, q).value)
  {
    hide Run, Effective, Step, Inv, Callable, Safe, Accepted, GoodConfig;
    if p == [] {
      RunOfNone(cfg);
      assert AllSmaller([], []);
    } else {
      var n := |p| - 1;
      LastTurn(cfg, p);
      RunKeepsSmaller(cfg, p[..n], q[..n]);
      var ss, tt := Run(cfg, p[..n]).value, Run(cfg, q[..n]).value;
      CallableAlike(cfg, ss, tt, p[n], q[n]);
      StepKeepsSmaller(cfg, ss, tt, p[n], q[n]);
      assert q[..n] + [q[n]] == q;
      NextTurn(cfg, q[..n], q[n]);
    }
  }

  /** Systems that differ in their caches only read alike. */
  lemma SmallerReads(cfg: Config, ss: Cluster, tt: Cluster, n: CString)
    requires AllSmaller(ss, tt) && AllWorking(ss) && AllWorking(tt)
    ensures Read(cfg, tt, n) == Read(cfg, ss, n)
  {
    SameRing(ss, tt);
  }

  /** LRU inclusion for the whole system: a run with larger caches goes the same way,
      answers alike, and hits whenever the other one does. */
  lemma LargerCachesHitMore(cfg: Config, p: seq<Request>, q: seq<Request>, n: CString)
    requires GoodConfig(cfg) && LargerCaches(p, q) && Run(cfg, p).Some? && Run(cfg, p).value != []
    ensures Run(cfg, q).Some? && Run(cfg, q).value != []
    ensures var a, b := GetRequest(cfg, Run(cfg, p).value, n).1, GetRequest(cfg, Run(cfg, q).value, n).1;
            a.reply == b.reply && (a.log == Hit(n) ==> b.log == Hit(n))
  {
    hide Run, GoodConfig;
    RunKeepsSmaller(cfg, p, q);
    var ss, tt := Run(cfg, p).value, Run(cfg, q).value;
    SameRing(ss, tt);
    var k := Owner(cfg, ss, n);
    GetKeepsSmaller(cfg, ss[k], tt[k], n);
    SmallerReads(cfg, ss, tt, n);
    GetRefines(cfg, ss, n);
    GetRefines(cfg, tt, n);
  }

  /** Of two requests that differ in a capacity at most, the one with the larger cache. */
  function Larger(p: Request, q: Request): Request {
    if p.AddRequest? && q.AddRequest? && p.capacity < q.capacity then q else p
  }

  function LargerOf(p: seq<Request>, q: seq<Request>): (r: seq<Request>)
    requires |p| == |q|
    ensures |r| == |p| && forall i :: 0 <= i < |p| ==> r[i] == Larger(p[i], q[i])
  {
    seq(|p|, i requires 0 <= i < |p| => Larger(p[i], q[i]))
  }

  /** What a GET answers does not depend on the capacities at all, not even when queues
      overflow. */
  lemma AnswersIgnoreCapacities(cfg: Config, p: seq<Request>, q: seq<Request>, n: CString)
    requires GoodConfig(cfg) && SameButCaches(p, q) && Run(cfg, p).Some? && Run(cfg, q).Some?
    requires Run(cfg, p).value != []
    ensures Run(cfg, q).value != []
    ensures GetRequest(cfg, Run(cfg, p).value, n).1.reply == GetRequest(cfg, Run(cfg, q).value, n).1.reply
  {
    hide Run, GoodConfig, GetRequest;
    var m := LargerOf(p, q);
    RunKeepsSmaller(cfg, p, m);
    RunKeepsSmaller(cfg, q, m);
    LargerCachesHitMore(cfg, p, m, n);
    LargerCachesHitMore(cfg, q, m, n);
  }
}
