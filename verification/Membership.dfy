/** Who is on the ring: the labels and the cache size that a server gets when it joins,
    and that it keeps until it leaves. */
module Membership {
  import opened Wrappers
  import opened Hashing
  import opened Ring
  import opened ServerModel
  import opened ClusterModel
  import opened Migration
  import Removal
  import opened System
  import opened Exceptions
  import Lru = LruModel

  // One ADD_SERVER or REMOVE_SERVER -----------------------------------------------

  lemma FlushKeepsCapacity(cfg: Config, s: ServerState)
    requires Working(s)
    ensures Flush(cfg, s).cache.capacity == s.cache.capacity
  {
    EditsKeepCapacity(cfg, s, s.tasks);
  }

  lemma {:induction false} EditsKeepCapacity(cfg: Config, s: ServerState, ts: seq<Task>)
    requires Working(s)
    ensures RunEdits(cfg, s, ts).cache.capacity == s.cache.capacity
  {
    if ts != [] {
      EditsKeepCapacity(cfg, s, ts[..|ts| - 1]);
    }
  }

  /** What becomes of a server when another one joins: nothing, or its queue is flushed and
      some documents leave. */
  ghost predicate Stays(cfg: Config, s: ServerState, t: ServerState)
    requires Working(s)
  {
    || t == s
    || (t.peer == s.peer && t.cache.capacity == s.cache.capacity && t.tasks == [] && t.printed == Flush(cfg, s).printed)
  }

  lemma DonorStays(cfg: Config, s: ServerState, t: ServerState, cut: Cut)
    requires Working(s) && Working(t) && Stays(cfg, s, t)
    ensures Stays(cfg, s, Donor(Flush(cfg, t), cut))
  {
    FlushKeepsCapacity(cfg, s);
    FlushKeepsCapacity(cfg, t);
    if t.tasks == [] {
      assert Flush(cfg, t) == t;
    }
  }

  lemma {:induction false} OthersStay(cfg: Config, ss: Cluster, joiner: ServerState, k: nat, i: nat)
    requires AllWorking(ss) && k <= |joiner.peer.hashes| && i < |ss|
    ensures var ss' := MigrateLabels(cfg, ss, joiner, k).0;
            |ss'| == |ss| && Working(ss'[i]) && Stays(cfg, ss[i], ss'[i])
  {
    hide Flush, Donor, Stays, Next;
    if k == 0 {
      SameStays(cfg, ss[i]);
    } else {
      OthersStay(cfg, ss, joiner, k - 1, i);
      var (ss', joiner') := MigrateLabels(cfg, ss, joiner, k - 1);
      var p := Next(RingOf(ss'), joiner'.peer.hashes[k - 1]);
      DonorStays(cfg, ss[i], ss'[i], CutAt(joiner'.peer, k - 1, RingOf(ss'), p));
    }
  }

  lemma SameStays(cfg: Config, s: ServerState)
    requires Working(s)
    ensures Stays(cfg, s, s)
  {
  }

  /** ADD_SERVER puts a server at the head of the list that has the id, the cache size and
      the one or three labels asked for; of the others queues are flushed at most. */
  lemma AddServerJoins(cfg: Config, ss: Cluster, id: nat, capacity: nat)
    requires AllWorking(ss) && id <= 99999
    ensures var all, h := AddServer(cfg, ss, id, capacity), cfg.serverHash;
            && |all| == |ss| + 1
            && all[0].peer.id == id
            && all[0].peer.hashes == (if cfg.vnodes then [h(id), h(100000 + id), h(200000 + id)] else [h(id)])
            && all[0].cache == Lru.Cache(capacity, []) && all[0].tasks == [] && all[0].printed == []
            && forall i :: 0 <= i < |ss| ==> Stays(cfg, ss[i], all[i + 1])
  {
    hide MigrateLabels, Stays;
    var s := NewServer(cfg, id, capacity);
    var (ss', joiner) := MigrateLabels(cfg, ss, s, Replicas(cfg));
    assert |RingOf(ss')| == |RingOf(ss)|;
    forall i | 0 <= i < |ss|
      ensures Stays(cfg, ss[i], AddServer(cfg, ss, id, capacity)[i + 1])
    {
      OthersStay(cfg, ss, s, Replicas(cfg), i);
    }
  }

  lemma {:induction false} RehomeKeeps(rest: Cluster, hashes: seq<Word>, docs: seq<Doc>, i: nat)
    requires rest != [] && AllWorking(rest) && i < |rest|
    requires forall j :: 0 <= j < |docs| ==> docs[j].index < |hashes|
    ensures var r := Rehome(rest, hashes, docs);
            |r| == |rest| && r[i] == rest[i].(docs := r[i].docs)
  {
    if docs != [] {
      RehomeKeeps(rest, hashes, docs[..|docs| - 1], i);
    }
  }

  /** REMOVE_SERVER changes nothing of the servers that remain, besides their documents. */
  lemma RemoveServerKeeps(cfg: Config, ss: Cluster, id: nat, i: nat)
    requires AllWorking(ss)
    requires var k := FindServer(ss, id); k < |ss| && IndexesOk(Flush(cfg, ss[k]))
    requires i < |ss| - 1
    ensures var k, back := FindServer(ss, id), RemoveServer(cfg, ss, id);
            && |back| == |ss| - 1
            && back[i] == ss[if i < k then i else i + 1].(docs := back[i].docs)
  {
    hide Flush, Rehome;
    var k := FindServer(ss, id);
    var gone := Flush(cfg, ss[k]);
    RehomeKeeps(Without(ss, k), gone.peer.hashes, gone.docs, i);
  }

  // Whole runs -----------------------------------------------------------------

  /** The cache size in the latest ADD_SERVER of an id. */
  function LatestCapacity(qs: seq<Request>, id: nat): Option<nat> {
    if qs == [] then None
    else
      var q := qs[|qs| - 1];
      if q.AddRequest? && q.id == id then Some(q.capacity) else LatestCapacity(qs[..|qs| - 1], id)
  }

  /** A server t of the list has the id and the cache size of one before a request, or it
      is the one that just joined. */
  ghost predicate Continues(ss: Cluster, q: Request, t: ServerState) {
    || (exists k :: 0 <= k < |ss| && ss[k].peer.id == t.peer.id && ss[k].cache.capacity == t.cache.capacity)
    || (q.AddRequest? && t.peer.id == q.id && t.cache.capacity == q.capacity)
  }

  lemma AddContinues(cfg: Config, ss: Cluster, id: nat, capacity: nat, i: nat)
    requires AllWorking(ss) && id <= 99999
    requires i < |AddServer(cfg, ss, id, capacity)|
    ensures Continues(ss, AddRequest(id, capacity), AddServer(cfg, ss, id, capacity)[i])
  {
    hide AddServer;
    AddServerJoins(cfg, ss, id, capacity);
    if i > 0 {
      assert Stays(cfg, ss[i - 1], AddServer(cfg, ss, id, capacity)[i - 1 + 1]);
    }
  }

  lemma RemoveContinues(cfg: Config, ss: Cluster, id: nat, i: nat)
    requires AllWorking(ss)
    requires var k := FindServer(ss, id); k < |ss| ==> IndexesOk(Flush(cfg, ss[k]))
    requires i < |RemoveServer(cfg, ss, id)|
    ensures Continues(ss, RemoveRequest(id), RemoveServer(cfg, ss, id)[i])
  {
    hide Flush, Rehome;
    var k := FindServer(ss, id);
    if k < |ss| && |ss| > 1 {
      var back := RemoveServer(cfg, ss, id);
      assert |back| == |RingOf(back)| == |ss| - 1 by {
        RemoveServerKeeps(cfg, ss, id, 0);
      }
      RemoveServerKeeps(cfg, ss, id, i);
    }
  }

  lemma StepContinues(cfg: Config, ss: Cluster, q: Request, i: nat)
    requires GoodConfig(cfg) && Inv(cfg, ss) && Callable(ss, q) && i < |Step(cfg, ss, q)|
    ensures Continues(ss, q, Step(cfg, ss, q)[i])
  {
    hide AddServer, RemoveServer, GoodConfig, Flush, Placed, RingOk, Next;
    match q
    case AddRequest(id, capacity) =>
      AddContinues(cfg, ss, id, capacity, i);
    case RemoveRequest(id) =>
      Removal.RemoveRefines(cfg, ss, id, []);
      RemoveContinues(cfg, ss, id, i);
    case Write(n, content) =>
    case Fetch(n) =>
      FlushKeepsCapacity(cfg, ss[Owner(cfg, ss, n)]);
  }

  /** What a run says of a server on the ring. */
  ghost predicate Member(cfg: Config, qs: seq<Request>, s: ServerState) {
    var h, id := cfg.serverHash, s.peer.id;
    && id <= 99999
    && s.peer.hashes == (if cfg.vnodes then [h(id), h(100000 + id), h(200000 + id)] else [h(id)])
    && LatestCapacity(qs, id) == Some(s.cache.capacity)
  }

  /** Over every run each server has exactly its one or three labels, and the cache size of
      the latest ADD_SERVER of its id. */
  lemma {:induction false} RunMembers(cfg: Config, qs: seq<Request>)
    requires GoodConfig(cfg) && Run(cfg, qs).Some?
    ensures forall i :: 0 <= i < |Run(cfg, qs).value| ==> Member(cfg, qs, Run(cfg, qs).value[i])
  {
    hide Run, Effective, Step, Safe, Accepted, GoodConfig;
    if qs == [] {
      RunOfNone(cfg);
    } else {
      var init, q := qs[..|qs| - 1], qs[|qs| - 1];
      LastTurn(cfg, qs);
      RunMembers(cfg, init);
      var ss := Run(cfg, init).value;
      forall i | 0 <= i < |Step(cfg, ss, q)|
        ensures Member(cfg, qs, Step(cfg, ss, q)[i])
      {
        StepContinues(cfg, ss, q, i);
        RingLabels(cfg, Run(cfg, qs).value, i);
      }
    }
  }

  lemma RingLabels(cfg: Config, ss: Cluster, i: nat)
    requires Inv(cfg, ss) && i < |ss|
    ensures var h, id := cfg.serverHash, ss[i].peer.id;
            && id <= 99999
            && ss[i].peer.hashes == (if cfg.vnodes then [h(id), h(100000 + id), h(200000 + id)] else [h(id)])
  {
    assert RingOf(ss)[i] == ss[i].peer;
  }

  // The cache size, as clients see it ----------------------------------------------

  type Op = Lru.Op<CString, CString>

  /** Running edits on a new cache is putting them. */
  function Puts(ts: seq<Task>): (r: seq<Op>)
    ensures |r| == |ts|
    ensures forall i :: 0 <= i < |ts| ==> r[i] == Lru.PutOp(ts[i].name, ts[i].content)
  {
    seq(|ts|, i requires 0 <= i < |ts| => Lru.PutOp(ts[i].name, ts[i].content))
  }

  function Names(ts: seq<Task>): (r: seq<CString>)
    ensures |r| == |ts|
    ensures forall i :: 0 <= i < |ts| ==> r[i] == ts[i].name
  {
    seq(|ts|, i requires 0 <= i < |ts| => ts[i].name)
  }

  lemma {:induction false} EditsArePuts(cfg: Config, s: ServerState, ts: seq<Task>)
    requires Working(s) && s.cache == Lru.Cache(s.cache.capacity, [])
    ensures RunEdits(cfg, s, ts).cache == Lru.Run(s.cache.capacity, Puts(ts))
  {
    if ts != [] {
      var init, t := ts[..|ts| - 1], ts[|ts| - 1];
      EditsArePuts(cfg, s, init);
      Lru.RunOk(s.cache.capacity, Puts(init));
      PutAfterGet(RunEdits(cfg, s, init).cache, t.name, t.content, true);
      assert Puts(ts)[..|ts| - 1] == Puts(init);
    }
  }

  lemma {:induction false} PutsTouch(capacity: nat, ts: seq<Task>)
    requires capacity > 0
    ensures Lru.NoRemoves(Puts(ts)) && Lru.Touches(capacity, Puts(ts)) == Names(ts)
  {
    if ts != [] {
      var init := ts[..|ts| - 1];
      PutsTouch(capacity, init);
      assert Puts(ts)[..|ts| - 1] == Puts(init);
      assert Names(ts) == Names(init) + [ts[|ts| - 1].name];
    }
  }

  lemma {:induction false} RecentSize(t: seq<CString>)
    ensures |Lru.Recent(t)| <= |t|
    ensures Lru.Distinct(t) ==> Lru.Recent(t) == t
  {
    if t != [] {
      var init, last := t[..|t| - 1], t[|t| - 1];
      assert t == init + [last];
      RecentSize(init);
      Lru.RecentIsByLastTouch(init);
      Lru.DropDistinct(Lru.Recent(init), last);
    }
  }

  /** The keys in the cache of a new server after its first edits. */
  lemma NewCacheKeys(cfg: Config, s: ServerState)
    requires Working(s) && s.cache == Lru.Cache(s.cache.capacity, [])
    ensures var c := Flush(cfg, s).cache;
            Lru.Keys(c.entries) == Lru.LastN(Lru.Recent(Names(s.tasks)), s.cache.capacity)
  {
    EditsArePuts(cfg, s, s.tasks);
    PutsTouch(s.cache.capacity, s.tasks);
    Lru.Recency(s.cache.capacity, Puts(s.tasks));
  }

  /** All of these are in the cache of a server as soon as its queue is flushed. */
  ghost predicate AllCached(cfg: Config, s: ServerState, names: seq<CString>) {
    Sound(s) && forall n :: n in names ==> Lru.Has(Flush(cfg, s).cache, n)
  }

  /** Asking for a cached name hits, and puts nothing out. */
  lemma FetchHits(cfg: Config, s: ServerState, names: seq<CString>, n: CString)
    requires AllCached(cfg, s, names) && n in names
    ensures var (r, out) := HandleGet(cfg, s, n);
            out.log == Hit(n) && AllCached(cfg, r, names)
  {
    hide RunEdits, GetDocument, Lru.Has;
    FlushReads(cfg, s);
    GetReads(cfg, s, n);
    GetReportsTruly(Flush(cfg, s), n);
    var (r, out) := HandleGet(cfg, s, n);
    FlushTwice(cfg, r);
    forall x | x in names
      ensures Lru.Has(Flush(cfg, r).cache, x)
    {
      assert out.log != MissEvicting(n, x);
      assert Lru.Has(r.cache, x);
    }
  }

  function Fetches(names: seq<CString>): (r: seq<Request>)
    ensures |r| == |names| && forall i :: 0 <= i < |names| ==> r[i] == Fetch(names[i])
  {
    seq(|names|, i requires 0 <= i < |names| => Fetch(names[i]))
  }

  lemma AloneFetch(cfg: Config, s: ServerState, n: CString)
    requires Working(s)
    ensures GetRequest(cfg, [s], n) == ([HandleGet(cfg, s, n).0], HandleGet(cfg, s, n).1)
  {
    assert Owner(cfg, [s], n) == 0;
    assert [s][0 := HandleGet(cfg, s, n).0] == [HandleGet(cfg, s, n).0];
  }

  /** The state of a run that leaves one server, with these names in its cache. */
  ghost predicate AloneWith(cfg: Config, run: seq<Request>, names: seq<CString>)
    requires GoodConfig(cfg)
  {
    var r := Run(cfg, run);
    r.Some? && |r.value| == 1 && AllCached(cfg, r.value[0], names)
  }

  lemma {:induction false} FetchesHit(cfg: Config, run: seq<Request>, names: seq<CString>, asked: seq<CString>)
    requires GoodConfig(cfg) && AloneWith(cfg, run, names) && forall n :: n in asked ==> n in names
    ensures AloneWith(cfg, run + Fetches(asked), names)
  {
    hide Run, Effective, GoodConfig, AllCached, GetRequest, HandleGet;
    if asked == [] {
      assert run + Fetches(asked) == run;
    } else {
      var init, n := asked[..|asked| - 1], asked[|asked| - 1];
      assert asked == init + [n];
      FetchesHit(cfg, run, names, init);
      FetchTurn(cfg, run + Fetches(init), names, n);
      assert run + Fetches(asked) == run + Fetches(init) + [Fetch(n)];
    }
  }

  lemma FetchTurn(cfg: Config, run: seq<Request>, names: seq<CString>, n: CString)
    requires GoodConfig(cfg) && AloneWith(cfg, run, names) && n in names
    ensures AloneWith(cfg, run + [Fetch(n)], names)
    ensures GetRequest(cfg, Run(cfg, run).value, n).1.log == Hit(n)
  {
    hide Run, Effective, GoodConfig, GetRequest, HandleGet, Flush;
    var s := Run(cfg, run).value[0];
    assert Run(cfg, run).value == [s];
    NextTurn(cfg, run, Fetch(n));
    AloneFetch(cfg, s, n);
    FetchHits(cfg, s, names, n);
  }

  /** A cache of size c holds c documents: on a new server any c EDITs, or fewer, are
      followed by hits only, however often and in whatever order their documents are asked
      for. */
  lemma CacheHoldsItsCapacity(cfg: Config, id: nat, capacity: nat, ts: seq<Task>, asked: seq<CString>, n: CString)
    requires GoodConfig(cfg) && id <= 99999 && capacity > 0 && |ts| <= capacity && |ts| <= 1000
    requires n in Names(ts) && forall a :: a in asked ==> a in Names(ts)
    ensures var r := Run(cfg, Burst(id, capacity, ts) + Fetches(asked));
            r.Some? && |r.value| == 1 && GetRequest(cfg, r.value, n).1.log == Hit(n)
  {
    hide Run, Effective, GoodConfig, GetRequest, Flush, RunEdits;
    var s := Waiting(cfg, id, capacity, ts);
    BurstQueues(cfg, id, capacity, ts);
    NewCacheKeys(cfg, s);
    RecentSize(Names(ts));
    Lru.RecentIsByLastTouch(Names(ts));
    assert Sound(s);
    FetchesHit(cfg, Burst(id, capacity, ts), Names(ts), asked);
    FetchTurn(cfg, Burst(id, capacity, ts) + Fetches(asked), Names(ts), n);
  }

  /** And no more than c: after EDITs of c + 1 different documents the first one is missed,
      and the second one is evicted for it. */
  lemma CacheHoldsNoMore(cfg: Config, id: nat, capacity: nat, ts: seq<Task>)
    requires GoodConfig(cfg) && id <= 99999 && capacity > 0 && |ts| == capacity + 1 <= 1000
    requires Lru.Distinct(Names(ts))
    ensures var r := Run(cfg, Burst(id, capacity, ts));
            && r.Some? && |r.value| == 1
            && GetRequest(cfg, r.value, ts[0].name).1.log == MissEvicting(ts[0].name, ts[1].name)
  {
    hide Run, Effective, GoodConfig, GetRequest, Flush, RunEdits;
    var s, n := Waiting(cfg, id, capacity, ts), ts[0].name;
    BurstQueues(cfg, id, capacity, ts);
    NewCacheKeys(cfg, s);
    RecentSize(Names(ts));
    AloneFetch(cfg, s, n);
    assert Sound(s);
    FlushKeepsCapacity(cfg, s);
    FlushReads(cfg, s);
    FirstEdited(ts);
    MissEvictsHead(Flush(cfg, s), n, ts[1].name);
  }

  lemma FirstEdited(ts: seq<Task>)
    requires ts != []
    ensures LastEdit(ts, ts[0].name).Some?
  {
    assert ts[0] in ts;
    LastEditNone(ts, ts[0].name);
  }

  lemma MissEvictsHead(s: ServerState, n: CString, head: CString)
    requires Sound(s) && Lookup(s.docs, n).Some? && |s.cache.entries| == s.cache.capacity
    requires Lru.Keys(s.cache.entries)[0] == head && !Lru.Has(s.cache, n)
    ensures GetDocument(s, n).1.log == MissEvicting(n, head)
  {
  }
}
