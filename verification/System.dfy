/** The whole system as a state machine over its four requests, and the atomic map
    that it refines over every run. */
module System {
  import opened Wrappers
  import opened Hashing
  import opened Ring
  import opened ServerModel
  import opened ClusterModel
  import opened Migration
  import opened Removal

  datatype Request =
    | AddRequest(id: nat, capacity: nat)
    | RemoveRequest(id: nat)
    | Write(name: CString, content: CString)
    | Fetch(name: CString)

  /** What a caller owes the load balancer: ids are new and within range, caches hold
      something, and there is a server to forward to. */
  ghost predicate Callable(ss: Cluster, q: Request) {
    match q
    case AddRequest(id, capacity) => NewId(ss, id) && capacity > 0
    case RemoveRequest(_) => true
    case Write(_, _) => ss != []
    case Fetch(_) => ss != []
  }

  /** An EDIT that finds the queue of its owner full is dropped. */
  ghost predicate Accepted(cfg: Config, ss: Cluster, q: Request)
    requires AllWorking(ss) && Callable(ss, q)
  {
    q.Write? ==> |ss[Owner(cfg, ss, q.name)].tasks| < TASK_QUEUE_SIZE
  }

  /** An ADD_SERVER finds nothing on the only label of the ring. */
  ghost predicate Safe(cfg: Config, ss: Cluster, q: Request) {
    q.AddRequest? ==> !OnOnlyLabel(cfg, ss)
  }

  /** What is needed for a request to do to what is readable what its name says. */
  ghost predicate Kept(cfg: Config, ss: Cluster, q: Request)
    requires AllWorking(ss) && Callable(ss, q)
  {
    Accepted(cfg, ss, q) && Safe(cfg, ss, q)
  }

  ghost function Step(cfg: Config, ss: Cluster, q: Request): Cluster
    requires GoodConfig(cfg) && Inv(cfg, ss) && Callable(ss, q)
  {
    match q
    case AddRequest(id, capacity) => AddServer(cfg, ss, id, capacity)
    case RemoveRequest(id) =>
      RemoveRefines(cfg, ss, id, []);
      RemoveServer(cfg, ss, id)
    case Write(n, content) => EditRequest(cfg, ss, n, content)
    case Fetch(n) => GetRequest(cfg, ss, n).0
  }

  /** The system after a run from the empty ring in which every request was callable and
      safe, with or without EDITs that were dropped; None for any other run. */
  ghost function Run(cfg: Config, qs: seq<Request>): (r: Option<Cluster>)
    requires GoodConfig(cfg)
    ensures r.Some? ==> Inv(cfg, r.value)
  {
    if qs == [] then Some([])
    else
      var before, q := Run(cfg, qs[..|qs| - 1]), qs[|qs| - 1];
      if before.Some? && Callable(before.value, q) && Safe(cfg, before.value, q) then
        StepKeepsInv(cfg, before.value, q);
        Some(Step(cfg, before.value, q))
      else
        None
  }

  lemma StepKeepsInv(cfg: Config, ss: Cluster, q: Request)
    requires GoodConfig(cfg) && Inv(cfg, ss) && Callable(ss, q) && Safe(cfg, ss, q)
    ensures Inv(cfg, Step(cfg, ss, q))
  {
    match q
    case AddRequest(id, capacity) => AddKeepsInvIff(cfg, ss, id, capacity);
    case RemoveRequest(id) => RemoveRefines(cfg, ss, id, []);
    case Write(n, content) => EditRefines(cfg, ss, n, content);
    case Fetch(n) => GetRefines(cfg, ss, n);
  }

  /** The requests of a run, less the EDITs that were dropped. */
  ghost function Effective(cfg: Config, qs: seq<Request>): (r: seq<Request>)
    requires GoodConfig(cfg) && Run(cfg, qs).Some?
  {
    if qs == [] then []
    else
      var init, q := qs[..|qs| - 1], qs[|qs| - 1];
      Effective(cfg, init) + if Accepted(cfg, Run(cfg, init).value, q) then [q] else []
  }

  lemma RunOfNone(cfg: Config)
    requires GoodConfig(cfg)
    ensures Run(cfg, []) == Some([])
  {
  }

  /** A run with one request more. */
  lemma NextTurn(cfg: Config, qs: seq<Request>, q: Request)
    requires GoodConfig(cfg) && Run(cfg, qs).Some?
    requires Callable(Run(cfg, qs).value, q) && Safe(cfg, Run(cfg, qs).value, q)
    ensures var ss, es := Run(cfg, qs).value, Effective(cfg, qs);
            && Run(cfg, qs + [q]) == Some(Step(cfg, ss, q))
            && Effective(cfg, qs + [q]) == if Accepted(cfg, ss, q) then es + [q] else es
  {
    assert (qs + [q])[..|qs|] == qs;
  }

  /** The last turn of a run. */
  lemma LastTurn(cfg: Config, qs: seq<Request>)
    requires GoodConfig(cfg) && Run(cfg, qs).Some? && qs != []
    ensures var init, q := qs[..|qs| - 1], qs[|qs| - 1];
            && Run(cfg, init).Some?
            && var ss, es := Run(cfg, init).value, Effective(cfg, init);
               && Inv(cfg, ss) && AllWorking(ss) && Callable(ss, q) && Safe(cfg, ss, q)
               && Run(cfg, qs) == Some(Step(cfg, ss, q))
               && Effective(cfg, qs) == if Accepted(cfg, ss, q) then es + [q] else es
  {
  }

  // The atomic map -------------------------------------------------------------

  /** The system as its users see it: which servers are in, and one map. */
  datatype Store = Store(ids: set<nat>, docs: map<CString, CString>)

  function AtomicStep(m: Store, q: Request): Store {
    match q
    case AddRequest(id, _) => m.(ids := m.ids + {id})
    case RemoveRequest(id) =>
      if m.ids == {id} then Store({}, map[]) else m.(ids := m.ids - {id})
    case Write(n, content) => m.(docs := m.docs[n := content])
    case Fetch(_) => m
  }

  function Atomic(qs: seq<Request>): Store {
    if qs == [] then Store({}, map[]) else AtomicStep(Atomic(qs[..|qs| - 1]), qs[|qs| - 1])
  }

  function Get(m: Store, n: CString): Option<CString> {
    if n in m.docs then Some(m.docs[n]) else None
  }

  ghost predicate Refines(cfg: Config, ss: Cluster, m: Store)
    requires AllWorking(ss)
  {
    Ids(RingOf(ss)) == m.ids && forall n :: Read(cfg, ss, n) == Get(m, n)
  }

  lemma IdsAfterJoin(peer: Peer, ring: seq<Peer>)
    ensures Ids([peer] + ring) == Ids(ring) + {peer.id}
  {
    var all := [peer] + ring;
    assert all[0] == peer;
    forall x | x in Ids(ring)
      ensures x in Ids(all)
    {
      var i :| 0 <= i < |ring| && ring[i].id == x;
      assert all[i + 1].id == x;
    }
  }

  lemma IdsAfterLeave(ring: seq<Peer>, k: nat)
    requires k < |ring| && forall i, j :: 0 <= i < j < |ring| ==> ring[i].id != ring[j].id
    ensures Ids(Without(ring, k)) == Ids(ring) - {ring[k].id}
  {
    var rest := Without(ring, k);
    forall x | x in Ids(ring) && x != ring[k].id
      ensures x in Ids(rest)
    {
      var i :| 0 <= i < |ring| && ring[i].id == x;
      assert rest[Shift(i, k)].id == x;
    }
  }

  lemma StepIds(cfg: Config, ss: Cluster, m: Store, q: Request)
    requires GoodConfig(cfg) && Inv(cfg, ss) && Callable(ss, q)
    requires Ids(RingOf(ss)) == m.ids
    ensures Ids(RingOf(Step(cfg, ss, q))) == AtomicStep(m, q).ids
  {
    match q
    case AddRequest(id, capacity) =>
      JoinedRing(cfg, ss, id, capacity);
      IdsAfterJoin(NewServer(cfg, id, capacity).peer, RingOf(ss));
    case RemoveRequest(id) =>
      StepIdsRemove(cfg, ss, id);
    case Write(n, content) =>
      assert RingOf(Step(cfg, ss, q)) == RingOf(ss);
    case Fetch(n) =>
      assert RingOf(Step(cfg, ss, q)) == RingOf(ss);
  }

  lemma StepIdsRemove(cfg: Config, ss: Cluster, id: nat)
    requires GoodConfig(cfg) && Inv(cfg, ss)
    ensures Ids(RingOf(Step(cfg, ss, RemoveRequest(id)))) == Ids(RingOf(ss)) - {id}
  {
    RemoveRefines(cfg, ss, id, []);
    var k := FindServer(ss, id);
    if k < |ss| {
      RingWithout(ss, k);
      IdsAfterLeave(RingOf(ss), k);
      if |ss| == 1 {
        assert Without(RingOf(ss), k) == [];
      }
    }
  }

  lemma LastServer(cfg: Config, ss: Cluster, id: nat)
    requires Inv(cfg, ss)
    ensures Ids(RingOf(ss)) == {id} <==> |ss| == 1 && ss[0].peer.id == id
  {
    var ring := RingOf(ss);
    assert |ring| > 0 ==> ring[0].id in Ids(ring);
    assert |ring| > 1 ==> ring[1].id in Ids(ring);
  }

  /** One request on what is readable under n. */
  lemma StepReads(cfg: Config, ss: Cluster, q: Request, n: CString)
    requires GoodConfig(cfg) && Inv(cfg, ss) && Callable(ss, q) && Kept(cfg, ss, q)
    ensures Inv(cfg, Step(cfg, ss, q))
    ensures Read(cfg, Step(cfg, ss, q), n) ==
            if q.Write? && q.name == n then Some(q.content)
            else if q.RemoveRequest? && |ss| == 1 && ss[0].peer.id == q.id then None
            else Read(cfg, ss, n)
  {
    StepKeepsInv(cfg, ss, q);
    match q
    case AddRequest(id, capacity) => AddKeepsReadsIff(cfg, ss, id, capacity);
    case RemoveRequest(id) => RemoveRefines(cfg, ss, id, n);
    case Write(m, content) => EditRefines(cfg, ss, m, content);
    case Fetch(m) => GetRefines(cfg, ss, m);
  }

  lemma StepRefines(cfg: Config, ss: Cluster, m: Store, q: Request)
    requires GoodConfig(cfg) && Inv(cfg, ss) && Callable(ss, q) && Kept(cfg, ss, q)
    requires Refines(cfg, ss, m)
    ensures Inv(cfg, Step(cfg, ss, q)) && Refines(cfg, Step(cfg, ss, q), AtomicStep(m, q))
  {
    StepKeepsInv(cfg, ss, q);
    StepIds(cfg, ss, m, q);
    var after, m' := Step(cfg, ss, q), AtomicStep(m, q);
    if q.RemoveRequest? {
      LastServer(cfg, ss, q.id);
    }
    forall n
      ensures Read(cfg, after, n) == Get(m', n)
    {
      StepReads(cfg, ss, q, n);
    }
  }

  lemma LostByAdd(cfg: Config, ss: Cluster, m: Store, id: nat, capacity: nat)
    requires GoodConfig(cfg) && Inv(cfg, ss) && NewId(ss, id) && capacity > 0 && Refines(cfg, ss, m)
    requires OnOnlyLabel(cfg, ss)
    ensures AllWorking(AddServer(cfg, ss, id, capacity))
    ensures !Refines(cfg, AddServer(cfg, ss, id, capacity), AtomicStep(m, AddRequest(id, capacity)))
  {
    hide AddServer, OnOnlyLabel, GoodConfig;
    AddKeepsReadsIff(cfg, ss, id, capacity);
    var n :| Read(cfg, AddServer(cfg, ss, id, capacity), n) != Read(cfg, ss, n);
    assert Read(cfg, ss, n) == Get(m, n);
  }

  lemma LostByWrite(cfg: Config, ss: Cluster, m: Store, n: CString, content: CString)
    requires Inv(cfg, ss) && ss != [] && Refines(cfg, ss, m)
    requires |ss[Owner(cfg, ss, n)].tasks| >= 1000
    ensures EditRequest(cfg, ss, n, content) == ss
    ensures Refines(cfg, ss, AtomicStep(m, Write(n, content))) <==> Read(cfg, ss, n) == Some(content)
  {
    EditRefines(cfg, ss, n, content);
  }

  /** The condition is exact: a callable request is answered for by the atomic map if and
      only if it is Kept, or writes what is already there. */
  lemma StepRefinesIff(cfg: Config, ss: Cluster, m: Store, q: Request)
    requires GoodConfig(cfg) && Inv(cfg, ss) && Callable(ss, q) && Refines(cfg, ss, m)
    ensures AllWorking(Step(cfg, ss, q))
    ensures Refines(cfg, Step(cfg, ss, q), AtomicStep(m, q)) <==>
            Kept(cfg, ss, q) || (q.Write? && Read(cfg, ss, q.name) == Some(q.content))
  {
    hide AddServer, RemoveServer, EditRequest, GetRequest, OnOnlyLabel, GoodConfig, NewId, Refines, AtomicStep;
    if Kept(cfg, ss, q) {
      StepRefines(cfg, ss, m, q);
    } else if q.Write? {
      LostByWrite(cfg, ss, m, q.name, q.content);
    } else {
      LostByAdd(cfg, ss, m, q.id, q.capacity);
    }
  }

  /** A dropped EDIT changes nothing at all. */
  lemma DroppedStep(cfg: Config, ss: Cluster, q: Request)
    requires GoodConfig(cfg) && Inv(cfg, ss) && Callable(ss, q) && !Accepted(cfg, ss, q)
    ensures Step(cfg, ss, q) == ss
  {
    EditRefines(cfg, ss, q.name, q.content);
  }

  lemma TurnRefines(cfg: Config, ss: Cluster, es: seq<Request>, q: Request)
    requires GoodConfig(cfg) && Inv(cfg, ss) && Callable(ss, q) && Safe(cfg, ss, q)
    requires Refines(cfg, ss, Atomic(es))
    ensures AllWorking(Step(cfg, ss, q))
    ensures Refines(cfg, Step(cfg, ss, q), Atomic(if Accepted(cfg, ss, q) then es + [q] else es))
  {
    hide Step, GoodConfig, AtomicStep, Refines;
    if Accepted(cfg, ss, q) {
      StepRefines(cfg, ss, Atomic(es), q);
      AtomicAppend(es, q);
    } else {
      DroppedStep(cfg, ss, q);
    }
  }

  /** Over every run the system refines the atomic map that is given the requests which
      were not dropped. */
  lemma {:induction false} RunRefines(cfg: Config, qs: seq<Request>)
    requires GoodConfig(cfg) && Run(cfg, qs).Some?
    ensures Refines(cfg, Run(cfg, qs).value, Atomic(Effective(cfg, qs)))
  {
    hide Step, Inv, Callable, Accepted, Safe, GoodConfig, AtomicStep;
    if qs != [] {
      var before, q := qs[..|qs| - 1], qs[|qs| - 1];
      LastTurn(cfg, qs);
      RunRefines(cfg, before);
      TurnRefines(cfg, Run(cfg, before).value, Effective(cfg, before), q);
    }
  }

  lemma AtomicAppend(es: seq<Request>, q: Request)
    ensures Atomic(es + [q]) == AtomicStep(Atomic(es), q)
  {
    assert (es + [q])[..|es|] == es;
  }

  /** After every run a GET answers with the content of the latest EDIT of the name that
      was not dropped, since the ring was last empty, or with nothing. */
  lemma FetchAnswersLatestWrite(cfg: Config, qs: seq<Request>, n: CString)
    requires GoodConfig(cfg) && Run(cfg, qs).Some? && Run(cfg, qs).value != []
    ensures var m := Atomic(Effective(cfg, qs));
            GetRequest(cfg, Run(cfg, qs).value, n).1.reply == if n in m.docs then Text(m.docs[n]) else NoText
  {
    RunRefines(cfg, qs);
    GetRefines(cfg, Run(cfg, qs).value, n);
  }

  /** Two runs of the same requests, up to cache capacities. */
  ghost predicate SameButCaches(p: seq<Request>, q: seq<Request>) {
    |p| == |q| &&
    forall i :: 0 <= i < |p| ==>
      p[i] == q[i] || (p[i].AddRequest? && q[i].AddRequest? && p[i].id == q[i].id)
  }

  lemma {:induction false} AtomicIgnoresCaches(p: seq<Request>, q: seq<Request>)
    requires SameButCaches(p, q)
    ensures Atomic(p) == Atomic(q)
  {
    if p != [] {
      AtomicIgnoresCaches(p[..|p| - 1], q[..|q| - 1]);
    }
  }

  /** What a GET answers depends neither on the capacities of the caches, nor on
      virtual nodes, nor on where the hash functions put servers and documents, as long as
      these choices do not make queues drop different EDITs. */
  lemma AnswersIndependentOfCaches(c: Config, d: Config, p: seq<Request>, q: seq<Request>, n: CString)
    requires GoodConfig(c) && GoodConfig(d)
    requires Run(c, p).Some? && Run(d, q).Some? && Run(c, p).value != [] && Run(d, q).value != []
    requires SameButCaches(Effective(c, p), Effective(d, q))
    ensures GetRequest(c, Run(c, p).value, n).1.reply == GetRequest(d, Run(d, q).value, n).1.reply
  {
    AtomicIgnoresCaches(Effective(c, p), Effective(d, q));
    FetchAnswersLatestWrite(c, p, n);
    FetchAnswersLatestWrite(d, q, n);
  }

  // Few EDITs ------------------------------------------------------------------

  /** How many EDITs there are. */
  function Writes(qs: seq<Request>): nat {
    if qs == [] then 0 else Writes(qs[..|qs| - 1]) + if qs[|qs| - 1].Write? then 1 else 0
  }

  ghost predicate QueuesWithin(ss: Cluster, b: nat) {
    forall k :: 0 <= k < |ss| ==> |ss[k].tasks| <= b
  }

  lemma MigrateWithin(cfg: Config, ss: Cluster, joiner: ServerState, r: nat, b: nat)
    requires AllWorking(ss) && r < |joiner.peer.hashes| && QueuesWithin(ss, b)
    ensures QueuesWithin(MigrateLabel(cfg, ss, joiner, r).0, b)
  {
    hide Flush, Next, Handed, Staying, CacheAfter;
  }

  lemma {:induction false} MigrationsWithin(cfg: Config, ss: Cluster, joiner: ServerState, k: nat, b: nat)
    requires AllWorking(ss) && k <= |joiner.peer.hashes| && QueuesWithin(ss, b)
    ensures QueuesWithin(MigrateLabels(cfg, ss, joiner, k).0, b)
  {
    hide MigrateLabel, QueuesWithin;
    if k > 0 {
      MigrationsWithin(cfg, ss, joiner, k - 1, b);
      var before := MigrateLabels(cfg, ss, joiner, k - 1);
      MigrateWithin(cfg, before.0, before.1, k - 1, b);
    }
  }

  lemma AddWithin(cfg: Config, ss: Cluster, id: nat, capacity: nat, b: nat)
    requires AllWorking(ss) && id <= MAX_SERVERS && QueuesWithin(ss, b)
    ensures QueuesWithin(AddServer(cfg, ss, id, capacity), b)
  {
    hide MigrateLabels;
    MigrationsWithin(cfg, ss, NewServer(cfg, id, capacity), Replicas(cfg), b);
  }

  lemma RemoveWithin(cfg: Config, ss: Cluster, id: nat, b: nat)
    requires AllWorking(ss) && QueuesWithin(ss, b)
    requires var k := FindServer(ss, id); k < |ss| ==> IndexesOk(Flush(cfg, ss[k]))
    ensures QueuesWithin(RemoveServer(cfg, ss, id), b)
  {
    hide Rehome, Flush;
    var k := FindServer(ss, id);
    if k < |ss| && |ss| > 1 {
      var gone := Flush(cfg, ss[k]);
      RehomeWithin(Without(ss, k), gone.peer.hashes, gone.docs, b);
    }
  }

  lemma {:induction false} RehomeWithin(rest: Cluster, hashes: seq<Word>, docs: seq<Doc>, b: nat)
    requires rest != [] && AllWorking(rest) && QueuesWithin(rest, b)
    requires forall i :: 0 <= i < |docs| ==> docs[i].index < |hashes|
    ensures QueuesWithin(Rehome(rest, hashes, docs), b)
  {
    if docs != [] {
      RehomeWithin(rest, hashes, docs[..|docs| - 1], b);
    }
  }

  lemma StepWithin(cfg: Config, ss: Cluster, q: Request, b: nat)
    requires GoodConfig(cfg) && Inv(cfg, ss) && Callable(ss, q) && QueuesWithin(ss, b)
    ensures QueuesWithin(Step(cfg, ss, q), if q.Write? then b + 1 else b)
  {
    hide AddServer, RemoveServer, GoodConfig, Flush, Placed, RingOk;
    match q
    case AddRequest(id, capacity) =>
      AddWithin(cfg, ss, id, capacity, b);
    case RemoveRequest(id) =>
      RemoveRefines(cfg, ss, id, []);
      RemoveWithin(cfg, ss, id, b);
    case Write(n, content) =>
    case Fetch(n) =>
  }

  lemma {:induction false} RunWithin(cfg: Config, qs: seq<Request>)
    requires GoodConfig(cfg) && Run(cfg, qs).Some?
    ensures QueuesWithin(Run(cfg, qs).value, Writes(qs))
  {
    hide Step, Inv, Callable, Accepted, Safe, GoodConfig;
    if qs != [] {
      LastTurn(cfg, qs);
      RunWithin(cfg, qs[..|qs| - 1]);
      StepWithin(cfg, Run(cfg, qs[..|qs| - 1]).value, qs[|qs| - 1], Writes(qs[..|qs| - 1]));
    }
  }

  /** A run with at most 1000 EDITs drops none. */
  lemma {:induction false} FewWritesNoneDropped(cfg: Config, qs: seq<Request>)
    requires GoodConfig(cfg) && Run(cfg, qs).Some? && Writes(qs) <= 1000
    ensures Effective(cfg, qs) == qs
  {
    hide Step, Inv, Callable, Safe, GoodConfig;
    if qs != [] {
      LastTurn(cfg, qs);
      RunWithin(cfg, qs[..|qs| - 1]);
      FewWritesNoneDropped(cfg, qs[..|qs| - 1]);
    }
  }
}
