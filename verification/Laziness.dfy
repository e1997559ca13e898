/** Queueing edits cannot be observed: at every point of every run, flushing all queues
    gives the system in which each edit ran on arrival. */
module Laziness {
  import opened Wrappers
  import opened Hashing
  import opened Ring
  import opened ServerModel
  import opened ClusterModel
  import opened Migration
  import opened Removal
  import opened System

  ghost function FlushAll(cfg: Config, ss: Cluster): (r: Cluster)
    requires AllWorking(ss)
    ensures |r| == |ss| && AllWorking(r) && RingOf(r) == RingOf(ss)
    ensures forall k :: 0 <= k < |ss| ==> r[k] == Flush(cfg, ss[k])
  {
    var r := seq(|ss|, k requires 0 <= k < |ss| => Flush(cfg, ss[k]));
    assert RingOf(r) == RingOf(ss);
    r
  }

  /** What the eager system needs for a request to be defined at all. */
  ghost predicate EagerDefined(cfg: Config, es: Cluster, q: Request)
    requires AllWorking(es)
  {
    match q
    case AddRequest(id, _) => id <= MAX_SERVERS
    case RemoveRequest(id) =>
      var k := FindServer(es, id);
      k < |es| ==> IndexesOk(Flush(cfg, es[k]))
    case Write(_, _) => es != []
    case Fetch(_) => es != []
  }

  /** The same requests with every EDIT run on arrival. */
  ghost function EagerStep(cfg: Config, es: Cluster, q: Request): (r: Cluster)
    requires AllWorking(es) && EagerDefined(cfg, es, q)
  {
    match q
    case AddRequest(id, capacity) => AddServer(cfg, es, id, capacity)
    case RemoveRequest(id) => RemoveServer(cfg, es, id)
    case Write(n, content) =>
      var k := Owner(cfg, es, n);
      es[k := Edit(cfg, es[k], Task(n, content))]
    case Fetch(n) => GetRequest(cfg, es, n).0
  }

  lemma FlushAllUpdate(cfg: Config, ss: Cluster, k: nat, s: ServerState)
    requires AllWorking(ss) && k < |ss| && Working(s)
    ensures FlushAll(cfg, ss[k := s]) == FlushAll(cfg, ss)[k := Flush(cfg, s)]
  {
  }

  // EDIT and GET ---------------------------------------------------------------

  lemma WriteCommutes(cfg: Config, ss: Cluster, n: CString, content: CString)
    requires ss != [] && AllWorking(ss) && |ss[Owner(cfg, ss, n)].tasks| < TASK_QUEUE_SIZE
    ensures AllWorking(EditRequest(cfg, ss, n, content))
    ensures FlushAll(cfg, EditRequest(cfg, ss, n, content)) == EagerStep(cfg, FlushAll(cfg, ss), Write(n, content))
  {
    var k, t := Owner(cfg, ss, n), Task(n, content);
    FlushAfterPush(cfg, ss[k], t);
    FlushAllUpdate(cfg, ss, k, Push(ss[k], t));
  }

  lemma FetchCommutes(cfg: Config, ss: Cluster, n: CString)
    requires ss != [] && AllWorking(ss)
    ensures AllWorking(GetRequest(cfg, ss, n).0)
    ensures FlushAll(cfg, GetRequest(cfg, ss, n).0) == GetRequest(cfg, FlushAll(cfg, ss), n).0
    ensures GetRequest(cfg, FlushAll(cfg, ss), n).1 == GetRequest(cfg, ss, n).1
  {
    var k := Owner(cfg, ss, n);
    var (s, out) := HandleGet(cfg, ss[k], n);
    FlushTwice(cfg, Flush(cfg, ss[k]));
    FlushTwice(cfg, s);
    FlushAllUpdate(cfg, ss, k, s);
  }

  // ADD_SERVER -----------------------------------------------------------------

  lemma MigrateCommutes(cfg: Config, ss: Cluster, joiner: ServerState, r: nat)
    requires AllWorking(ss) && r < |joiner.peer.hashes|
    ensures MigrateLabel(cfg, FlushAll(cfg, ss), joiner, r).0 == FlushAll(cfg, MigrateLabel(cfg, ss, joiner, r).0)
    ensures MigrateLabel(cfg, FlushAll(cfg, ss), joiner, r).1 == MigrateLabel(cfg, ss, joiner, r).1
  {
    if ss != [] {
      var p := Next(RingOf(ss), joiner.peer.hashes[r]);
      var f := Flush(cfg, ss[p.server]);
      var donor := Donor(f, CutAt(joiner.peer, r, RingOf(ss), p));
      FlushTwice(cfg, f);
      FlushTwice(cfg, donor);
      FlushAllUpdate(cfg, ss, p.server, donor);
    }
  }

  /** es is ss with every queue flushed. */
  ghost predicate IsFlushed(cfg: Config, es: Cluster, ss: Cluster) {
    AllWorking(ss) && es == FlushAll(cfg, ss)
  }

  lemma MigrateKeepsFlushed(cfg: Config, es: Cluster, ss: Cluster, joiner: ServerState, r: nat)
    requires IsFlushed(cfg, es, ss) && AllWorking(es) && r < |joiner.peer.hashes|
    ensures IsFlushed(cfg, MigrateLabel(cfg, es, joiner, r).0, MigrateLabel(cfg, ss, joiner, r).0)
    ensures MigrateLabel(cfg, es, joiner, r).1 == MigrateLabel(cfg, ss, joiner, r).1
  {
    MigrateCommutes(cfg, ss, joiner, r);
  }

  ghost predicate InStep(cfg: Config, es: Cluster, ss: Cluster, joiner: ServerState, k: nat)
    requires AllWorking(es) && AllWorking(ss) && k <= |joiner.peer.hashes|
  {
    && IsFlushed(cfg, MigrateLabels(cfg, es, joiner, k).0, MigrateLabels(cfg, ss, joiner, k).0)
    && MigrateLabels(cfg, es, joiner, k).1 == MigrateLabels(cfg, ss, joiner, k).1
  }

  lemma MigrationsStep(cfg: Config, es: Cluster, ss: Cluster, joiner: ServerState, k: nat)
    requires AllWorking(es) && AllWorking(ss) && 0 < k <= |joiner.peer.hashes| && InStep(cfg, es, ss, joiner, k - 1)
    ensures InStep(cfg, es, ss, joiner, k)
  {
    hide MigrateLabel;
    var eager, lazy := MigrateLabels(cfg, es, joiner, k - 1), MigrateLabels(cfg, ss, joiner, k - 1);
    MigrateKeepsFlushed(cfg, eager.0, lazy.0, lazy.1, k - 1);
  }

  lemma MigrationsStart(cfg: Config, es: Cluster, ss: Cluster, joiner: ServerState)
    requires IsFlushed(cfg, es, ss) && AllWorking(es)
    ensures InStep(cfg, es, ss, joiner, 0)
  {
    var s := ss;
    assert MigrateLabels(cfg, es, joiner, 0).0 == es;
    assert MigrateLabels(cfg, s, joiner, 0).0 == s;
  }

  lemma {:induction false} MigrationsCommute(cfg: Config, es: Cluster, ss: Cluster, joiner: ServerState, k: nat)
    requires IsFlushed(cfg, es, ss) && AllWorking(es) && k <= |joiner.peer.hashes|
    ensures InStep(cfg, es, ss, joiner, k)
    decreases k
  {
    if k == 0 {
      MigrationsStart(cfg, es, ss, joiner);
    } else {
      MigrationsCommute(cfg, es, ss, joiner, k - 1);
      MigrationsStep(cfg, es, ss, joiner, k);
    }
  }

  lemma AddCommutes(cfg: Config, ss: Cluster, id: nat, capacity: nat)
    requires AllWorking(ss) && id <= MAX_SERVERS && capacity > 0
    ensures AllWorking(AddServer(cfg, ss, id, capacity))
    ensures FlushAll(cfg, AddServer(cfg, ss, id, capacity)) == AddServer(cfg, FlushAll(cfg, ss), id, capacity)
  {
    hide MigrateLabels, Flush;
    var s := NewServer(cfg, id, capacity);
    MigrationsCommute(cfg, FlushAll(cfg, ss), ss, s, Replicas(cfg));
    var (ss', joiner) := MigrateLabels(cfg, ss, s, Replicas(cfg));
    FlushTwice(cfg, Newcomer(joiner));
    assert FlushAll(cfg, [Newcomer(joiner)] + ss') == [Newcomer(joiner)] + FlushAll(cfg, ss');
  }

  // REMOVE_SERVER --------------------------------------------------------------

  /** Documents delivered to a server whose queue holds only edits of other names. */
  lemma {:induction false} RehomeCommutes(cfg: Config, rest: Cluster, hashes: seq<Word>, docs: seq<Doc>)
    requires rest != [] && AllWorking(rest)
    requires forall i :: 0 <= i < |docs| ==> docs[i].index < |hashes|
    requires forall i, k, t :: 0 <= i < |docs| && 0 <= k < |rest| && t in rest[k].tasks ==> t.name != docs[i].name
    ensures FlushAll(cfg, Rehome(rest, hashes, docs)) == Rehome(FlushAll(cfg, rest), hashes, docs)
    ensures forall k :: 0 <= k < |rest| ==> Rehome(rest, hashes, docs)[k].tasks == rest[k].tasks
  {
    if docs != [] {
      var init, d := docs[..|docs| - 1], docs[|docs| - 1];
      RehomeCommutes(cfg, rest, hashes, init);
      var before := Rehome(rest, hashes, init);
      var p := Next(RingOf(rest), hashes[d.index]);
      var s := before[p.server];
      FlushAfterDeliver(cfg, s, d.(index := p.replica));
      FlushAllUpdate(cfg, before, p.server, Deliver(s, d.(index := p.replica)));
    }
  }

  lemma FindInFlushed(cfg: Config, ss: Cluster, id: nat)
    requires AllWorking(ss)
    ensures FindServer(FlushAll(cfg, ss), id) == FindServer(ss, id)
  {
    var es := FlushAll(cfg, ss);
    var i, j := FindServer(ss, id), FindServer(es, id);
    assert i < |ss| ==> es[i].peer.id == id;
    assert j < |ss| ==> ss[j].peer.id == id;
  }

  lemma GoneCommutes(cfg: Config, ss: Cluster, k: nat)
    requires Inv(cfg, ss) && k < |ss| && |ss| > 1
    ensures IndexesOk(Flush(cfg, ss[k]))
    ensures var gone := Flush(cfg, ss[k]);
            FlushAll(cfg, Rehome(Without(ss, k), gone.peer.hashes, gone.docs)) ==
            Rehome(Without(FlushAll(cfg, ss), k), gone.peer.hashes, gone.docs)
  {
    var gone, rest := Flush(cfg, ss[k]), Without(ss, k);
    RemoveDefined(cfg, ss, k);
    FlushKeepsPlaced(cfg, RingOf(ss), k, ss[k]);
    assert FlushAll(cfg, rest) == Without(FlushAll(cfg, ss), k);
    forall i, j, t | 0 <= i < |gone.docs| && 0 <= j < |rest| && t in rest[j].tasks
      ensures t.name != gone.docs[i].name
    {
      assert gone.docs[i] in gone.docs;
      assert t in ss[if j < k then j else j + 1].tasks;
    }
    RehomeCommutes(cfg, rest, gone.peer.hashes, gone.docs);
  }

  lemma RemoveCommutes(cfg: Config, ss: Cluster, id: nat)
    requires GoodConfig(cfg) && Inv(cfg, ss)
    ensures var k := FindServer(ss, id); k < |ss| ==> IndexesOk(Flush(cfg, ss[k]))
    ensures var es := FlushAll(cfg, ss); var k := FindServer(es, id); k < |es| ==> IndexesOk(Flush(cfg, es[k]))
    ensures AllWorking(RemoveServer(cfg, ss, id))
    ensures FlushAll(cfg, RemoveServer(cfg, ss, id)) == RemoveServer(cfg, FlushAll(cfg, ss), id)
  {
    var k := FindServer(ss, id);
    FindInFlushed(cfg, ss, id);
    if k < |ss| {
      RemoveDefined(cfg, ss, k);
      FlushTwice(cfg, Flush(cfg, ss[k]));
      if |ss| > 1 {
        GoneCommutes(cfg, ss, k);
      }
    }
  }

  // Whole runs -----------------------------------------------------------------

  lemma StepCommutes(cfg: Config, ss: Cluster, q: Request)
    requires GoodConfig(cfg) && Inv(cfg, ss) && Callable(ss, q) && Kept(cfg, ss, q)
    ensures AllWorking(Step(cfg, ss, q))
    ensures EagerDefined(cfg, FlushAll(cfg, ss), q)
    ensures FlushAll(cfg, Step(cfg, ss, q)) == EagerStep(cfg, FlushAll(cfg, ss), q)
  {
    match q
    case AddRequest(id, capacity) => AddCommutes(cfg, ss, id, capacity);
    case RemoveRequest(id) => RemoveCommutes(cfg, ss, id);
    case Write(n, content) => WriteCommutes(cfg, ss, n, content);
    case Fetch(n) => FetchCommutes(cfg, ss, n);
  }

  /** The eager system after a run from the empty ring. */
  ghost function EagerRun(cfg: Config, qs: seq<Request>): Option<Cluster> {
    if qs == [] then Some([])
    else
      var before, q := EagerRun(cfg, qs[..|qs| - 1]), qs[|qs| - 1];
      if before.Some? && AllWorking(before.value) && EagerDefined(cfg, before.value, q) then
        Some(EagerStep(cfg, before.value, q))
      else
        None
  }

  lemma EagerNext(cfg: Config, qs: seq<Request>, q: Request)
    requires var es := EagerRun(cfg, qs); es.Some? && AllWorking(es.value) && EagerDefined(cfg, es.value, q)
    ensures EagerRun(cfg, qs + [q]) == Some(EagerStep(cfg, EagerRun(cfg, qs).value, q))
  {
    assert (qs + [q])[..|qs|] == qs;
  }

  // What removed servers printed -------------------------------------------------

  /** By server id, what servers had printed when they were removed. */
  type Archive = map<nat, seq<Outcome>>

  /** A removed server runs its queue, and what it has printed until then is filed
      behind what earlier servers with its id printed. */
  ghost function Filed(cfg: Config, a: Archive, ss: Cluster, q: Request): Archive
    requires AllWorking(ss)
  {
    if q.RemoveRequest? && FindServer(ss, q.id) < |ss| then
      var out := Flush(cfg, ss[FindServer(ss, q.id)]).printed;
      a[q.id := if q.id in a then a[q.id] + out else out]
    else
      a
  }

  ghost function Printed(cfg: Config, qs: seq<Request>): Archive
    requires GoodConfig(cfg) && Run(cfg, qs).Some?
  {
    if qs == [] then map[]
    else Filed(cfg, Printed(cfg, qs[..|qs| - 1]), Run(cfg, qs[..|qs| - 1]).value, qs[|qs| - 1])
  }

  ghost function EagerPrinted(cfg: Config, qs: seq<Request>): Archive {
    if qs == [] then map[]
    else
      var a, es := EagerPrinted(cfg, qs[..|qs| - 1]), EagerRun(cfg, qs[..|qs| - 1]);
      if es.Some? && AllWorking(es.value) then Filed(cfg, a, es.value, qs[|qs| - 1]) else a
  }

  lemma EagerPrintedNext(cfg: Config, qs: seq<Request>, q: Request)
    requires EagerRun(cfg, qs).Some? && AllWorking(EagerRun(cfg, qs).value)
    ensures EagerPrinted(cfg, qs + [q]) == Filed(cfg, EagerPrinted(cfg, qs), EagerRun(cfg, qs).value, q)
  {
    assert (qs + [q])[..|qs|] == qs;
  }

  lemma FiledAlike(cfg: Config, a: Archive, ss: Cluster, q: Request)
    requires AllWorking(ss)
    ensures Filed(cfg, a, FlushAll(cfg, ss), q) == Filed(cfg, a, ss, q)
  {
    hide Flush;
    if q.RemoveRequest? {
      FindInFlushed(cfg, ss, q.id);
      var k := FindServer(ss, q.id);
      if k < |ss| {
        FlushTwice(cfg, Flush(cfg, ss[k]));
      }
    }
  }

  /** One turn of both systems. A dropped EDIT is no turn of the eager one. */
  lemma TurnCommutes(cfg: Config, qs: seq<Request>)
    requires GoodConfig(cfg) && Run(cfg, qs).Some? && qs != []
    requires var init := qs[..|qs| - 1];
             && Run(cfg, init).Some?
             && EagerRun(cfg, Effective(cfg, init)) == Some(FlushAll(cfg, Run(cfg, init).value))
             && EagerPrinted(cfg, Effective(cfg, init)) == Printed(cfg, init)
    ensures EagerRun(cfg, Effective(cfg, qs)) == Some(FlushAll(cfg, Run(cfg, qs).value))
    ensures EagerPrinted(cfg, Effective(cfg, qs)) == Printed(cfg, qs)
  {
    hide Step, EagerStep, Inv, Callable, GoodConfig, EagerRun, EagerPrinted, Filed, FlushAll;
    var init, q := qs[..|qs| - 1], qs[|qs| - 1];
    LastTurn(cfg, qs);
    var ss, es := Run(cfg, init).value, Effective(cfg, init);
    if Accepted(cfg, ss, q) {
      StepCommutes(cfg, ss, q);
      EagerNext(cfg, es, q);
      EagerPrintedNext(cfg, es, q);
      FiledAlike(cfg, Printed(cfg, init), ss, q);
    } else {
      DroppedStep(cfg, ss, q);
      DroppedPrints(cfg, Printed(cfg, init), ss, q);
    }
  }

  lemma DroppedPrints(cfg: Config, a: Archive, ss: Cluster, q: Request)
    requires AllWorking(ss) && q.Write?
    ensures Filed(cfg, a, ss, q) == a
  {
  }

  /** Over every run: flushing all queues gives exactly the state of the eager run of the
      requests that were not dropped: the same databases in the same order, the same caches
      in the same order of recency, and the same printed answers and hit, miss and evict
      logs, server by server, those of removed servers included. */
  lemma {:induction false} LazinessUnobservable(cfg: Config, qs: seq<Request>)
    requires GoodConfig(cfg) && Run(cfg, qs).Some?
    ensures EagerRun(cfg, Effective(cfg, qs)) == Some(FlushAll(cfg, Run(cfg, qs).value))
    ensures EagerPrinted(cfg, Effective(cfg, qs)) == Printed(cfg, qs)
  {
    hide Step, EagerStep, Inv, Callable, Safe, Accepted, GoodConfig, Filed;
    if qs == [] {
      assert FlushAll(cfg, []) == [];
    } else {
      LastTurn(cfg, qs);
      LazinessUnobservable(cfg, qs[..|qs| - 1]);
      TurnCommutes(cfg, qs);
    }
  }
}
