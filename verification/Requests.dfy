/** The loop of main.c that applies requests one after the other: whatever the requests,
    as long as each is callable and safe, the load balancer on the heap answers like one
    map that is given the EDITs which are not dropped. */
module Requests {
  import opened Wrappers
  import opened Hashing
  import opened ServerModel
  import opened ClusterModel
  import opened System
  import opened Servers
  import opened LoadBalancers
  import opened Membership
  import opened Ring
  import Removal
  import Lru = LruModel

  /** What the answers to a request must be: an EDIT is acknowledged, a GET answers with
      what the map holds. The other requests are not answered. */
  function Answer(m: Store, q: Request): Option<Reply> {
    match q
    case AddRequest(_, _) => None
    case RemoveRequest(_) => None
    case Write(n, _) => Some(Queued(n))
    case Fetch(n) => Some(if n in m.docs then Text(m.docs[n]) else NoText)
  }

  function ReplyOf(res: Option<Response>): Option<Reply> {
    if res.Some? then Some(res.value.outcome.reply) else None
  }

  /** What a response must be, besides its answer: it carries the label that owns the
      document on the ring, and a log that says how many edits the owner has pending, or
      whether the owner had the document cached, or that there is none. */
  ghost predicate Correct(cfg: Config, ss: Cluster, m: Store, q: Request, res: Option<Response>)
    requires AllWorking(ss) && Callable(ss, q)
  {
    && ReplyOf(res) == Answer(m, q)
    && (q.Write? ==>
          var pending := |ss[Owner(cfg, ss, q.name)].tasks|;
          OwnersLabel(cfg, ss, q.name, res.value.server) &&
          res.value.outcome.log == QueueSize(if pending < 1000 then pending + 1 else 1000))
    && (q.Fetch? ==>
          var log := res.value.outcome.log;
          && OwnersLabel(cfg, ss, q.name, res.value.server)
          && (log == Hit(q.name) <==> Lru.Has(Flush(cfg, ss[Owner(cfg, ss, q.name)]).cache, q.name))
          && (log == Fault(q.name) <==> q.name !in m.docs))
  }

  /** The label of the ring that owns a name: the hash of the label is the place on the ring
      that follows the hash of the name. */
  ghost predicate OwnersLabel(cfg: Config, ss: Cluster, n: CString, shown: nat)
    requires ss != [] && AllWorking(ss)
  {
    var p := Next(RingOf(ss), cfg.docHash(n));
    && shown <= 299999 && shown % 100000 == ss[p.server].peer.id && shown / 100000 == p.replica
    && cfg.serverHash(shown) == HashAt(RingOf(ss), p)
  }

  lemma LabelIsOwners(cfg: Config, ss: Cluster, n: CString)
    requires Inv(cfg, ss) && ss != []
    ensures var p := Next(RingOf(ss), cfg.docHash(n));
            OwnersLabel(cfg, ss, n, 100000 * p.replica + ss[p.server].peer.id)
  {
    hide Next;
    RingLabels(cfg, ss, Next(RingOf(ss), cfg.docHash(n)).server);
  }

  lemma StepDefined(cfg: Config, ss: Cluster, q: Request)
    requires GoodConfig(cfg) && Inv(cfg, ss)
    ensures AllWorking(ss)
    ensures q.RemoveRequest? ==> var k := FindServer(ss, q.id); k < |ss| ==> IndexesOk(Flush(cfg, ss[k]))
  {
    if q.RemoveRequest? && FindServer(ss, q.id) < |ss| {
      Removal.RemoveDefined(cfg, ss, FindServer(ss, q.id));
    }
  }

  lemma WriteCorrect(cfg: Config, ss: Cluster, m: Store, n: CString, content: CString, res: Response)
    requires Inv(cfg, ss) && ss != []
    requires var p := Next(RingOf(ss), cfg.docHash(n));
             && res.server == 100000 * p.replica + ss[p.server].peer.id
             && res.outcome.reply == Queued(n)
             && var pending := |ss[p.server].tasks|;
                res.outcome.log == QueueSize(pending + if pending < 1000 then 1 else 0)
    ensures AllWorking(ss) && Correct(cfg, ss, m, Write(n, content), Some(res))
  {
    hide Next, OwnersLabel;
    LabelIsOwners(cfg, ss, n);
  }

  lemma FetchCorrect(cfg: Config, ss: Cluster, m: Store, n: CString, res: Response)
    requires Inv(cfg, ss) && ss != [] && Refines(cfg, ss, m)
    requires var p := Next(RingOf(ss), cfg.docHash(n));
             res.server == 100000 * p.replica + ss[p.server].peer.id
    requires res.outcome == GetRequest(cfg, ss, n).1
    ensures AllWorking(ss) && Correct(cfg, ss, m, Fetch(n), Some(res))
  {
    hide Next, OwnersLabel, RunEdits, GetDocument;
    var s := ss[Owner(cfg, ss, n)];
    LabelIsOwners(cfg, ss, n);
    GetRefines(cfg, ss, n);
    FlushReads(cfg, s);
    GetReportsTruly(Flush(cfg, s), n);
    assert Read(cfg, ss, n) == Get(m, n);
  }

  /** One turn of the loop. */
  method Serve(lb: LoadBalancer, q: Request, ghost m: Store) returns (res: Option<Response>)
    requires lb.Valid() && GoodConfig(lb.cfg) && Inv(lb.cfg, lb.cluster) && Callable(lb.cluster, q)
    requires Refines(lb.cfg, lb.cluster, m)
    modifies lb.Repr
    ensures lb.Valid() && fresh(lb.Repr - old(lb.Repr))
    ensures lb.cluster == Step(lb.cfg, old(lb.cluster), q)
    ensures Correct(lb.cfg, old(lb.cluster), m, q, res)
  {
    hide LoadBalancer.Valid, GoodConfig, Refines, MigrateLabels, Placed, RingOk, OwnersLabel;
    StepDefined(lb.cfg, lb.cluster, q);
    match q
    case AddRequest(id, capacity) =>
      lb.AddServer(id, capacity);
      res := None;
    case RemoveRequest(id) =>
      lb.RemoveServer(id);
      res := None;
    case Write(n, content) =>
      var answer := lb.ForwardRequest(EditDoc(n, content));
      WriteCorrect(lb.cfg, old(lb.cluster), m, n, content, answer);
      res := Some(answer);
    case Fetch(n) =>
      var answer := lb.ForwardRequest(GetDoc(n));
      FetchCorrect(lb.cfg, old(lb.cluster), m, n, answer);
      res := Some(answer);
  }

  lemma RunPrefix(cfg: Config, qs: seq<Request>, i: nat)
    requires GoodConfig(cfg) && Run(cfg, qs).Some? && i <= |qs|
    ensures Run(cfg, qs[..i]).Some?
    decreases |qs| - i
  {
    hide Run, GoodConfig;
    if i < |qs| {
      RunPrefix(cfg, qs, i + 1);
      assert qs[..i + 1][..i] == qs[..i];
      LastTurn(cfg, qs[..i + 1]);
    } else {
      assert qs[..i] == qs;
    }
  }

  /** The atomic map that the answer to request i has to come from. */
  ghost function MapBefore(cfg: Config, qs: seq<Request>, i: nat): Store
    requires GoodConfig(cfg) && Run(cfg, qs).Some? && i <= |qs|
  {
    RunPrefix(cfg, qs, i);
    Atomic(Effective(cfg, qs[..i]))
  }

  lemma RunTurn(cfg: Config, qs: seq<Request>, i: nat)
    requires GoodConfig(cfg) && Run(cfg, qs).Some? && i < |qs|
    ensures var ss := Run(cfg, qs[..i]);
            && ss.Some? && Inv(cfg, ss.value) && Callable(ss.value, qs[i])
            && Refines(cfg, ss.value, MapBefore(cfg, qs, i))
            && Run(cfg, qs[..i + 1]) == Some(Step(cfg, ss.value, qs[i]))
  {
    hide Step, Inv, Callable, Safe, Accepted, Refines, GoodConfig;
    assert qs[..i + 1][..i] == qs[..i];
    RunPrefix(cfg, qs, i);
    RunPrefix(cfg, qs, i + 1);
    LastTurn(cfg, qs[..i + 1]);
    RunRefines(cfg, qs[..i]);
  }

  /** The state of the system that request i meets. */
  ghost function StateBefore(cfg: Config, qs: seq<Request>, i: nat): (ss: Cluster)
    requires GoodConfig(cfg) && Run(cfg, qs).Some? && i < |qs|
    ensures Some(ss) == Run(cfg, qs[..i])
    ensures AllWorking(ss) && Callable(ss, qs[i])
  {
    RunTurn(cfg, qs, i);
    Run(cfg, qs[..i]).value
  }

  /** apply_requests: from the empty ring, every GET is answered with the content of the
      latest EDIT of the name that was not dropped. */
  method ServeAll(lb: LoadBalancer, qs: seq<Request>) returns (responses: seq<Option<Response>>)
    requires lb.Valid() && GoodConfig(lb.cfg) && lb.cluster == [] && Run(lb.cfg, qs).Some?
    modifies lb.Repr
    ensures lb.Valid() && Run(lb.cfg, qs) == Some(lb.cluster)
    ensures |responses| == |qs|
    ensures forall i :: 0 <= i < |qs| ==>
              Correct(lb.cfg, StateBefore(lb.cfg, qs, i), MapBefore(lb.cfg, qs, i), qs[i], responses[i])
  {
    hide LoadBalancer.Valid, GoodConfig, Inv, Refines, Run, Step, MapBefore, StateBefore, Correct, Callable;
    responses := [];
    var i := 0;
    RunPrefix(lb.cfg, qs, 0);
    RunOfNone(lb.cfg);
    while i < |qs|
      invariant 0 <= i <= |qs| && lb.Valid() && fresh(lb.Repr - old(lb.Repr))
      invariant Run(lb.cfg, qs[..i]) == Some(lb.cluster)
      invariant |responses| == i
      invariant forall j :: 0 <= j < i ==>
                  Correct(lb.cfg, StateBefore(lb.cfg, qs, j), MapBefore(lb.cfg, qs, j), qs[j], responses[j])
    {
      RunTurn(lb.cfg, qs, i);
      var res := Serve(lb, qs[i], MapBefore(lb.cfg, qs, i));
      responses := responses + [res];
      i := i + 1;
    }
    assert qs[..i] == qs;
  }

  /** The hash functions of utils.c, about which nothing has to be assumed. */
  ghost function StartConfig(vnodes: bool): (cfg: Config)
    ensures cfg.serverHash == HashUint && cfg.docHash == HashString && cfg.vnodes == vnodes
    ensures GoodConfig(cfg)
  {
    var cfg := Config(HashUint, HashString, vnodes);
    HashUintIsGood(cfg);
    cfg
  }

  lemma {:induction false} WritesBefore(qs: seq<Request>, i: nat)
    requires i <= |qs|
    ensures Writes(qs[..i]) <= Writes(qs)
  {
    if i == |qs| {
      assert qs[..i] == qs;
    } else {
      assert qs[..|qs| - 1][..i] == qs[..i];
      WritesBefore(qs[..|qs| - 1], i);
    }
  }

  lemma MapOfFew(cfg: Config, qs: seq<Request>, i: nat)
    requires GoodConfig(cfg) && Run(cfg, qs).Some? && i <= |qs| && Writes(qs) <= 1000
    ensures MapBefore(cfg, qs, i) == Atomic(qs[..i])
  {
    hide Run, Effective, Atomic, GoodConfig;
    RunPrefix(cfg, qs, i);
    WritesBefore(qs, i);
    FewWritesNoneDropped(cfg, qs[..i]);
  }

  /** The same from the very start: init_load_balancer, then all requests. With at most
      1000 EDITs every one of them counts. */
  method ApplyRequests(enableVnodes: bool, qs: seq<Request>) returns (responses: seq<Option<Response>>)
    requires Run(StartConfig(enableVnodes), qs).Some?
    ensures |responses| == |qs|
    ensures var cfg := StartConfig(enableVnodes);
            forall i :: 0 <= i < |qs| ==>
              Correct(cfg, StateBefore(cfg, qs, i), MapBefore(cfg, qs, i), qs[i], responses[i])
    ensures Writes(qs) <= 1000 ==>
              forall i :: 0 <= i < |qs| ==> ReplyOf(responses[i]) == Answer(Atomic(qs[..i]), qs[i])
  {
    hide GoodConfig, Run, MapBefore, StateBefore, Atomic, Writes, HashUint, HashString;
    var lb := new LoadBalancer(enableVnodes, HashUint, HashString);
    assert lb.cfg == StartConfig(enableVnodes);
    responses := ServeAll(lb, qs);
    if Writes(qs) <= 1000 {
      forall i | 0 <= i < |qs|
        ensures ReplyOf(responses[i]) == Answer(Atomic(qs[..i]), qs[i])
      {
        MapOfFew(StartConfig(enableVnodes), qs, i);
      }
    }
  }
}
