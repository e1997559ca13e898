/** What load_balancer.c computes, on values: the list of servers from its head. */
module ClusterModel {
  import opened Wrappers
  import opened Hashing
  import opened Ring
  import opened ServerModel
  import Lru = LruModel

  const MAX_SERVERS: nat := 99999
  const REPLICA_OFFSET: nat := 100000
  const MAX_REPLICAS: nat := 3

  type Cluster = seq<ServerState>

  function RingOf(ss: Cluster): (ring: seq<Peer>)
    ensures |ring| == |ss|
    ensures forall i :: 0 <= i < |ss| ==> ring[i] == ss[i].peer
  {
    seq(|ss|, i requires 0 <= i < |ss| => ss[i].peer)
  }

  // Labels ---------------------------------------------------------------------

  /** get_number_replicas */
  function Replicas(cfg: Config): (r: nat)
    ensures 1 <= r <= MAX_REPLICAS
  {
    if cfg.vnodes then MAX_REPLICAS else 1
  }

  /** calculate_replica_label, for the ids that the load balancer allows. */
  function ReplicaLabel(id: nat, r: nat): Word
    requires id <= MAX_SERVERS && r < MAX_REPLICAS
  {
    REPLICA_OFFSET * r + id
  }

  /** The label hashes that init_server computes. */
  function LabelHashes(cfg: Config, id: nat): (hashes: seq<Word>)
    requires id <= MAX_SERVERS
    ensures |hashes| == Replicas(cfg)
    ensures forall r :: 0 <= r < |hashes| ==> hashes[r] == cfg.serverHash(ReplicaLabel(id, r))
  {
    seq<Word>(Replicas(cfg), r requires 0 <= r < Replicas(cfg) => cfg.serverHash(ReplicaLabel(id, r)))
  }

  /** init_server */
  function NewServer(cfg: Config, id: nat, capacity: nat): ServerState
    requires id <= MAX_SERVERS
  {
    ServerState(Peer(id, LabelHashes(cfg, id)), [], [], Lru.Cache(capacity, []), [])
  }

  // ADD_SERVER -----------------------------------------------------------------

  /** What loader_add_server compares a document with while it handles one label of
      the joining server: that label, and the label that follows it on the ring. */
  datatype Cut = Cut(replica: nat, newHash: Word, newId: nat, nextReplica: nat, nextHash: Word, nextId: nat)
  {
    predicate Leaves(d: Doc) {
      d.index == nextReplica && Moves(newHash, newId, nextHash, nextId, d.hash)
    }
  }

  function CutAt(joiner: Peer, r: nat, ring: seq<Peer>, p: Place): Cut
    requires r < |joiner.hashes| && At(ring, p)
  {
    Cut(r, joiner.hashes[r], joiner.id, p.replica, HashAt(ring, p), ring[p.server].id)
  }

  /** The documents that stay with the donor, in order. */
  function Staying(docs: seq<Doc>, cut: Cut): seq<Doc> {
    if docs == [] then []
    else
      Staying(docs[..|docs| - 1], cut) +
      if cut.Leaves(docs[|docs| - 1]) then [] else [docs[|docs| - 1]]
  }

  /** The documents handed to the joining server: each is put at the head. */
  function Handed(docs: seq<Doc>, cut: Cut): seq<Doc> {
    if docs == [] then []
    else
      (if cut.Leaves(docs[|docs| - 1]) then [docs[|docs| - 1].(index := cut.replica)] else []) +
      Handed(docs[..|docs| - 1], cut)
  }

  /** The donor's cache, without the documents that leave. */
  function CacheAfter(c: Cache, docs: seq<Doc>, cut: Cut): (r: Cache)
    ensures r.capacity == c.capacity
  {
    if docs == [] then c
    else
      var before := CacheAfter(c, docs[..|docs| - 1], cut);
      if cut.Leaves(docs[|docs| - 1]) then Lru.Remove(before, docs[|docs| - 1].name) else before
  }

  function Donor(s: ServerState, cut: Cut): ServerState {
    s.(docs := Staying(s.docs, cut), cache := CacheAfter(s.cache, s.docs, cut))
  }

  predicate AllWorking(ss: Cluster) {
    forall k :: 0 <= k < |ss| ==> Working(ss[k])
  }

  /** One turn of the loop over the new labels: lines 128-210. */
  ghost function MigrateLabel(cfg: Config, ss: Cluster, joiner: ServerState, r: nat): (res: (Cluster, ServerState))
    requires AllWorking(ss) && r < |joiner.peer.hashes|
    ensures AllWorking(res.0) && RingOf(res.0) == RingOf(ss)
    ensures res.1 == joiner.(docs := res.1.docs)
  {
    if ss == [] then (ss, joiner)
    else
      var ring := RingOf(ss);
      var p := Next(ring, joiner.peer.hashes[r]);
      var cut := CutAt(joiner.peer, r, ring, p);
      var f := Flush(cfg, ss[p.server]);
      (ss[p.server := Donor(f, cut)], joiner.(docs := Handed(f.docs, cut) + joiner.docs))
  }

  /** The first k turns. */
  ghost function MigrateLabels(cfg: Config, ss: Cluster, joiner: ServerState, k: nat): (res: (Cluster, ServerState))
    requires AllWorking(ss) && k <= |joiner.peer.hashes|
    ensures AllWorking(res.0) && RingOf(res.0) == RingOf(ss)
    ensures res.1 == joiner.(docs := res.1.docs)
  {
    if k == 0 then (ss, joiner)
    else
      var before := MigrateLabels(cfg, ss, joiner, k - 1);
      MigrateLabel(cfg, before.0, before.1, k - 1)
  }

  /** The last loop: every moved document gets the label that the joining server's own
      lookup gives. */
  ghost function Reindexed(docs: seq<Doc>, hashes: seq<Word>): (r: seq<Doc>)
    requires |hashes| > 0
    ensures |r| == |docs|
    ensures forall i :: 0 <= i < |docs| ==> r[i] == docs[i].(index := LocalNext(hashes, docs[i].hash))
  {
    seq(|docs|, i requires 0 <= i < |docs| => docs[i].(index := LocalNext(hashes, docs[i].hash)))
  }

  /** loader_add_server */
  ghost function AddServer(cfg: Config, ss: Cluster, id: nat, capacity: nat): Cluster
    requires AllWorking(ss) && id <= MAX_SERVERS
  {
    var (ss', joiner) := MigrateLabels(cfg, ss, NewServer(cfg, id, capacity), Replicas(cfg));
    [joiner.(docs := Reindexed(joiner.docs, joiner.peer.hashes))] + ss'
  }

  // REMOVE_SERVER --------------------------------------------------------------

  /** Position of the first server with this id; the length if there is none. */
  function FindServer(ss: Cluster, id: nat): (k: nat)
    ensures k <= |ss|
    ensures k < |ss| ==> ss[k].peer.id == id
    ensures forall j :: 0 <= j < k ==> ss[j].peer.id != id
  {
    if ss == [] || ss[0].peer.id == id then 0 else 1 + FindServer(ss[1..], id)
  }

  /** Each document goes to the label that follows, on the remaining ring, the label
      that it was filed under. */
  ghost function Rehome(rest: Cluster, hashes: seq<Word>, docs: seq<Doc>): (r: Cluster)
    requires rest != [] && AllWorking(rest)
    requires forall i :: 0 <= i < |docs| ==> docs[i].index < |hashes|
    ensures AllWorking(r) && RingOf(r) == RingOf(rest)
  {
    if docs == [] then rest
    else
      var d := docs[|docs| - 1];
      var before := Rehome(rest, hashes, docs[..|docs| - 1]);
      var p := Next(RingOf(rest), hashes[d.index]);
      before[p.server := Deliver(before[p.server], d.(index := p.replica))]
  }

  ghost predicate IndexesOk(s: ServerState) {
    forall i :: 0 <= i < |s.docs| ==> s.docs[i].index < |s.peer.hashes|
  }

  /** loader_remove_server */
  ghost function RemoveServer(cfg: Config, ss: Cluster, id: nat): Cluster
    requires AllWorking(ss)
    requires var k := FindServer(ss, id); k < |ss| ==> IndexesOk(Flush(cfg, ss[k]))
  {
    var k := FindServer(ss, id);
    if k == |ss| then ss
    else if |ss| == 1 then []
    else
      var gone := Flush(cfg, ss[k]);
      Rehome(Without(ss, k), gone.peer.hashes, gone.docs)
  }

  // EDIT and GET ---------------------------------------------------------------

  /** The server that loader_forward_request picks for a document name. */
  ghost function Owner(cfg: Config, ss: Cluster, n: CString): (k: nat)
    requires ss != [] && AllWorking(ss)
    ensures k < |ss|
  {
    Next(RingOf(ss), cfg.docHash(n)).server
  }

  ghost function EditRequest(cfg: Config, ss: Cluster, n: CString, content: CString): Cluster
    requires ss != [] && AllWorking(ss)
  {
    var k := Owner(cfg, ss, n);
    ss[k := Push(ss[k], Task(n, content))]
  }

  ghost function GetRequest(cfg: Config, ss: Cluster, n: CString): (Cluster, Outcome)
    requires ss != [] && AllWorking(ss)
  {
    var k := Owner(cfg, ss, n);
    var (s, out) := HandleGet(cfg, ss[k], n);
    (ss[k := s], out)
  }

  // The invariant --------------------------------------------------------------

  /** What the hash function for servers must give: labels up to 299999 have distinct
      hashes, none of them the sentinel of the local searches. */
  ghost predicate GoodConfig(cfg: Config) {
    && (forall a, b | 0 <= a < b < MAX_REPLICAS * REPLICA_OFFSET :: cfg.serverHash(a) != cfg.serverHash(b))
    && (forall a | 0 <= a < MAX_REPLICAS * REPLICA_OFFSET :: cfg.serverHash(a) != SENTINEL)
  }

  ghost predicate RingOk(cfg: Config, ring: seq<Peer>) {
    && (forall i :: 0 <= i < |ring| ==> ring[i].id <= MAX_SERVERS && ring[i].hashes == LabelHashes(cfg, ring[i].id))
    && (forall i, j :: 0 <= i < j < |ring| ==> ring[i].id != ring[j].id)
  }

  /** Every document of server k is filed under the label that owns its hash, and every
      edit in its queue is for a name that it owns. */
  ghost predicate Placed(cfg: Config, ring: seq<Peer>, k: nat, s: ServerState)
    requires Live(ring)
  {
    && (forall d :: d in s.docs ==> d.hash == cfg.docHash(d.name) && Next(ring, d.hash) == Place(k, d.index))
    && (forall t :: t in s.tasks ==> Next(ring, cfg.docHash(t.name)).server == k)
  }

  ghost predicate Inv(cfg: Config, ss: Cluster) {
    var ring := RingOf(ss);
    && RingOk(cfg, ring)
    && (ss != [] ==> Live(ring))
    && (forall k :: 0 <= k < |ss| ==> Sound(ss[k]) && Placed(cfg, ring, k, ss[k]))
  }

  /** What is readable under n in the whole system. */
  ghost function Read(cfg: Config, ss: Cluster, n: CString): Option<CString>
    requires AllWorking(ss)
  {
    if ss == [] then None else ReadAt(ss[Owner(cfg, ss, n)], n)
  }

  // Consequences ---------------------------------------------------------------

  lemma RingIsDistinct(cfg: Config, ring: seq<Peer>)
    requires GoodConfig(cfg) && RingOk(cfg, ring)
    ensures DistinctHashes(ring)
    ensures ring != [] ==> Live(ring)
    ensures forall p :: At(ring, p) ==> HashAt(ring, p) != SENTINEL
  {
    forall p, q | At(ring, p) && At(ring, q) && HashAt(ring, p) == HashAt(ring, q)
      ensures p == q
    {
      var a := ReplicaLabel(ring[p.server].id, p.replica);
      var b := ReplicaLabel(ring[q.server].id, q.replica);
      assert cfg.serverHash(a) == cfg.serverHash(b);
      assert a == b;
    }
  }

  /** The hash functions of utils.c meet GoodConfig. */
  lemma HashUintIsGood(cfg: Config)
    requires forall x :: cfg.serverHash(x) == HashUint(x)
    ensures GoodConfig(cfg)
  {
    forall a, b | 0 <= a < b < MAX_REPLICAS * REPLICA_OFFSET
      ensures cfg.serverHash(a) != cfg.serverHash(b)
    {
      if cfg.serverHash(a) == cfg.serverHash(b) {
        HashUintInjective(a, b);
      }
    }
    forall a | 0 <= a < MAX_REPLICAS * REPLICA_OFFSET
      ensures cfg.serverHash(a) != SENTINEL
    {
      SentinelPreimage(a);
    }
  }

  /** A document name is stored at most once in the whole system. */
  lemma NamesUnique(cfg: Config, ss: Cluster, j: nat, k: nat, d: Doc, e: Doc)
    requires Inv(cfg, ss) && j < |ss| && k < |ss|
    requires d in ss[j].docs && e in ss[k].docs && d.name == e.name
    ensures j == k && d == e
  {
    LookupDoc(ss[j].docs, d);
    LookupDoc(ss[k].docs, e);
  }

  /** Edits run by their owner file new documents where the ring says. */
  lemma {:induction false} EditsKeepPlaced(cfg: Config, ring: seq<Peer>, k: nat, s: ServerState, ts: seq<Task>)
    requires Live(ring) && k < |ring| && ring[k] == s.peer && Working(s) && Placed(cfg, ring, k, s)
    requires forall t :: t in ts ==> Next(ring, cfg.docHash(t.name)).server == k
    ensures Placed(cfg, ring, k, RunEdits(cfg, s, ts))
  {
    if ts != [] {
      var init, t := ts[..|ts| - 1], ts[|ts| - 1];
      assert ts == init + [t];
      EditsKeepPlaced(cfg, ring, k, s, init);
      var before := RunEdits(cfg, s, init);
      var after := Edit(cfg, before, t);
      LocalAgreesWithRing(ring, cfg.docHash(t.name));
      forall d | d in after.docs
        ensures d.hash == cfg.docHash(d.name) && Next(ring, d.hash) == Place(k, d.index)
      {
        var i :| 0 <= i < |after.docs| && after.docs[i] == d;
        if i < |before.docs| {
          assert before.docs[i] in before.docs;
        }
      }
    }
  }

  lemma FlushKeepsPlaced(cfg: Config, ring: seq<Peer>, k: nat, s: ServerState)
    requires Live(ring) && k < |ring| && ring[k] == s.peer && Working(s) && Placed(cfg, ring, k, s)
    ensures Placed(cfg, ring, k, Flush(cfg, s))
  {
    EditsKeepPlaced(cfg, ring, k, s, s.tasks);
  }

  /** Replacing one server by another state of it that reads the same. */
  lemma Replace(cfg: Config, ss: Cluster, k: nat, s: ServerState)
    requires Inv(cfg, ss) && k < |ss| && s.peer == ss[k].peer
    requires Sound(s) && Placed(cfg, RingOf(ss), k, s)
    ensures RingOf(ss[k := s]) == RingOf(ss) && Inv(cfg, ss[k := s])
    ensures forall n :: Read(cfg, ss[k := s], n) == if Owner(cfg, ss, n) == k then ReadAt(s, n) else Read(cfg, ss, n)
  {
    assert RingOf(ss[k := s]) == RingOf(ss);
  }

  /** EDIT keeps the invariant; the name reads as the new content exactly when its
      owner's queue has room, or when it did so before; no other name changes. */
  lemma EditRefines(cfg: Config, ss: Cluster, n: CString, content: CString)
    requires Inv(cfg, ss) && ss != []
    ensures var ss' := EditRequest(cfg, ss, n, content);
            && Inv(cfg, ss')
            && (forall m :: m != n ==> Read(cfg, ss', m) == Read(cfg, ss, m))
            && (Read(cfg, ss', n) == Some(content) <==>
                |ss[Owner(cfg, ss, n)].tasks| < 1000 || Read(cfg, ss, n) == Some(content))
            && (|ss[Owner(cfg, ss, n)].tasks| >= 1000 ==> ss' == ss)
  {
    var k := Owner(cfg, ss, n);
    var s := Push(ss[k], Task(n, content));
    PushReads(ss[k], Task(n, content));
    Replace(cfg, ss, k, s);
  }

  /** GET keeps the invariant and everything readable, and answers with what is
      readable under the name. */
  lemma GetRefines(cfg: Config, ss: Cluster, n: CString)
    requires Inv(cfg, ss) && ss != []
    ensures var (ss', out) := GetRequest(cfg, ss, n);
            && Inv(cfg, ss')
            && (forall m :: Read(cfg, ss', m) == Read(cfg, ss, m))
            && out.reply == (if Read(cfg, ss, n).Some? then Text(Read(cfg, ss, n).value) else NoText)
  {
    var k := Owner(cfg, ss, n);
    var (s, out) := HandleGet(cfg, ss[k], n);
    GetReads(cfg, ss[k], n);
    FlushKeepsPlaced(cfg, RingOf(ss), k, ss[k]);
    Replace(cfg, ss, k, s);
  }
}
