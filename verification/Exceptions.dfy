/** The two requests that do not do what their names say, each on a run that reaches it. */
module Exceptions {
  import opened Wrappers
  import opened Hashing
  import opened Ring
  import opened ServerModel
  import opened ClusterModel
  import opened Migration
  import opened System
  import Lru = LruModel

  lemma FirstServerJoins(cfg: Config, id: nat, capacity: nat)
    requires GoodConfig(cfg) && id <= MAX_SERVERS && capacity > 0
    ensures Run(cfg, [AddRequest(id, capacity)]) == Some([NewServer(cfg, id, capacity)])
    ensures Effective(cfg, [AddRequest(id, capacity)]) == [AddRequest(id, capacity)]
  {
    hide GoodConfig, LabelHashes, AddServer, Inv;
    var first := [AddRequest(id, capacity)];
    assert first[..0] == [] && Run(cfg, []) == Some([]) && Effective(cfg, []) == [];
    AddToEmpty(cfg, id, capacity);
  }

  // A full queue ---------------------------------------------------------------

  function Asked(ts: seq<Task>): (r: seq<Request>)
    ensures |r| == |ts|
    ensures forall i :: 0 <= i < |ts| ==> r[i] == Write(ts[i].name, ts[i].content)
  {
    seq(|ts|, i requires 0 <= i < |ts| => Write(ts[i].name, ts[i].content))
  }

  /** A server joins, then these EDITs come. */
  function Burst(id: nat, capacity: nat, ts: seq<Task>): seq<Request> {
    [AddRequest(id, capacity)] + Asked(ts)
  }

  /** The state that queued EDITs leave a new server in. */
  function Waiting(cfg: Config, id: nat, capacity: nat, ts: seq<Task>): ServerState
    requires id <= MAX_SERVERS
  {
    NewServer(cfg, id, capacity).(tasks := ts)
  }

  lemma AloneEdit(cfg: Config, s: ServerState, n: CString, content: CString)
    requires Working(s)
    ensures Owner(cfg, [s], n) == 0
    ensures EditRequest(cfg, [s], n, content) == [Push(s, Task(n, content))]
  {
  }

  /** Any 1000 EDITs after the first ADD_SERVER are queued in their order, and none is
      dropped. */
  lemma {:induction false} BurstQueues(cfg: Config, id: nat, capacity: nat, ts: seq<Task>)
    requires GoodConfig(cfg) && id <= MAX_SERVERS && capacity > 0 && |ts| <= 1000
    ensures Run(cfg, Burst(id, capacity, ts)) == Some([Waiting(cfg, id, capacity, ts)])
    ensures Effective(cfg, Burst(id, capacity, ts)) == Burst(id, capacity, ts)
    decreases |ts|
  {
    hide Run, Effective, Waiting, GoodConfig;
    if ts == [] {
      FirstServerJoins(cfg, id, capacity);
      assert Burst(id, capacity, ts) == [AddRequest(id, capacity)];
      NoneWaiting(cfg, id, capacity);
    } else {
      var init, t := ts[..|ts| - 1], ts[|ts| - 1];
      BurstQueues(cfg, id, capacity, init);
      assert Burst(id, capacity, ts) == Burst(id, capacity, init) + [Write(t.name, t.content)];
      BurstTurn(cfg, id, capacity, init, t, Burst(id, capacity, init));
      assert init + [t] == ts;
    }
  }

  lemma NoneWaiting(cfg: Config, id: nat, capacity: nat)
    requires id <= MAX_SERVERS
    ensures Waiting(cfg, id, capacity, []) == NewServer(cfg, id, capacity)
  {
  }

  lemma BurstTurn(cfg: Config, id: nat, capacity: nat, ts: seq<Task>, t: Task, run: seq<Request>)
    requires GoodConfig(cfg) && id <= MAX_SERVERS && capacity > 0 && |ts| < 1000
    requires Run(cfg, run) == Some([Waiting(cfg, id, capacity, ts)]) && Effective(cfg, run) == run
    ensures var next := run + [Write(t.name, t.content)];
            && Run(cfg, next) == Some([Waiting(cfg, id, capacity, ts + [t])])
            && Effective(cfg, next) == next
  {
    hide Run, Effective, GoodConfig, Inv, LabelHashes, EditRequest;
    NextTurn(cfg, run, Write(t.name, t.content));
    AloneEdit(cfg, Waiting(cfg, id, capacity, ts), t.name, t.content);
  }

  /** After any 1000 EDITs one more is acknowledged like the others, and changes nothing;
      the map is left behind exactly if that EDIT was not a repetition. */
  lemma FullQueueDropsWrite(cfg: Config, id: nat, capacity: nat, ts: seq<Task>, n: CString, later: CString)
    requires GoodConfig(cfg) && id <= MAX_SERVERS && capacity > 0 && |ts| == 1000
    ensures var run, q := Burst(id, capacity, ts), Write(n, later);
            && Run(cfg, run).Some? && Inv(cfg, Run(cfg, run).value) && Callable(Run(cfg, run).value, q)
            && Refines(cfg, Run(cfg, run).value, Atomic(run))
            && (Refines(cfg, Step(cfg, Run(cfg, run).value, q), AtomicStep(Atomic(run), q)) <==>
                LastEdit(ts, n) == Some(later))
            && Run(cfg, run + [q]) == Run(cfg, run)
            && GetRequest(cfg, Run(cfg, run).value, n).1.reply ==
               (if LastEdit(ts, n).Some? then Text(LastEdit(ts, n).value) else NoText)
  {
    hide Run, Effective, GoodConfig, Inv, LabelHashes, EditRequest, Refines, AtomicStep, GetRequest, LastEdit;
    var run, q := Burst(id, capacity, ts), Write(n, later);
    BurstQueues(cfg, id, capacity, ts);
    var ss := [Waiting(cfg, id, capacity, ts)];
    assert Read(cfg, ss, n) == LastEdit(ts, n);
    RunRefines(cfg, run);
    AloneEdit(cfg, ss[0], n, later);
    LostByWrite(cfg, ss, Atomic(run), n, later);
    GetRefines(cfg, ss, n);
    NextTurn(cfg, run, q);
  }

  // The only label of the ring -------------------------------------------------

  /** One EDIT on a new server with one label, run: the document is stored and cached. */
  lemma FirstEditRuns(cfg: Config, s: ServerState, n: CString, content: CString)
    requires |s.peer.hashes| == 1 && s.cache.capacity > 0
    requires s.docs == [] && s.tasks == [Task(n, content)] && s.cache.entries == []
    ensures var f := Flush(cfg, s);
            && f.docs == [Doc(n, content, cfg.docHash(n), 0)]
            && f.cache.entries == [Lru.Entry(n, content)]
  {
    var t := Task(n, content);
    assert s.tasks[..0] == [] && s.tasks[0] == t;
    assert RunEdits(cfg, s, []) == s;
    assert RunEdits(cfg, s, s.tasks) == Edit(cfg, s, t);
    assert EditDocs(cfg, s.peer.hashes, [], t) == [Doc(n, content, cfg.docHash(n), 0)];
    assert Lru.DropKey<CString, CString>([], n) == [];
  }

  /** A document on the only label does not leave it, whoever joins. */
  lemma OnlyDocStays(c: Cache, d: Doc, cut: Cut)
    requires !cut.Leaves(d)
    ensures Staying([d], cut) == [d] && Handed([d], cut) == [] && CacheAfter(c, [d], cut) == c
  {
    assert [d][..0] == [];
  }

  /** The system after another server joined: the document and its cache entry are
      still on the old server. */
  ghost predicate Split(cfg: Config, all: Cluster, stayer: ServerState, joiner: ServerState, n: CString,
                        content: CString)
  {
    && all == [joiner, stayer]
    && |joiner.peer.hashes| == 1 == |stayer.peer.hashes| && joiner.cache.capacity > 0 && stayer.cache.capacity > 0
    && joiner.docs == [] && joiner.tasks == [] && joiner.cache.entries == []
    && stayer.docs == [Doc(n, content, cfg.docHash(n), 0)] && stayer.tasks == []
    && stayer.cache.entries == [Lru.Entry(n, content)]
    && joiner.peer.id != stayer.peer.id
    && cfg.docHash(n) == stayer.peer.hashes[0] != joiner.peer.hashes[0]
  }

  lemma FirstTurn(cfg: Config, s: ServerState, joiner: ServerState, n: CString, content: CString)
    requires Working(s) && |s.peer.hashes| == 1 == |joiner.peer.hashes| && joiner.docs == []
    requires cfg.docHash(n) == s.peer.hashes[0] != joiner.peer.hashes[0]
    requires Flush(cfg, s).docs == [Doc(n, content, cfg.docHash(n), 0)]
    ensures MigrateLabel(cfg, [s], joiner, 0) == ([Flush(cfg, s)], joiner)
  {
    hide Flush;
    var f, cut := Flush(cfg, s), CutAt(joiner.peer, 0, RingOf([s]), Place(0, 0));
    OnlyDocStays(f.cache, f.docs[0], cut);
    assert Next(RingOf([s]), joiner.peer.hashes[0]) == Place(0, 0);
    assert f.docs == [f.docs[0]] && Donor(f, cut) == f;
    assert [s][0 := f] == [f];
    assert joiner.(docs := [] + joiner.docs) == joiner;
  }

  lemma JoinSplits(cfg: Config, s: ServerState, other: nat, capacity: nat, n: CString, content: CString)
    requires !cfg.vnodes && other <= MAX_SERVERS && other != s.peer.id && capacity > 0
    requires |s.peer.hashes| == 1 && cfg.docHash(n) == s.peer.hashes[0] != cfg.serverHash(ReplicaLabel(other, 0))
    requires s.cache.capacity > 0 && s.docs == [] && s.tasks == [Task(n, content)] && s.cache.entries == []
    ensures Split(cfg, AddServer(cfg, [s], other, capacity), Flush(cfg, s), NewServer(cfg, other, capacity), n, content)
  {
    var joiner, f := NewServer(cfg, other, capacity), Flush(cfg, s);
    FirstEditRuns(cfg, s, n, content);
    FirstTurn(cfg, s, joiner, n, content);
    assert MigrateLabels(cfg, [s], joiner, 0) == ([s], joiner);
    assert MigrateLabels(cfg, [s], joiner, 1) == ([f], joiner);
    assert Reindexed([], joiner.peer.hashes) == [];
  }

  /** A later EDIT goes to the newcomer. */
  lemma SplitWrites(cfg: Config, all: Cluster, stayer: ServerState, joiner: ServerState, n: CString, v1: CString,
                    v2: CString)
    requires Split(cfg, all, stayer, joiner, n, v1)
    ensures AllWorking(all) && Owner(cfg, all, n) == 0
    ensures EditRequest(cfg, all, n, v2) == [joiner.(tasks := [Task(n, v2)]), stayer]
  {
    var h, ring := cfg.docHash(n), RingOf(all);
    var p, q := Place(0, 0), Place(1, 0);
    assert At(ring, p) && HashAt(ring, p) == joiner.peer.hashes[0];
    assert At(ring, q) && HashAt(ring, q) == h;
    assert Rank(h, HashAt(ring, p)) < Rank(h, HashAt(ring, q));
    assert Push(joiner, Task(n, v2)) == joiner.(tasks := [Task(n, v2)]);
  }

  lemma RehomeOne(rest: Cluster, hashes: seq<Word>, d: Doc)
    requires rest != [] && AllWorking(rest) && d.index < |hashes|
    ensures var p := Next(RingOf(rest), hashes[d.index]);
            Rehome(rest, hashes, [d]) == rest[p.server := Deliver(rest[p.server], d.(index := p.replica))]
  {
    assert [d][..0] == [];
    assert Rehome(rest, hashes, []) == rest;
  }

  lemma FirstOfTwoLeaves(cfg: Config, a: ServerState, b: ServerState)
    requires Working(a) && Working(b) && IndexesOk(Flush(cfg, a))
    ensures FindServer([a, b], a.peer.id) == 0
    ensures RemoveServer(cfg, [a, b], a.peer.id) == Rehome([b], a.peer.hashes, Flush(cfg, a).docs)
  {
    hide Flush, Rehome;
    assert Without([a, b], 0) == [b];
  }

  /** When the newcomer leaves again, its document joins the old one, which is still
      cached. */
  lemma SplitLeaves(cfg: Config, upd: Cluster, stayer: ServerState, asked: ServerState, n: CString, v1: CString,
                    v2: CString)
    requires upd == [asked, stayer] && Split(cfg, [asked.(tasks := []), stayer], stayer, asked.(tasks := []), n, v1)
    requires asked.tasks == [Task(n, v2)]
    ensures AllWorking(upd) && FindServer(upd, asked.peer.id) == 0 && IndexesOk(Flush(cfg, upd[0]))
    ensures RemoveServer(cfg, upd, asked.peer.id) ==
            [stayer.(docs := [Doc(n, v2, cfg.docHash(n), 0), Doc(n, v1, cfg.docHash(n), 0)])]
  {
    hide Flush, Rehome, Next, LocalNext, RemoveServer;
    FirstEditRuns(cfg, asked, n, v2);
    var d := Doc(n, v2, cfg.docHash(n), 0);
    FirstOfTwoLeaves(cfg, asked, stayer);
    RehomeToOnly(stayer, asked.peer.hashes, d);
    assert [d] + stayer.docs == [d, stayer.docs[0]];
  }

  lemma RehomeToOnly(s: ServerState, hashes: seq<Word>, d: Doc)
    requires Working(s) && |s.peer.hashes| == 1 && d.index < |hashes|
    ensures Rehome([s], hashes, [d]) == [s.(docs := [d.(index := 0)] + s.docs)]
  {
    hide Rehome;
    RehomeOne([s], hashes, d);
    assert Next(RingOf([s]), hashes[d.index]) == Place(0, 0);
    var r := Deliver(s, d.(index := 0));
    assert [s][0 := r] == [r];
  }

  /** A cached name is answered from the cache, whatever the database says. */
  lemma CacheAnswers(cfg: Config, s: ServerState, n: CString, content: CString)
    requires Working(s) && s.tasks == [] && s.cache.entries == [Lru.Entry(n, content)]
    ensures GetRequest(cfg, [s], n).1.reply == Text(content)
  {
    assert Owner(cfg, [s], n) == 0;
    assert Flush(cfg, s) == s;
  }

  /** With the hash functions of utils.c and no virtual nodes: "abtb" is on the only label
      of a ring where server 38121 is alone. */
  ghost predicate AbtbOnly(cfg: Config, id: nat, n: CString) {
    && (forall x :: cfg.serverHash(x) == HashUint(x))
    && (forall s :: cfg.docHash(s) == HashString(s))
    && !cfg.vnodes && id == 38121
    && |n| == 4 && n[0] == 97 && n[1] == 98 && n[2] == 116 && n[3] == 98
  }

  lemma AbtbFacts(cfg: Config, id: nat, n: CString)
    requires AbtbOnly(cfg, id, n)
    ensures GoodConfig(cfg) && LabelHashes(cfg, id) == [cfg.docHash(n)]
    ensures forall other: nat ::
              other <= MAX_SERVERS && other != id ==> cfg.serverHash(ReplicaLabel(other, 0)) != cfg.docHash(n)
  {
    hide HashUint, HashString;
    HashUintIsGood(cfg);
    NameAbtb(n[0], n[1], n[2]);
    Server38121Hash(id);
    assert n == [n[0], n[1], n[2], n[1]];
    assert ReplicaLabel(id, 0) == id && LabelHashes(cfg, id) == [cfg.serverHash(id)];
    forall other: nat | other <= MAX_SERVERS && other != id
      ensures cfg.serverHash(ReplicaLabel(other, 0)) != cfg.docHash(n)
    {
      HashUintInjective(other, id);
    }
  }

  lemma FirstWrite(cfg: Config, id: nat, capacity: nat, n: CString, content: CString)
    requires GoodConfig(cfg) && id <= MAX_SERVERS && capacity > 0
    ensures var run := [AddRequest(id, capacity), Write(n, content)];
            && Run(cfg, run) == Some([NewServer(cfg, id, capacity).(tasks := [Task(n, content)])])
            && Effective(cfg, run) == run
  {
    hide Run, Effective, GoodConfig, Inv;
    BurstQueues(cfg, id, capacity, [Task(n, content)]);
    assert Burst(id, capacity, [Task(n, content)]) == [AddRequest(id, capacity), Write(n, content)];
  }

  /** Server 38121 alone, the document "abtb" written, then any other server added: the
      document is not readable any more. */
  lemma AddHidesDocument(cfg: Config, n: CString, content: CString, id: nat, other: nat, capacity: nat)
    requires AbtbOnly(cfg, id, n) && capacity > 0 && other <= MAX_SERVERS && other != id
    ensures GoodConfig(cfg)
    ensures var run := [AddRequest(id, capacity), Write(n, content)];
            && Run(cfg, run).Some?
            && Read(cfg, Run(cfg, run).value, n) == Some(content)
            && NewId(Run(cfg, run).value, other)
            && AllWorking(AddServer(cfg, Run(cfg, run).value, other, capacity))
            && Read(cfg, AddServer(cfg, Run(cfg, run).value, other, capacity), n) == None
  {
    hide GoodConfig, LabelHashes, AddServer, Inv, Run, Effective;
    AbtbFacts(cfg, id, n);
    FirstWrite(cfg, id, capacity, n, content);
    var s := NewServer(cfg, id, capacity).(tasks := [Task(n, content)]);
    assert RingOf([s]) == [s.peer];
    AddReads(cfg, [s], other, capacity, n);
  }

  /** What the atomic map makes of the run below. */
  lemma ShadowAtomic(id: nat, other: nat, capacity: nat, n: CString, v1: CString, v2: CString)
    requires other != id
    ensures var run := [AddRequest(id, capacity), Write(n, v1), AddRequest(other, capacity), Write(n, v2),
                        RemoveRequest(other)];
            Atomic(run) == Store({id}, map[n := v2])
  {
    var a, b, c, d := AddRequest(id, capacity), Write(n, v1), AddRequest(other, capacity), Write(n, v2);
    AtomicAppend([], a);
    assert [] + [a] == [a] && [a] + [b] == [a, b] && [a, b] + [c] == [a, b, c] && [a, b, c] + [d] == [a, b, c, d];
    AtomicAppend([a], b);
    AtomicAppend([a, b], c);
    AtomicAppend([a, b, c], d);
    AtomicAppend([a, b, c, d], RemoveRequest(other));
    assert [a, b, c, d] + [RemoveRequest(other)] == [a, b, c, d, RemoveRequest(other)];
    assert {id} + {other} != {other} && {id} + {other} - {other} == {id} by {
      assert id in {id} + {other};
    }
  }

  /** The same goes on: "abtb" is written again, the other server is removed, and the
      document is asked for. The answer is the first content, although the second one is
      the latest one; the database of server 38121 holds the name twice. */
  lemma AddShadowsDocument(cfg: Config, n: CString, v1: CString, v2: CString, id: nat, other: nat, capacity: nat)
    requires AbtbOnly(cfg, id, n) && capacity > 0 && other <= MAX_SERVERS && other != id
    ensures GoodConfig(cfg)
    ensures var run := [AddRequest(id, capacity), Write(n, v1)];
            && Run(cfg, run).Some? && AllWorking(Run(cfg, run).value)
            && var all := AddServer(cfg, Run(cfg, run).value, other, capacity);
               && all != [] && AllWorking(all)
               && var upd := EditRequest(cfg, all, n, v2);
                  && AllWorking(upd) && FindServer(upd, other) < |upd|
                  && IndexesOk(Flush(cfg, upd[FindServer(upd, other)]))
                  && var back := RemoveServer(cfg, upd, other);
                     && |back| == 1 && AllWorking(back) && back[0].peer.id == id
                     && back[0].docs == [Doc(n, v2, cfg.docHash(n), 0), Doc(n, v1, cfg.docHash(n), 0)]
                     && GetRequest(cfg, back, n).1.reply == Text(v1)
    ensures var run := [AddRequest(id, capacity), Write(n, v1), AddRequest(other, capacity), Write(n, v2),
                        RemoveRequest(other)];
            Get(Atomic(run), n) == Some(v2)
  {
    hide GoodConfig, LabelHashes, AddServer, Inv, Run, Effective, EditRequest, RemoveServer, GetRequest, Flush;
    ShadowAtomic(id, other, capacity, n, v1, v2);
    AbtbFacts(cfg, id, n);
    FirstWrite(cfg, id, capacity, n, v1);
    var s := NewServer(cfg, id, capacity).(tasks := [Task(n, v1)]);
    var stayer, joiner := Flush(cfg, s), NewServer(cfg, other, capacity);
    JoinSplits(cfg, s, other, capacity, n, v1);
    SplitWrites(cfg, [joiner, stayer], stayer, joiner, n, v1, v2);
    var asked := joiner.(tasks := [Task(n, v2)]);
    assert asked.(tasks := []) == joiner;
    SplitLeaves(cfg, [asked, stayer], stayer, asked, n, v1, v2);
    CacheAnswers(cfg, stayer.(docs := [Doc(n, v2, cfg.docHash(n), 0), Doc(n, v1, cfg.docHash(n), 0)]), n, v1);
  }
}
