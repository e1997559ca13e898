/** Proofs about ADD_SERVER: exactly the documents whose owner changes move, nothing
    becomes unreadable, except under a hash that is that of the only label of the ring. */
module Migration {
  import opened Wrappers
  import opened Hashing
  import opened Ring
  import opened ServerModel
  import opened ClusterModel
  import Lru = LruModel

  // One donor ------------------------------------------------------------------

  lemma {:induction false} StayingMembers(docs: seq<Doc>, cut: Cut)
    ensures forall d :: d in Staying(docs, cut) <==> d in docs && !cut.Leaves(d)
    ensures NamesDistinct(docs) ==> NamesDistinct(Staying(docs, cut))
  {
    if docs != [] {
      var init, last := docs[..|docs| - 1], docs[|docs| - 1];
      assert docs == init + [last];
      StayingMembers(init, cut);
      if NamesDistinct(docs) {
        forall d | d in Staying(init, cut)
          ensures d.name != last.name
        {
          var i :| 0 <= i < |init| && init[i] == d;
        }
      }
    }
  }

  lemma {:induction false} HandedMembers(docs: seq<Doc>, cut: Cut)
    ensures forall d :: d in docs && cut.Leaves(d) ==> d.(index := cut.replica) in Handed(docs, cut)
    ensures forall e :: e in Handed(docs, cut) ==>
              exists d :: d in docs && cut.Leaves(d) && e == d.(index := cut.replica)
    ensures NamesDistinct(docs) ==> NamesDistinct(Handed(docs, cut))
  {
    if docs != [] {
      var init, last := docs[..|docs| - 1], docs[|docs| - 1];
      assert docs == init + [last];
      HandedMembers(init, cut);
      if NamesDistinct(docs) {
        forall e | e in Handed(init, cut)
          ensures e.name != last.name
        {
          var d :| d in init && cut.Leaves(d) && e == d.(index := cut.replica);
          var i :| 0 <= i < |init| && init[i] == d;
        }
      }
    }
  }

  lemma {:induction false} CacheAfterMembers(c: Cache, docs: seq<Doc>, cut: Cut)
    requires Lru.Ok(c)
    ensures Lru.Ok(CacheAfter(c, docs, cut))
    ensures forall e :: e in CacheAfter(c, docs, cut).entries <==>
                        e in c.entries && !exists d :: d in docs && cut.Leaves(d) && d.name == e.key
  {
    if docs != [] {
      var init, last := docs[..|docs| - 1], docs[|docs| - 1];
      assert docs == init + [last];
      CacheAfterMembers(c, init, cut);
      var before := CacheAfter(c, init, cut);
      if cut.Leaves(last) {
        Lru.DropKeyKeys(before.entries, last.name);
        Lru.RemoveKeepsOk(before, last.name);
      }
    }
  }

  /** Looking a name up after the split: it is found on one side only. */
  lemma SplitLookup(docs: seq<Doc>, cut: Cut, n: CString)
    requires NamesDistinct(docs)
    ensures var i := FindDoc(docs, n);
            var left := i < |docs| && cut.Leaves(docs[i]);
            && Lookup(Staying(docs, cut), n) == (if left then None else Lookup(docs, n))
            && Lookup(Handed(docs, cut), n) == (if left then Lookup(docs, n) else None)
  {
    StayingMembers(docs, cut);
    HandedMembers(docs, cut);
    LookupNone(docs, n);
    LookupNone(Staying(docs, cut), n);
    LookupNone(Handed(docs, cut), n);
    var i := FindDoc(docs, n);
    if i < |docs| {
      var d := docs[i];
      assert d in docs;
      forall e | e in docs && e.name == n
        ensures e == d
      {
        LookupDoc(docs, e);
      }
      if cut.Leaves(d) {
        LookupDoc(Handed(docs, cut), d.(index := cut.replica));
      } else {
        LookupDoc(Staying(docs, cut), d);
      }
    }
  }

  lemma DonorSound(s: ServerState, cut: Cut)
    requires Sound(s)
    ensures Sound(Donor(s, cut))
  {
    StayingMembers(s.docs, cut);
    CacheAfterMembers(s.cache, s.docs, cut);
    var t := Donor(s, cut);
    forall e | e in t.cache.entries
      ensures Lookup(t.docs, e.key) == Some(e.value)
    {
      SplitLookup(s.docs, cut, e.key);
      var i := FindDoc(s.docs, e.key);
      assert s.docs[i] in s.docs;
    }
  }

  // The turns of the loop ------------------------------------------------------

  /** One of the first k labels of the joining server takes hash h from its owner. */
  ghost predicate Taken(ring: seq<Peer>, h: Word, labels: seq<Word>, k: nat)
    requires Live(ring) && k <= |labels|
  {
    Captured(ring, h, labels, k) && !OnlyLabelAt(ring, h)
  }

  ghost predicate DocOk(cfg: Config, d: Doc) {
    d.hash == cfg.docHash(d.name)
  }

  /** The state of the system and of the joining server after k turns, against the
      state ss0 before the first one: every document whose owner one of the k labels
      takes is on the joining server, the others are where they were. */
  ghost predicate MidInv(cfg: Config, ss0: Cluster, ss: Cluster, joiner: ServerState, k: nat)
    requires ss0 != [] && Inv(cfg, ss0) && AllWorking(ss) && k <= |joiner.peer.hashes|
  {
    var ring, labels := RingOf(ss0), joiner.peer.hashes;
    && RingOf(ss) == ring
    && (forall i :: 0 <= i < |ss| ==> Sound(ss[i]) && Placed(cfg, ring, i, ss[i]))
    && (forall i, d :: 0 <= i < |ss| && d in ss[i].docs ==> !Taken(ring, d.hash, labels, k))
    && (forall i, t :: 0 <= i < |ss| && t in ss[i].tasks ==>
          !Captured(ring, cfg.docHash(t.name), labels, k))
    && NamesDistinct(joiner.docs) && joiner.tasks == []
    && (forall d :: d in joiner.docs ==> DocOk(cfg, d) && Taken(ring, d.hash, labels, k))
    && (forall n :: MidRead(cfg, ss0, ss, joiner, k, n))
  }

  ghost predicate MidRead(cfg: Config, ss0: Cluster, ss: Cluster, joiner: ServerState, k: nat, n: CString)
    requires ss0 != [] && AllWorking(ss0) && AllWorking(ss) && RingOf(ss) == RingOf(ss0)
    requires k <= |joiner.peer.hashes|
  {
    if Taken(RingOf(ss0), cfg.docHash(n), joiner.peer.hashes, k)
    then Lookup(joiner.docs, n) == Read(cfg, ss0, n)
    else Read(cfg, ss, n) == Read(cfg, ss0, n)
  }

  /** The captured hash and the capturing label have the same owner, so its server is
      flushed before documents move. */
  lemma CaptureOwner(ring: seq<Peer>, h: Word, L: Word)
    requires Live(ring) && DistinctHashes(ring) && Captures(ring, h, L)
    requires forall q :: At(ring, q) ==> HashAt(ring, q) != L
    ensures Next(ring, h) == Next(ring, L)
  {
    MovesIffCaptured(ring, h, L, 0);
    if OnlyLabelAt(ring, h) {
      assert Next(ring, h).server == 0 && Next(ring, L).server == 0;
    }
  }

  ghost predicate FreshLabels(ring: seq<Peer>, labels: seq<Word>) {
    forall q, j :: At(ring, q) && 0 <= j < |labels| ==> HashAt(ring, q) != labels[j]
  }

  lemma CapturedStep(ring: seq<Peer>, h: Word, labels: seq<Word>, k: nat)
    requires Live(ring) && k < |labels|
    ensures Captured(ring, h, labels, k + 1) <==> Captured(ring, h, labels, k) || Captures(ring, h, labels[k])
  {
    if Captures(ring, h, labels[k]) {
      assert 0 <= k < k + 1;
    }
  }

  /** For a document placed by the ring, the test of the code is that the label takes
      its hash. */
  lemma LeavesIffTaken(cfg: Config, ring: seq<Peer>, joiner: Peer, r: nat, i: nat, d: Doc)
    requires Live(ring) && DistinctHashes(ring) && r < |joiner.hashes| && FreshLabels(ring, joiner.hashes)
    requires Next(ring, d.hash) == Place(i, d.index)
    ensures var p := Next(ring, joiner.hashes[r]);
            (i == p.server && CutAt(joiner, r, ring, p).Leaves(d)) <==>
            Captures(ring, d.hash, joiner.hashes[r]) && !OnlyLabelAt(ring, d.hash)
  {
    MovesIffCaptured(ring, d.hash, joiner.hashes[r], joiner.id);
  }

  lemma FlushNames(cfg: Config, s: ServerState, d: Doc)
    requires Sound(s) && d in Flush(cfg, s).docs
    ensures (exists t :: t in s.tasks && t.name == d.name) || (exists e :: e in s.docs && e.name == d.name)
  {
    FlushReads(cfg, s);
    LookupDoc(Flush(cfg, s).docs, d);
    LookupNone(s.docs, d.name);
    LastEditName(s.tasks, d.name);
  }

  lemma {:induction false} LastEditName(ts: seq<Task>, n: CString)
    ensures LastEdit(ts, n).Some? ==> exists t :: t in ts && t.name == n
  {
    if ts != [] && ts[|ts| - 1].name != n {
      LastEditName(ts[..|ts| - 1], n);
    }
  }

  lemma LookupConcat(a: seq<Doc>, b: seq<Doc>, n: CString)
    ensures Lookup(a + b, n) == if Lookup(a, n).Some? then Lookup(a, n) else Lookup(b, n)
  {
    var all := a + b;
    var i, j, k := FindDoc(a, n), FindDoc(b, n), FindDoc(all, n);
    assert i < |a| ==> all[i].name == n;
    assert k < |a| ==> a[k].name == n;
    assert j < |b| ==> all[|a| + j].name == n;
    assert |a| <= k < |all| ==> b[k - |a|].name == n;
  }

  /** What one turn needs to know of the situation before it. */
  ghost predicate Turn(cfg: Config, ss0: Cluster, ss: Cluster, joiner: ServerState, k: nat) {
    && ss0 != [] && Inv(cfg, ss0) && AllWorking(ss) && k < |joiner.peer.hashes|
    && DistinctHashes(RingOf(ss0)) && FreshLabels(RingOf(ss0), joiner.peer.hashes)
    && MidInv(cfg, ss0, ss, joiner, k)
  }

  /** The donor of turn k after its flush, and the cut applied to it. */
  ghost function Flushed(cfg: Config, ss: Cluster, joiner: ServerState, k: nat): ServerState
    requires ss != [] && AllWorking(ss) && k < |joiner.peer.hashes|
  {
    Flush(cfg, ss[Next(RingOf(ss), joiner.peer.hashes[k]).server])
  }

  ghost function CutOf(ss: Cluster, joiner: ServerState, k: nat): Cut
    requires ss != [] && AllWorking(ss) && k < |joiner.peer.hashes|
  {
    CutAt(joiner.peer, k, RingOf(ss), Next(RingOf(ss), joiner.peer.hashes[k]))
  }

  lemma FlushedFacts(cfg: Config, ss0: Cluster, ss: Cluster, joiner: ServerState, k: nat)
    requires Turn(cfg, ss0, ss, joiner, k)
    ensures var f, i := Flushed(cfg, ss, joiner, k), Next(RingOf(ss), joiner.peer.hashes[k]).server;
            && Sound(f) && Placed(cfg, RingOf(ss0), i, f)
            && (forall n :: Lookup(f.docs, n) == ReadAt(ss[i], n))
            && (forall d :: d in f.docs ==> !Taken(RingOf(ss0), d.hash, joiner.peer.hashes, k))
  {
    var ring, labels := RingOf(ss), joiner.peer.hashes;
    var i := Next(ring, labels[k]).server;
    var f := Flushed(cfg, ss, joiner, k);
    FlushReads(cfg, ss[i]);
    FlushKeepsPlaced(cfg, ring, i, ss[i]);
    forall d | d in f.docs
      ensures !Taken(ring, d.hash, labels, k)
    {
      FlushNames(cfg, ss[i], d);
    }
  }

  /** A document of the donor leaves exactly when label k takes its hash. */
  lemma FlushedLeaves(cfg: Config, ss0: Cluster, ss: Cluster, joiner: ServerState, k: nat, d: Doc)
    requires Turn(cfg, ss0, ss, joiner, k) && d in Flushed(cfg, ss, joiner, k).docs
    ensures CutOf(ss, joiner, k).Leaves(d) <==> Taken(RingOf(ss0), d.hash, joiner.peer.hashes, k + 1)
  {
    var ring, labels := RingOf(ss0), joiner.peer.hashes;
    var i := Next(ring, labels[k]).server;
    FlushedFacts(cfg, ss0, ss, joiner, k);
    LeavesIffTaken(cfg, ring, joiner.peer, k, i, d);
    CapturedStep(ring, d.hash, labels, k);
  }

  lemma TurnServers(cfg: Config, ss0: Cluster, ss: Cluster, joiner: ServerState, k: nat)
    requires Turn(cfg, ss0, ss, joiner, k)
    ensures var ss', ring, labels := MigrateLabel(cfg, ss, joiner, k).0, RingOf(ss0), joiner.peer.hashes;
            && (forall i :: 0 <= i < |ss'| ==> Sound(ss'[i]) && Placed(cfg, ring, i, ss'[i]))
            && (forall i, d :: 0 <= i < |ss'| && d in ss'[i].docs ==> !Taken(ring, d.hash, labels, k + 1))
            && (forall i, t :: 0 <= i < |ss'| && t in ss'[i].tasks ==>
                  !Captured(ring, cfg.docHash(t.name), labels, k + 1))
  {
    var ring, labels := RingOf(ss0), joiner.peer.hashes;
    var ss' := MigrateLabel(cfg, ss, joiner, k).0;
    var p := Next(ring, labels[k]);
    var f, cut := Flushed(cfg, ss, joiner, k), CutOf(ss, joiner, k);
    FlushedFacts(cfg, ss0, ss, joiner, k);
    DonorSound(f, cut);
    StayingMembers(f.docs, cut);
    assert ss' == ss[p.server := Donor(f, cut)];
    forall i, d | 0 <= i < |ss'| && d in ss'[i].docs
      ensures !Taken(ring, d.hash, labels, k + 1)
    {
      if i == p.server {
        FlushedLeaves(cfg, ss0, ss, joiner, k, d);
      } else {
        LeavesIffTaken(cfg, ring, joiner.peer, k, i, d);
        CapturedStep(ring, d.hash, labels, k);
      }
    }
    forall i, t | 0 <= i < |ss'| && t in ss'[i].tasks
      ensures !Captured(ring, cfg.docHash(t.name), labels, k + 1)
    {
      var h := cfg.docHash(t.name);
      CapturedStep(ring, h, labels, k);
      if Captures(ring, h, labels[k]) {
        CaptureOwner(ring, h, labels[k]);
      }
    }
  }

  lemma TurnJoiner(cfg: Config, ss0: Cluster, ss: Cluster, joiner: ServerState, k: nat)
    requires Turn(cfg, ss0, ss, joiner, k)
    ensures var joiner' := MigrateLabel(cfg, ss, joiner, k).1;
            && NamesDistinct(joiner'.docs)
            && forall d :: d in joiner'.docs ==> DocOk(cfg, d) && Taken(RingOf(ss0), d.hash, joiner.peer.hashes, k + 1)
  {
    var ring, labels := RingOf(ss0), joiner.peer.hashes;
    var f, cut := Flushed(cfg, ss, joiner, k), CutOf(ss, joiner, k);
    var handed := Handed(f.docs, cut);
    FlushedFacts(cfg, ss0, ss, joiner, k);
    HandedMembers(f.docs, cut);
    forall e | e in handed
      ensures DocOk(cfg, e) && Taken(ring, e.hash, labels, k + 1) && !Taken(ring, e.hash, labels, k)
    {
      var d :| d in f.docs && cut.Leaves(d) && e == d.(index := cut.replica);
      FlushedLeaves(cfg, ss0, ss, joiner, k, d);
    }
    forall d | d in joiner.docs
      ensures Taken(ring, d.hash, labels, k + 1)
    {
      CapturedStep(ring, d.hash, labels, k);
    }
    DistinctConcat(handed, joiner.docs);
  }

  lemma DistinctConcat(a: seq<Doc>, b: seq<Doc>)
    requires NamesDistinct(a) && NamesDistinct(b)
    requires forall d, e :: d in a && e in b ==> d.name != e.name
    ensures NamesDistinct(a + b)
  {
  }

  /** Where the donor's documents read after the turn. */
  lemma TurnSplit(cfg: Config, ss0: Cluster, ss: Cluster, joiner: ServerState, k: nat, n: CString)
    requires Turn(cfg, ss0, ss, joiner, k)
    ensures var ring, h := RingOf(ss0), cfg.docHash(n);
            var f, cut := Flushed(cfg, ss, joiner, k), CutOf(ss, joiner, k);
            var taken := Taken(ring, h, joiner.peer.hashes, k + 1);
            && Lookup(Staying(f.docs, cut), n) == (if taken then None else Lookup(f.docs, n))
            && Lookup(Handed(f.docs, cut), n) == (if taken then Lookup(f.docs, n) else None)
            && Lookup(f.docs, n) == ReadAt(ss[Next(ring, joiner.peer.hashes[k]).server], n)
  {
    var f, cut := Flushed(cfg, ss, joiner, k), CutOf(ss, joiner, k);
    FlushedFacts(cfg, ss0, ss, joiner, k);
    SplitLookup(f.docs, cut, n);
    var i := FindDoc(f.docs, n);
    if i < |f.docs| {
      assert f.docs[i] in f.docs;
      FlushedLeaves(cfg, ss0, ss, joiner, k, f.docs[i]);
    }
  }

  lemma TurnReads(cfg: Config, ss0: Cluster, ss: Cluster, joiner: ServerState, k: nat, n: CString)
    requires Turn(cfg, ss0, ss, joiner, k)
    ensures var (ss', joiner') := MigrateLabel(cfg, ss, joiner, k);
            MidRead(cfg, ss0, ss', joiner', k + 1, n)
  {
    var ring, labels, h := RingOf(ss0), joiner.peer.hashes, cfg.docHash(n);
    var p, o := Next(ring, labels[k]), Next(ring, h);
    var f, cut := Flushed(cfg, ss, joiner, k), CutOf(ss, joiner, k);
    assert MidRead(cfg, ss0, ss, joiner, k, n);
    TurnSplit(cfg, ss0, ss, joiner, k, n);
    LookupConcat(Handed(f.docs, cut), joiner.docs, n);
    CapturedStep(ring, h, labels, k);
    if Taken(ring, h, labels, k) {
      NothingHanded(cfg, ss0, ss, joiner, k, n);
    } else {
      LookupNone(joiner.docs, n);
      if Captures(ring, h, labels[k]) {
        CaptureOwner(ring, h, labels[k]);
      }
    }
  }

  lemma NothingHanded(cfg: Config, ss0: Cluster, ss: Cluster, joiner: ServerState, k: nat, n: CString)
    requires Turn(cfg, ss0, ss, joiner, k)
    requires Taken(RingOf(ss0), cfg.docHash(n), joiner.peer.hashes, k)
    ensures Lookup(Handed(Flushed(cfg, ss, joiner, k).docs, CutOf(ss, joiner, k)), n) == None
  {
    var docs, cut := Flushed(cfg, ss, joiner, k).docs, CutOf(ss, joiner, k);
    FlushedFacts(cfg, ss0, ss, joiner, k);
    HandedMembers(docs, cut);
    LookupNone(Handed(docs, cut), n);
  }

  lemma TurnKeepsMidInv(cfg: Config, ss0: Cluster, ss: Cluster, joiner: ServerState, k: nat)
    requires Turn(cfg, ss0, ss, joiner, k)
    ensures var (ss', joiner') := MigrateLabel(cfg, ss, joiner, k);
            MidInv(cfg, ss0, ss', joiner', k + 1)
  {
    var (ss', joiner') := MigrateLabel(cfg, ss, joiner, k);
    TurnServers(cfg, ss0, ss, joiner, k);
    TurnJoiner(cfg, ss0, ss, joiner, k);
    var next := k + 1;
    forall n
      ensures MidRead(cfg, ss0, ss', joiner', next, n)
    {
      TurnReads(cfg, ss0, ss, joiner, k, n);
    }
  }

  lemma StartMidInv(cfg: Config, ss: Cluster, joiner: ServerState)
    requires ss != [] && Inv(cfg, ss)
    requires joiner.docs == [] && joiner.tasks == []
    ensures MidInv(cfg, ss, ss, joiner, 0)
  {
  }

  lemma {:induction false} TurnsKeepMidInv(cfg: Config, ss: Cluster, joiner: ServerState, k: nat)
    requires ss != [] && Inv(cfg, ss) && k <= |joiner.peer.hashes|
    requires DistinctHashes(RingOf(ss)) && FreshLabels(RingOf(ss), joiner.peer.hashes)
    requires joiner.docs == [] && joiner.tasks == []
    ensures var (ss', joiner') := MigrateLabels(cfg, ss, joiner, k);
            MidInv(cfg, ss, ss', joiner', k)
  {
    if k == 0 {
      StartMidInv(cfg, ss, joiner);
    } else {
      TurnsKeepMidInv(cfg, ss, joiner, k - 1);
      var (ss', joiner') := MigrateLabels(cfg, ss, joiner, k - 1);
      assert Turn(cfg, ss, ss', joiner', k - 1);
      TurnKeepsMidInv(cfg, ss, ss', joiner', k - 1);
    }
  }

  // The whole of ADD_SERVER ----------------------------------------------------

  ghost predicate NewId(ss: Cluster, id: nat) {
    id <= MAX_SERVERS && forall i :: 0 <= i < |ss| ==> ss[i].peer.id != id
  }

  lemma JoinedRing(cfg: Config, ss: Cluster, id: nat, capacity: nat)
    requires GoodConfig(cfg) && Inv(cfg, ss) && NewId(ss, id)
    ensures var peer := NewServer(cfg, id, capacity).peer;
            && RingOf(AddServer(cfg, ss, id, capacity)) == [peer] + RingOf(ss)
            && RingOk(cfg, [peer] + RingOf(ss)) && Live([peer] + RingOf(ss))
            && DistinctHashes([peer] + RingOf(ss)) && DistinctHashes(RingOf(ss))
            && FreshLabels(RingOf(ss), peer.hashes)
  {
    hide MigrateLabel, LabelHashes, Placed, DistinctHashes;
    var peer := NewServer(cfg, id, capacity).peer;
    assert RingOk(cfg, [peer] + RingOf(ss));
    RingIsDistinct(cfg, [peer] + RingOf(ss));
    DistinctTail(peer, RingOf(ss));
    NewRing(cfg, ss, id, capacity);
  }

  lemma NewRing(cfg: Config, ss: Cluster, id: nat, capacity: nat)
    requires AllWorking(ss) && id <= MAX_SERVERS
    ensures RingOf(AddServer(cfg, ss, id, capacity)) == [NewServer(cfg, id, capacity).peer] + RingOf(ss)
  {
    hide MigrateLabel;
  }

  lemma ReindexedMembers(docs: seq<Doc>, hashes: seq<Word>, n: CString)
    requires |hashes| > 0
    ensures Lookup(Reindexed(docs, hashes), n) == Lookup(docs, n)
    ensures NamesDistinct(docs) ==> NamesDistinct(Reindexed(docs, hashes))
  {
    FindByNames(docs, Reindexed(docs, hashes), n);
  }

  /** Some document is stored, or waits in a queue to be stored, under a name whose
      hash is that of the only label of the ring: what a caller can look for before an
      ADD_SERVER. */
  ghost predicate OnOnlyLabel(cfg: Config, ss: Cluster) {
    |ss| == 1 && |ss[0].peer.hashes| == 1 &&
    ((exists d :: d in ss[0].docs && d.hash == ss[0].peer.hashes[0]) ||
     (exists t :: t in ss[0].tasks && cfg.docHash(t.name) == ss[0].peer.hashes[0]))
  }

  /** A hash on the only label changes owner whoever joins. */
  lemma OnlyLabelIsCaptured(ring: seq<Peer>, h: Word, labels: seq<Word>)
    requires Live(ring) && OnlyLabelAt(ring, h) && |labels| > 0 && FreshLabels(ring, labels)
    ensures Captured(ring, h, labels, |labels|)
  {
    var p := Place(0, 0);
    assert At(ring, p) && HashAt(ring, p) != labels[0];
    assert Next(ring, h) == p;
    assert Captures(ring, h, labels[0]);
  }

  /** The joining server as the last loop leaves it. */
  ghost function Newcomer(joiner: ServerState): ServerState
    requires |joiner.peer.hashes| > 0
  {
    joiner.(docs := Reindexed(joiner.docs, joiner.peer.hashes))
  }

  /** The situation after the last turn. */
  ghost predicate Joined(cfg: Config, ss: Cluster, ss': Cluster, joiner: ServerState) {
    && ss != [] && Inv(cfg, ss) && AllWorking(ss') && Working(joiner)
    && RingOk(cfg, [joiner.peer] + RingOf(ss)) && Live([joiner.peer] + RingOf(ss))
    && DistinctHashes([joiner.peer] + RingOf(ss))
    && FreshLabels(RingOf(ss), joiner.peer.hashes)
    && joiner.cache.entries == []
    && MidInv(cfg, ss, ss', joiner, |joiner.peer.hashes|)
  }

  lemma AddIsJoined(cfg: Config, ss: Cluster, id: nat, capacity: nat)
    requires GoodConfig(cfg) && Inv(cfg, ss) && NewId(ss, id) && capacity > 0 && ss != []
    ensures var (ss', joiner) := MigrateLabels(cfg, ss, NewServer(cfg, id, capacity), Replicas(cfg));
            Joined(cfg, ss, ss', joiner) && AddServer(cfg, ss, id, capacity) == [Newcomer(joiner)] + ss'
  {
    JoinedRing(cfg, ss, id, capacity);
    TurnsKeepMidInv(cfg, ss, NewServer(cfg, id, capacity), Replicas(cfg));
  }

  lemma JoinedOwner(cfg: Config, ss: Cluster, ss': Cluster, joiner: ServerState, n: CString)
    requires Joined(cfg, ss, ss', joiner)
    ensures RingOf([Newcomer(joiner)] + ss') == [joiner.peer] + RingOf(ss)
    ensures AllWorking([Newcomer(joiner)] + ss')
    ensures Owner(cfg, [Newcomer(joiner)] + ss', n) ==
            if Captured(RingOf(ss), cfg.docHash(n), joiner.peer.hashes, |joiner.peer.hashes|) then 0
            else Owner(cfg, ss, n) + 1
  {
    assert RingOf([Newcomer(joiner)] + ss') == [joiner.peer] + RingOf(ss);
    NextAfterJoin(RingOf(ss), joiner.peer, cfg.docHash(n));
  }

  lemma NewcomerReads(cfg: Config, ss: Cluster, ss': Cluster, joiner: ServerState, n: CString)
    requires Joined(cfg, ss, ss', joiner)
    ensures ReadAt(Newcomer(joiner), n) == Lookup(joiner.docs, n)
    ensures OnlyLabelAt(RingOf(ss), cfg.docHash(n)) ==> Lookup(joiner.docs, n) == None
  {
    ReindexedMembers(joiner.docs, joiner.peer.hashes, n);
    LookupNone(joiner.docs, n);
  }

  lemma JoinedMidRead(cfg: Config, ss: Cluster, ss': Cluster, joiner: ServerState, n: CString)
    requires Joined(cfg, ss, ss', joiner)
    ensures RingOf(ss') == RingOf(ss) && MidRead(cfg, ss, ss', joiner, |joiner.peer.hashes|, n)
  {
  }

  lemma JoinedReads(cfg: Config, ss: Cluster, ss': Cluster, joiner: ServerState, n: CString)
    requires Joined(cfg, ss, ss', joiner)
    ensures AllWorking([Newcomer(joiner)] + ss')
    ensures Read(cfg, [Newcomer(joiner)] + ss', n) ==
            if OnlyLabelAt(RingOf(ss), cfg.docHash(n)) then None else Read(cfg, ss, n)
  {
    hide MidInv, RingOk, FreshLabels, DistinctHashes, Next, ReadAt, NewServer;
    var labels, h := joiner.peer.hashes, cfg.docHash(n);
    JoinedMidRead(cfg, ss, ss', joiner, n);
    JoinedOwner(cfg, ss, ss', joiner, n);
    NewcomerReads(cfg, ss, ss', joiner, n);
    if OnlyLabelAt(RingOf(ss), h) {
      OnlyLabelIsCaptured(RingOf(ss), h, labels);
    }
  }

  lemma AddToEmpty(cfg: Config, id: nat, capacity: nat)
    requires GoodConfig(cfg) && id <= MAX_SERVERS && capacity > 0
    ensures AddServer(cfg, [], id, capacity) == [NewServer(cfg, id, capacity)]
    ensures Inv(cfg, [NewServer(cfg, id, capacity)])
    ensures forall n :: Read(cfg, [NewServer(cfg, id, capacity)], n) == None
  {
    var s := NewServer(cfg, id, capacity);
    NothingToMigrate(cfg, s, Replicas(cfg));
    assert Reindexed([], s.peer.hashes) == [];
    RingIsDistinct(cfg, [s.peer]);
    assert RingOf([s]) == [s.peer];
  }

  lemma {:induction false} NothingToMigrate(cfg: Config, s: ServerState, k: nat)
    requires k <= |s.peer.hashes|
    ensures MigrateLabels(cfg, [], s, k) == ([], s)
  {
    if k > 0 {
      NothingToMigrate(cfg, s, k - 1);
    }
  }

  /** What every name reads as after ADD_SERVER: what it read as before, except that a
      name on the only label of the ring reads as nothing. */
  lemma AddReads(cfg: Config, ss: Cluster, id: nat, capacity: nat, n: CString)
    requires GoodConfig(cfg) && Inv(cfg, ss) && NewId(ss, id) && capacity > 0
    ensures AllWorking(AddServer(cfg, ss, id, capacity))
    ensures Read(cfg, AddServer(cfg, ss, id, capacity), n) ==
            if OnlyLabelAt(RingOf(ss), cfg.docHash(n)) then None else Read(cfg, ss, n)
  {
    var all := AddServer(cfg, ss, id, capacity);
    if ss == [] {
      AddToEmpty(cfg, id, capacity);
      assert Read(cfg, all, n) == None;
    } else {
      AddIsJoined(cfg, ss, id, capacity);
      var (ss', joiner) := MigrateLabels(cfg, ss, NewServer(cfg, id, capacity), Replicas(cfg));
      JoinedReads(cfg, ss, ss', joiner, n);
      assert all == [Newcomer(joiner)] + ss';
    }
  }

  lemma NewcomerOk(cfg: Config, ss: Cluster, ss': Cluster, joiner: ServerState)
    requires Joined(cfg, ss, ss', joiner)
    ensures Sound(Newcomer(joiner))
    ensures Placed(cfg, [joiner.peer] + RingOf(ss), 0, Newcomer(joiner))
  {
    hide Next, Captured, RingOk, DistinctHashes, FreshLabels;
    var all, s := [joiner.peer] + RingOf(ss), Newcomer(joiner);
    ReindexedMembers(joiner.docs, joiner.peer.hashes, []);
    assert NamesDistinct(s.docs) && s.cache == joiner.cache && s.tasks == [];
    forall d | d in s.docs
      ensures d.hash == cfg.docHash(d.name) && Next(all, d.hash) == Place(0, d.index)
    {
      var i :| 0 <= i < |s.docs| && s.docs[i] == d;
      NewcomerDoc(cfg, ss, ss', joiner, joiner.docs[i]);
    }
  }

  /** The label that the last loop gives a document is the one that the ring gives it. */
  lemma NewcomerDoc(cfg: Config, ss: Cluster, ss': Cluster, joiner: ServerState, d: Doc)
    requires Joined(cfg, ss, ss', joiner) && d in joiner.docs
    ensures DocOk(cfg, d)
    ensures Next([joiner.peer] + RingOf(ss), d.hash) == Place(0, LocalNext(joiner.peer.hashes, d.hash))
  {
    hide Next, RingOk, LocalNext;
    NextAfterJoin(RingOf(ss), joiner.peer, d.hash);
    LocalAgreesWithRing([joiner.peer] + RingOf(ss), d.hash);
  }

  /** A server that stays is still well placed once the newcomer stands before it,
      unless one of its documents sits on the only label. */
  lemma StayerPlaced(cfg: Config, ss: Cluster, ss': Cluster, joiner: ServerState, i: nat)
    requires Joined(cfg, ss, ss', joiner) && i < |ss'|
    ensures Placed(cfg, [joiner.peer] + RingOf(ss), i + 1, ss'[i]) <==>
            forall d :: d in ss'[i].docs ==> !OnlyLabelAt(RingOf(ss), d.hash)
  {
    var ring, all := RingOf(ss), [joiner.peer] + RingOf(ss);
    forall d | d in ss'[i].docs
      ensures Next(all, d.hash) == Place(i + 1, d.index) <==> !OnlyLabelAt(ring, d.hash)
    {
      NextAfterJoin(ring, joiner.peer, d.hash);
      if OnlyLabelAt(ring, d.hash) {
        OnlyLabelIsCaptured(ring, d.hash, joiner.peer.hashes);
      }
    }
    forall t | t in ss'[i].tasks
      ensures Next(all, cfg.docHash(t.name)).server == i + 1
    {
      NextAfterJoin(ring, joiner.peer, cfg.docHash(t.name));
    }
  }

  /** Documents and pending edits are what makes a name readable. */
  lemma ReadableIffHeld(s: ServerState, n: CString)
    ensures ReadAt(s, n).Some? <==>
            (exists d :: d in s.docs && d.name == n) || (exists t :: t in s.tasks && t.name == n)
  {
    LookupNone(s.docs, n);
    LastEditName(s.tasks, n);
    LastEditNone(s.tasks, n);
  }

  lemma {:induction false} LastEditNone(ts: seq<Task>, n: CString)
    ensures LastEdit(ts, n).None? ==> forall t :: t in ts ==> t.name != n
  {
    if ts != [] {
      assert ts == ts[..|ts| - 1] + [ts[|ts| - 1]];
      LastEditNone(ts[..|ts| - 1], n);
    }
  }

  lemma OnOnlyLabelReads(cfg: Config, ss: Cluster)
    requires Inv(cfg, ss)
    ensures OnOnlyLabel(cfg, ss) <==>
            exists n :: OnlyLabelAt(RingOf(ss), cfg.docHash(n)) && Read(cfg, ss, n).Some?
  {
    if OnOnlyLabel(cfg, ss) {
      var s := ss[0];
      var n: CString;
      if d :| d in s.docs && d.hash == s.peer.hashes[0] {
        n := d.name;
      } else {
        var t :| t in s.tasks && cfg.docHash(t.name) == s.peer.hashes[0];
        n := t.name;
      }
      ReadableIffHeld(s, n);
      assert OnlyLabelAt(RingOf(ss), cfg.docHash(n)) && Read(cfg, ss, n).Some?;
    }
    if n :| OnlyLabelAt(RingOf(ss), cfg.docHash(n)) && Read(cfg, ss, n).Some? {
      ReadableIffHeld(ss[0], n);
    }
  }

  /** ADD_SERVER keeps everything readable exactly when nothing is stored or pending on
      the only label of a single-label ring. */
  lemma AddKeepsReadsIff(cfg: Config, ss: Cluster, id: nat, capacity: nat)
    requires GoodConfig(cfg) && Inv(cfg, ss) && NewId(ss, id) && capacity > 0
    ensures AllWorking(AddServer(cfg, ss, id, capacity))
    ensures (forall n :: Read(cfg, AddServer(cfg, ss, id, capacity), n) == Read(cfg, ss, n)) <==> !OnOnlyLabel(cfg, ss)
  {
    hide AddServer, OnOnlyLabel, GoodConfig;
    OnOnlyLabelReads(cfg, ss);
    AddReads(cfg, ss, id, capacity, []);
    var all := AddServer(cfg, ss, id, capacity);
    if OnOnlyLabel(cfg, ss) {
      var n :| OnlyLabelAt(RingOf(ss), cfg.docHash(n)) && Read(cfg, ss, n).Some?;
      AddReads(cfg, ss, id, capacity, n);
      assert Read(cfg, all, n) != Read(cfg, ss, n);
    } else {
      forall n
        ensures Read(cfg, all, n) == Read(cfg, ss, n)
      {
        AddReads(cfg, ss, id, capacity, n);
        assert !(OnlyLabelAt(RingOf(ss), cfg.docHash(n)) && Read(cfg, ss, n).Some?);
      }
    }
  }

  /** What sat or waited on the only label is still on its old server. */
  lemma LeftOnOnlyLabel(cfg: Config, ss: Cluster, ss': Cluster, joiner: ServerState)
    requires Joined(cfg, ss, ss', joiner)
    ensures OnOnlyLabel(cfg, ss) <==>
            exists i, d :: 0 <= i < |ss'| && d in ss'[i].docs && OnlyLabelAt(RingOf(ss), d.hash)
  {
    var ring, labels := RingOf(ss), joiner.peer.hashes;
    OnOnlyLabelReads(cfg, ss);
    if n :| OnlyLabelAt(ring, cfg.docHash(n)) && Read(cfg, ss, n).Some? {
      assert MidRead(cfg, ss, ss', joiner, |labels|, n);
      OnlyLabelIsCaptured(ring, cfg.docHash(n), labels);
      ReadableIffHeld(ss'[0], n);
    }
    if i, d :| 0 <= i < |ss'| && d in ss'[i].docs && OnlyLabelAt(ring, d.hash) {
      assert MidRead(cfg, ss, ss', joiner, |labels|, d.name);
      ReadableIffHeld(ss'[i], d.name);
    }
  }

  lemma JoinedInvIff(cfg: Config, ss: Cluster, ss': Cluster, joiner: ServerState)
    requires Joined(cfg, ss, ss', joiner)
    ensures Inv(cfg, [Newcomer(joiner)] + ss') <==>
            forall i :: 0 <= i < |ss'| ==> Placed(cfg, [joiner.peer] + RingOf(ss), i + 1, ss'[i])
  {
    var all, ring := [Newcomer(joiner)] + ss', [joiner.peer] + RingOf(ss);
    NewcomerOk(cfg, ss, ss', joiner);
    assert RingOf(all) == ring;
    if Inv(cfg, all) {
      forall i | 0 <= i < |ss'|
        ensures Placed(cfg, ring, i + 1, ss'[i])
      {
        assert all[i + 1] == ss'[i];
      }
    }
  }

  /** The same condition decides whether every document is afterwards where the new
      ring puts it. */
  lemma AddKeepsInvIff(cfg: Config, ss: Cluster, id: nat, capacity: nat)
    requires GoodConfig(cfg) && Inv(cfg, ss) && NewId(ss, id) && capacity > 0
    ensures Inv(cfg, AddServer(cfg, ss, id, capacity)) <==> !OnOnlyLabel(cfg, ss)
  {
    if ss == [] {
      AddToEmpty(cfg, id, capacity);
    } else {
      AddIsJoined(cfg, ss, id, capacity);
      var (ss', joiner) := MigrateLabels(cfg, ss, NewServer(cfg, id, capacity), Replicas(cfg));
      JoinedInvIff(cfg, ss, ss', joiner);
      forall i | 0 <= i < |ss'|
        ensures Placed(cfg, [joiner.peer] + RingOf(ss), i + 1, ss'[i]) <==>
                forall d :: d in ss'[i].docs ==> !OnlyLabelAt(RingOf(ss), d.hash)
      {
        StayerPlaced(cfg, ss, ss', joiner, i);
      }
      LeftOnOnlyLabel(cfg, ss, ss', joiner);
    }
  }
}
