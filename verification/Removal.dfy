/** Proofs about REMOVE_SERVER: routing each document by its old label puts it where
    its own hash belongs, and nothing readable changes while a server remains. */
module Removal {
  import opened Wrappers
  import opened Hashing
  import opened Ring
  import opened ServerModel
  import opened ClusterModel
  import opened Migration

  lemma DeliverSound(s: ServerState, d: Doc)
    requires Sound(s) && ReadAt(s, d.name) == None
    ensures Sound(Deliver(s, d))
    ensures forall n :: ReadAt(Deliver(s, d), n) == if n == d.name then Some(d.content) else ReadAt(s, n)
  {
    ReadableIffHeld(s, d.name);
    LookupNone(s.docs, d.name);
    DistinctConcat([d], s.docs);
    forall n
      ensures Lookup([d] + s.docs, n) == if n == d.name then Some(d.content) else Lookup(s.docs, n)
    {
      LookupConcat([d], s.docs, n);
    }
    LastEditName(s.tasks, d.name);
  }

  /** A document delivered where the ring puts it, under a name that nobody holds. */
  lemma DeliverOk(cfg: Config, ss: Cluster, k: nat, d: Doc)
    requires Inv(cfg, ss) && k < |ss|
    requires d.hash == cfg.docHash(d.name) && Next(RingOf(ss), d.hash) == Place(k, d.index)
    requires Read(cfg, ss, d.name) == None
    ensures Inv(cfg, ss[k := Deliver(ss[k], d)])
    ensures forall n :: Read(cfg, ss[k := Deliver(ss[k], d)], n) ==
                        if n == d.name then Some(d.content) else Read(cfg, ss, n)
  {
    DeliverSound(ss[k], d);
    Replace(cfg, ss, k, Deliver(ss[k], d));
  }

  lemma LookupPrefix(docs: seq<Doc>, n: CString)
    requires docs != []
    ensures var init, last := docs[..|docs| - 1], docs[|docs| - 1];
            Lookup(docs, n) == if Lookup(init, n).Some? then Lookup(init, n)
                               else if last.name == n then Some(last.content) else None
  {
    var init, last := docs[..|docs| - 1], docs[|docs| - 1];
    assert docs == init + [last];
    LookupConcat(init, [last], n);
  }

  /** What may be rehomed: documents filed under labels of a server that is gone, each
      of which routes like its document, under names that nobody else holds. */
  ghost predicate Homeless(cfg: Config, rest: Cluster, hashes: seq<Word>, docs: seq<Doc>)
    requires Inv(cfg, rest) && rest != []
  {
    && NamesDistinct(docs)
    && forall d :: d in docs ==>
         && d.index < |hashes| && d.hash == cfg.docHash(d.name)
         && Next(RingOf(rest), hashes[d.index]) == Next(RingOf(rest), d.hash)
         && Read(cfg, rest, d.name) == None
  }

  /** After some documents are rehomed a name reads as the document of that name, if
      there is one, else as before. */
  ghost predicate Rehomed(cfg: Config, rest: Cluster, docs: seq<Doc>, after: Cluster, n: CString)
    requires AllWorking(rest) && AllWorking(after)
  {
    Read(cfg, after, n) == if Lookup(docs, n).Some? then Lookup(docs, n) else Read(cfg, rest, n)
  }

  lemma RehomeStep(cfg: Config, rest: Cluster, before: Cluster, init: seq<Doc>, d: Doc, p: Place)
    requires Inv(cfg, before) && AllWorking(rest) && before != []
    requires Lookup(init, d.name) == None && Read(cfg, rest, d.name) == None
    requires d.hash == cfg.docHash(d.name) && p == Next(RingOf(before), d.hash)
    requires forall n :: Rehomed(cfg, rest, init, before, n)
    ensures var after := before[p.server := Deliver(before[p.server], d.(index := p.replica))];
            Inv(cfg, after) && forall n :: Rehomed(cfg, rest, init + [d], after, n)
  {
    hide Next, Placed;
    assert Rehomed(cfg, rest, init, before, d.name);
    DeliverOk(cfg, before, p.server, d.(index := p.replica));
    var after := before[p.server := Deliver(before[p.server], d.(index := p.replica))];
    forall n
      ensures Rehomed(cfg, rest, init + [d], after, n)
    {
      assert Rehomed(cfg, rest, init, before, n);
      LookupConcat(init, [d], n);
    }
  }

  lemma HomelessPrefix(cfg: Config, rest: Cluster, hashes: seq<Word>, docs: seq<Doc>)
    requires Inv(cfg, rest) && rest != [] && Homeless(cfg, rest, hashes, docs) && docs != []
    ensures var init, d := docs[..|docs| - 1], docs[|docs| - 1];
            && docs == init + [d]
            && Homeless(cfg, rest, hashes, init) && Lookup(init, d.name) == None
            && d.index < |hashes| && d.hash == cfg.docHash(d.name) && Read(cfg, rest, d.name) == None
            && Next(RingOf(rest), hashes[d.index]) == Next(RingOf(rest), d.hash)
  {
    var init, d := docs[..|docs| - 1], docs[|docs| - 1];
    assert docs == init + [d] && d in docs;
    LookupNone(init, d.name);
  }

  lemma {:induction false} RehomeOk(cfg: Config, rest: Cluster, hashes: seq<Word>, docs: seq<Doc>)
    requires Inv(cfg, rest) && rest != [] && Homeless(cfg, rest, hashes, docs)
    ensures Inv(cfg, Rehome(rest, hashes, docs))
    ensures forall n :: Rehomed(cfg, rest, docs, Rehome(rest, hashes, docs), n)
  {
    hide Homeless, Next, Placed, Lookup;
    if docs == [] {
      assert Rehome(rest, hashes, docs) == rest;
      forall n
        ensures Lookup(docs, n) == None
      {
        LookupNone(docs, n);
      }
    } else {
      var init, d := docs[..|docs| - 1], docs[|docs| - 1];
      HomelessPrefix(cfg, rest, hashes, docs);
      RehomeOk(cfg, rest, hashes, init);
      RehomeStep(cfg, rest, Rehome(rest, hashes, init), init, d, Next(RingOf(rest), hashes[d.index]));
    }
  }

  lemma RingWithout(ss: Cluster, k: nat)
    requires k < |ss|
    ensures RingOf(Without(ss, k)) == Without(RingOf(ss), k)
  {
  }

  /** The servers that stay are well placed on the ring that remains, and hold none of
      the names of the server that leaves. */
  lemma RestOk(cfg: Config, ss: Cluster, k: nat)
    requires GoodConfig(cfg) && Inv(cfg, ss) && k < |ss| && |ss| > 1
    ensures Inv(cfg, Without(ss, k))
  {
    hide Next, DistinctHashes, GoodConfig;
    var ring, rest := RingOf(ss), Without(ss, k);
    RingWithout(ss, k);
    RingIsDistinct(cfg, ring);
    RingIsDistinct(cfg, Without(ring, k));
    forall i | 0 <= i < |rest|
      ensures Placed(cfg, Without(ring, k), i, rest[i])
    {
      var j := if i < k then i else i + 1;
      forall d | d in rest[i].docs
        ensures d.hash == cfg.docHash(d.name) && Next(Without(ring, k), d.hash) == Place(i, d.index)
      {
        assert d in ss[j].docs;
        NextAfterLeave(ring, k, d.hash);
      }
      forall t | t in rest[i].tasks
        ensures Next(Without(ring, k), cfg.docHash(t.name)).server == i
      {
        assert t in ss[j].tasks;
        NextAfterLeave(ring, k, cfg.docHash(t.name));
      }
    }
  }

  /** A name is held by its owner only. */
  lemma NotHeld(cfg: Config, ss: Cluster, j: nat, n: CString)
    requires Inv(cfg, ss) && j < |ss| && Owner(cfg, ss, n) != j
    ensures ReadAt(ss[j], n) == None
  {
    ReadableIffHeld(ss[j], n);
  }

  lemma RestOwner(cfg: Config, ss: Cluster, k: nat, n: CString)
    requires GoodConfig(cfg) && Inv(cfg, ss) && k < |ss| && |ss| > 1
    ensures AllWorking(Without(ss, k))
    ensures Owner(cfg, ss, n) != k ==> Lift(Place(Owner(cfg, Without(ss, k), n), 0), k).server == Owner(cfg, ss, n)
  {
    RingWithout(ss, k);
    RingIsDistinct(cfg, RingOf(ss));
    NextAfterLeave(RingOf(ss), k, cfg.docHash(n));
  }

  lemma RestReads(cfg: Config, ss: Cluster, k: nat, n: CString)
    requires GoodConfig(cfg) && Inv(cfg, ss) && k < |ss| && |ss| > 1
    ensures AllWorking(Without(ss, k))
    ensures Read(cfg, Without(ss, k), n) == if Owner(cfg, ss, n) == k then None else Read(cfg, ss, n)
  {
    RestOwner(cfg, ss, k, n);
    var j := Lift(Place(Owner(cfg, Without(ss, k), n), 0), k).server;
    if Owner(cfg, ss, n) == k {
      NotHeld(cfg, ss, j, n);
    }
  }

  lemma GoneIsHomeless(cfg: Config, ss: Cluster, k: nat)
    requires GoodConfig(cfg) && Inv(cfg, ss) && k < |ss| && |ss| > 1
    ensures Inv(cfg, Without(ss, k))
    ensures var gone := Flush(cfg, ss[k]);
            Sound(gone) && Homeless(cfg, Without(ss, k), gone.peer.hashes, gone.docs)
  {
    var ring, gone := RingOf(ss), Flush(cfg, ss[k]);
    RestOk(cfg, ss, k);
    RingWithout(ss, k);
    RingIsDistinct(cfg, ring);
    FlushReads(cfg, ss[k]);
    FlushKeepsPlaced(cfg, ring, k, ss[k]);
    forall d | d in gone.docs
      ensures d.index < |gone.peer.hashes|
      ensures Next(Without(ring, k), gone.peer.hashes[d.index]) == Next(Without(ring, k), d.hash)
      ensures Read(cfg, Without(ss, k), d.name) == None
    {
      NextAfterLeave(ring, k, d.hash);
      RestReads(cfg, ss, k, d.name);
    }
  }

  /** What RemoveServer needs to index the label hashes is part of the invariant. */
  lemma RemoveDefined(cfg: Config, ss: Cluster, k: nat)
    requires Inv(cfg, ss) && k < |ss|
    ensures IndexesOk(Flush(cfg, ss[k]))
  {
    FlushKeepsPlaced(cfg, RingOf(ss), k, ss[k]);
    var gone := Flush(cfg, ss[k]);
    forall i | 0 <= i < |gone.docs|
      ensures gone.docs[i].index < |gone.peer.hashes|
    {
      assert gone.docs[i] in gone.docs;
    }
  }

  lemma RemoveReads(cfg: Config, ss: Cluster, k: nat, n: CString)
    requires GoodConfig(cfg) && Inv(cfg, ss) && k < |ss| && |ss| > 1
    ensures var gone := Flush(cfg, ss[k]);
            && IndexesOk(gone)
            && Inv(cfg, Rehome(Without(ss, k), gone.peer.hashes, gone.docs))
            && Read(cfg, Rehome(Without(ss, k), gone.peer.hashes, gone.docs), n) == Read(cfg, ss, n)
  {
    var gone := Flush(cfg, ss[k]);
    RemoveDefined(cfg, ss, k);
    GoneIsHomeless(cfg, ss, k);
    RehomeOk(cfg, Without(ss, k), gone.peer.hashes, gone.docs);
    assert Rehomed(cfg, Without(ss, k), gone.docs, Rehome(Without(ss, k), gone.peer.hashes, gone.docs), n);
    RestReads(cfg, ss, k, n);
    FlushReads(cfg, ss[k]);
    FlushKeepsPlaced(cfg, RingOf(ss), k, ss[k]);
    LookupNone(gone.docs, n);
  }

  lemma RemoveOneReads(cfg: Config, ss: Cluster, id: nat, n: CString)
    requires GoodConfig(cfg) && Inv(cfg, ss) && |ss| > 1 && FindServer(ss, id) < |ss|
    ensures IndexesOk(Flush(cfg, ss[FindServer(ss, id)]))
    ensures Inv(cfg, RemoveServer(cfg, ss, id))
    ensures Read(cfg, RemoveServer(cfg, ss, id), n) == Read(cfg, ss, n)
  {
    RemoveReads(cfg, ss, FindServer(ss, id), n);
  }

  /** REMOVE_SERVER keeps the invariant; it keeps everything readable unless it takes
      the last server away, which empties the system. */
  lemma RemoveRefines(cfg: Config, ss: Cluster, id: nat, n: CString)
    requires GoodConfig(cfg) && Inv(cfg, ss)
    ensures var k := FindServer(ss, id); k < |ss| ==> IndexesOk(Flush(cfg, ss[k]))
    ensures Inv(cfg, RemoveServer(cfg, ss, id))
    ensures Read(cfg, RemoveServer(cfg, ss, id), n) ==
            if |ss| == 1 && ss[0].peer.id == id then None else Read(cfg, ss, n)
  {
    var k := FindServer(ss, id);
    if k < |ss| {
      RemoveDefined(cfg, ss, k);
      if |ss| > 1 {
        RemoveOneReads(cfg, ss, id, n);
      }
    }
  }
}
