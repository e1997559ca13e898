/** load_balancer.c: the load balancer object, proved against ClusterModel. */
module LoadBalancers {
  import opened Wrappers
  import opened Hashing
  import opened Ring
  import opened ServerModel
  import opened ClusterModel
  import opened LinkedLists
  import opened Servers
  import opened Membership
  import Lru = LruModel

  // Moving documents between two servers ---------------------------------------

  /** What is left of a database, and of a cache, after the walk has passed i documents. */
  ghost function Passed(s: ServerState, cut: Cut, i: nat): ServerState
    requires i <= |s.docs|
  {
    s.(docs := Staying(s.docs[..i], cut) + s.docs[i..], cache := CacheAfter(s.cache, s.docs[..i], cut))
  }

  lemma PassedStep(s: ServerState, cut: Cut, i: nat, front: seq<Doc>)
    requires i < |s.docs|
    ensures var k, d := |Staying(s.docs[..i], cut)|, s.docs[i];
            var before, after := Passed(s, cut, i), Passed(s, cut, i + 1);
            && k < |before.docs| && before.docs[k] == d
            && (if cut.Leaves(d)
                then && after == before.(docs := before.docs[..k] + before.docs[k + 1..],
                                         cache := Lru.Remove(before.cache, d.name))
                     && |Staying(s.docs[..i + 1], cut)| == k
                     && Handed(s.docs[..i + 1], cut) + front ==
                        [d.(index := cut.replica)] + (Handed(s.docs[..i], cut) + front)
                else && after == before && |Staying(s.docs[..i + 1], cut)| == k + 1
                     && Handed(s.docs[..i + 1], cut) == Handed(s.docs[..i], cut))
  {
    hide Staying, Handed, CacheAfter;
    var stay, d := Staying(s.docs[..i], cut), s.docs[i];
    CutStep(s.cache, s.docs, cut, i);
    assert stay + s.docs[i..] == stay + [d] + s.docs[i + 1..];
    assert (stay + s.docs[i..])[..|stay|] + (stay + s.docs[i..])[|stay| + 1..] == stay + s.docs[i + 1..];
  }

  /** What one document more makes of the parts of a cut. */
  lemma CutStep(c: Cache, docs: seq<Doc>, cut: Cut, i: nat)
    requires i < |docs|
    ensures var init, next, d := docs[..i], docs[..i + 1], docs[i];
            if cut.Leaves(d)
            then && Staying(next, cut) == Staying(init, cut)
                 && Handed(next, cut) == [d.(index := cut.replica)] + Handed(init, cut)
                 && CacheAfter(c, next, cut) == Lru.Remove(CacheAfter(c, init, cut), d.name)
            else && Staying(next, cut) == Staying(init, cut) + [d]
                 && Handed(next, cut) == Handed(init, cut)
                 && CacheAfter(c, next, cut) == CacheAfter(c, init, cut)
  {
    assert docs[..i + 1][..i] == docs[..i] && docs[..i + 1][i] == docs[i];
  }

  lemma PassedEnds(s: ServerState, cut: Cut)
    ensures Passed(s, cut, 0) == s && Staying(s.docs[..0], cut) == []
    ensures Passed(s, cut, |s.docs|) == Donor(s, cut)
    ensures s.docs[..|s.docs|] == s.docs
  {
    assert s.docs[..|s.docs|] == s.docs;
  }

  /** Donor and joiner after i documents of s were visited, k of which stayed. */
  ghost predicate WalkAt(s: ServerState, j: ServerState, cut: Cut, i: nat, k: nat, donor: ServerState,
                         joiner: ServerState)
  {
    && i <= |s.docs| && k == |Staying(s.docs[..i], cut)|
    && donor == Passed(s, cut, i)
    && joiner == j.(docs := Handed(s.docs[..i], cut) + j.docs)
  }

  lemma WalkStart(s: ServerState, j: ServerState, cut: Cut)
    ensures WalkAt(s, j, cut, 0, 0, s, j)
  {
    assert Handed(s.docs[..0], cut) + j.docs == j.docs;
    assert Staying(s.docs[..0], cut) + s.docs[0..] == s.docs;
  }

  lemma WalkStep(s: ServerState, j: ServerState, cut: Cut, i: nat, k: nat, donor: ServerState, joiner: ServerState)
    requires WalkAt(s, j, cut, i, k, donor, joiner) && i < |s.docs|
    ensures k < |donor.docs| && |donor.docs| - k == |s.docs| - i
    ensures var d := donor.docs[k];
            if cut.Leaves(d)
            then WalkAt(s, j, cut, i + 1, k,
                        donor.(docs := donor.docs[..k] + donor.docs[k + 1..], cache := Lru.Remove(donor.cache, d.name)),
                        Deliver(joiner, d.(index := cut.replica)))
            else WalkAt(s, j, cut, i + 1, k + 1, donor, joiner)
  {
    PassedStep(s, cut, i, j.docs);
  }

  lemma WalkEnd(s: ServerState, j: ServerState, cut: Cut, k: nat, donor: ServerState, joiner: ServerState)
    requires WalkAt(s, j, cut, |s.docs|, k, donor, joiner)
    ensures donor == Donor(s, cut) && joiner == j.(docs := Handed(s.docs, cut) + j.docs)
  {
    PassedEnds(s, cut);
  }

  /** Lines 156-169: one document leaves the donor. */
  method HandOver(donor: Server, joiner: Server, n: nat, d: Doc, replica: nat)
    requires donor.Valid() && joiner.Valid() && donor.Repr !! joiner.Repr
    requires n < |donor.state.docs| && donor.state.docs[n] == d
    modifies donor.Repr, joiner.Repr
    ensures donor.Valid() && joiner.Valid() && donor.Repr == old(donor.Repr) && fresh(joiner.Repr - old(joiner.Repr))
    ensures donor.localDatabase == old(donor.localDatabase)
    ensures donor.localDatabase.nodes == old(donor.localDatabase.nodes)[..n] + old(donor.localDatabase.nodes)[n + 1..]
    ensures donor.state == old(donor.state).(docs := old(donor.state).docs[..n] + old(donor.state).docs[n + 1..],
                                             cache := Lru.Remove(old(donor.state).cache, d.name))
    ensures joiner.state == Deliver(old(joiner.state), d.(index := replica))
  {
    hide Server.Valid;
    var node := donor.DatabaseRemoveNth(n);
    donor.CacheRemove(d.name);
    joiner.DatabaseAddFront(d.(index := replica));
  }

  /** One turn of the walk: the next node is read before the current one is unlinked. */
  method Turn(donor: Server, joiner: Server, current: DllNode<Doc>, k: nat, cut: Cut)
    returns (next: DllNode?<Doc>, moved: bool, ghost d: Doc)
    requires donor.Valid() && joiner.Valid() && donor.Repr !! joiner.Repr
    requires k < |donor.state.docs| == |donor.localDatabase.nodes| && current == donor.localDatabase.nodes[k]
    modifies donor.Repr, joiner.Repr
    ensures donor.Valid() && joiner.Valid() && donor.Repr == old(donor.Repr) && fresh(joiner.Repr - old(joiner.Repr))
    ensures d == old(donor.state).docs[k] && moved == cut.Leaves(d)
    ensures moved ==>
              && donor.state == old(donor.state).(docs := old(donor.state).docs[..k] + old(donor.state).docs[k + 1..],
                                                  cache := Lru.Remove(old(donor.state).cache, d.name))
              && joiner.state == Deliver(old(joiner.state), d.(index := cut.replica))
    ensures !moved ==> donor.state == old(donor.state) && joiner.state == old(joiner.state)
    ensures |donor.state.docs| == |donor.localDatabase.nodes|
    ensures var l := if moved then k else k + 1;
            next == if l < |donor.localDatabase.nodes| then donor.localDatabase.nodes[l] else null
  {
    hide Server.Valid;
    var doc;
    doc, next := donor.Visit(current, k);
    d := doc;
    moved := cut.Leaves(doc);
    if moved {
      HandOver(donor, joiner, k, doc, cut.replica);
    }
  }

  /** Lines 139-209: the walk over the donor's database, which unlinks the node it stands
      on. The position of that node in what is left of the list is kept in
      serverDataIndex; -1 stands for the unsigned value that 0 wraps to, which the next
      increment undoes. */
  method MigrateDocs(donor: Server, joiner: Server, cut: Cut)
    requires donor.Valid() && joiner.Valid() && donor.Repr !! joiner.Repr
    modifies donor.Repr, joiner.Repr
    ensures donor.Valid() && joiner.Valid() && donor.Repr == old(donor.Repr) && fresh(joiner.Repr - old(joiner.Repr))
    ensures donor.state == Donor(old(donor.state), cut)
    ensures joiner.state == old(joiner.state).(docs := Handed(old(donor.state).docs, cut) + old(joiner.state).docs)
  {
    hide Server.Valid, WalkAt, Donor, Handed;
    ghost var s, j, i := donor.state, joiner.state, 0;
    WalkStart(s, j, cut);
    var serverDataIndex := 0;
    var current := donor.FirstDoc();
    while current != null
      invariant donor.Valid() && joiner.Valid()
      invariant donor.Repr == old(donor.Repr) && fresh(joiner.Repr - old(joiner.Repr))
      invariant i <= |s.docs| && serverDataIndex >= 0
      invariant WalkAt(s, j, cut, i, serverDataIndex, donor.state, joiner.state)
      invariant |donor.localDatabase.nodes| == |donor.state.docs| == serverDataIndex + (|s.docs| - i)
      invariant current == if i < |s.docs| then donor.localDatabase.nodes[serverDataIndex] else null
      decreases |s.docs| - i
    {
      WalkStep(s, j, cut, i, serverDataIndex, donor.state, joiner.state);
      var moved;
      ghost var d;
      current, moved, d := Turn(donor, joiner, current, serverDataIndex, cut);
      if moved {
        serverDataIndex := serverDataIndex - 1;
      }
      serverDataIndex := serverDataIndex + 1;
      i := i + 1;
    }
    WalkEnd(s, j, cut, serverDataIndex, donor.state, joiner.state);
  }

  // The search for the next label ------------------------------------------------

  /** best is the least label with a hash above h (all labels, when h is -1) among those
      visited before label r of server k. */
  ghost predicate LeastAbove(ring: seq<Peer>, h: int, k: nat, r: nat, best: Option<Place>) {
    if best.None? then
      forall q :: At(ring, q) && Earlier(q, k, r) ==> HashAt(ring, q) <= h
    else
      var p := best.value;
      && At(ring, p) && Earlier(p, k, r) && HashAt(ring, p) > h
      && forall q :: At(ring, q) && Earlier(q, k, r) && HashAt(ring, q) > h && q != p ==> LabelLess(ring, p, q)
  }

  /** What the search does with one label: lines 57-79 and 81-95. */
  ghost function Better(ring: seq<Peer>, h: int, c: Place, best: Option<Place>): Option<Place>
    requires At(ring, c) && (best.Some? ==> At(ring, best.value))
  {
    if HashAt(ring, c) <= h then best
    else if best.None? || HashAt(ring, c) < HashAt(ring, best.value) then Some(c)
    else if HashAt(ring, c) == HashAt(ring, best.value) && ring[c.server].id < ring[best.value.server].id then Some(c)
    else best
  }

  lemma LeastAboveStep(ring: seq<Peer>, h: int, k: nat, r: nat, best: Option<Place>)
    requires At(ring, Place(k, r)) && LeastAbove(ring, h, k, r, best)
    ensures LeastAbove(ring, h, k, r + 1, Better(ring, h, Place(k, r), best))
  {
  }

  lemma LeastAboveNextServer(ring: seq<Peer>, h: int, k: nat, best: Option<Place>)
    requires k < |ring| && LeastAbove(ring, h, k, |ring[k].hashes|, best)
    ensures LeastAbove(ring, h, k + 1, 0, best)
  {
    assert forall q :: At(ring, q) && Earlier(q, k + 1, 0) ==> Earlier(q, k, |ring[k].hashes|);
  }

  lemma SearchFindsNext(ring: seq<Peer>, h: Word, above: Option<Place>, least: Option<Place>)
    requires Live(ring) && LeastAbove(ring, h, |ring|, 0, above) && LeastAbove(ring, -1, |ring|, 0, least)
    ensures least.Some? && Next(ring, h) == if above.Some? then above.value else least.value
  {
    assert At(ring, Place(0, 0)) && Earlier(Place(0, 0), |ring|, 0);
    assert forall q :: At(ring, q) ==> Earlier(q, |ring|, 0);
    NextIsSuccessorOrLeast(ring, h, if above.Some? then above.value else least.value);
  }

  // The load balancer ------------------------------------------------------------

  class LoadBalancer {
    const hashFunctionServers: Word -> Word
    const hashFunctionDocs: CString -> Word
    const enabledVnodes: bool
    var servers: DoublyLinkedList<Server>

    ghost const cfg: Config
    ghost var cluster: Cluster
    ghost var Repr: set<object>

    /** A server of the list: inside Repr, and apart from the list itself. */
    ghost predicate Owns(s: Server)
      reads this, servers, s, s.Repr
    {
      && s in s.Repr && s.Repr <= Repr && this !in s.Repr && s.Repr !! servers.Repr
      && s.Valid() && s.cfg == cfg
    }

    ghost predicate Valid()
      reads this, Repr
      ensures Valid() ==> this in Repr
    {
      && this in Repr && servers in Repr && servers.Repr <= Repr && this !in servers.Repr && servers.Valid()
      && |cluster| == |servers.contents|
      && (forall s :: s in servers.contents ==> s in Repr && s.Repr <= Repr && Owns(s))
      && (forall s, t :: s in servers.contents && t in servers.contents && s != t ==> s.Repr !! t.Repr)
      && (forall i, j :: 0 <= i < j < |cluster| ==> servers.contents[i] != servers.contents[j])
      && (forall i :: 0 <= i < |cluster| ==> cluster[i] == servers.contents[i].state)
      && cfg == Config(hashFunctionServers, hashFunctionDocs, enabledVnodes)
      && (forall i :: 0 <= i < |cluster| ==> Working(cluster[i]) && cluster[i].peer.id <= MAX_SERVERS)
    }

    /** init_load_balancer */
    constructor (enableVnodes: bool, hashFunctionServers: Word -> Word, hashFunctionDocs: CString -> Word)
      ensures Valid() && fresh(Repr) && cluster == []
      ensures cfg == Config(hashFunctionServers, hashFunctionDocs, enableVnodes)
    {
      enabledVnodes := enableVnodes;
      this.hashFunctionServers, this.hashFunctionDocs := hashFunctionServers, hashFunctionDocs;
      var l := new DoublyLinkedList<Server>();
      servers := l;
      cfg := Config(hashFunctionServers, hashFunctionDocs, enableVnodes);
      cluster := [];
      Repr := {this} + l.Repr;
    }

    /** Server k executes its queue. */
    method FlushAt(s: Server, ghost k: nat)
      requires Valid() && k < |cluster| && s == servers.contents[k]
      modifies Repr
      ensures Valid() && fresh(Repr - old(Repr)) && servers == old(servers) && servers.contents == old(servers.contents)
      ensures cluster == old(cluster)[k := Flush(cfg, old(cluster)[k])]
      ensures s.handlerReplica == old(s.handlerReplica)
    {
      hide Server.Valid, DoublyLinkedList.Valid, Flush;
      assert s in servers.contents && Owns(s);
      s.ExecuteTaskQueue();
      cluster := cluster[k := s.state];
      Repr := Repr + s.Repr;
    }

    /** What the search reads of a server. */
    method ReadServer(s: Server, ghost k: nat) returns (id: nat, hashes: seq<Word>)
      requires Valid() && k < |cluster| && s == servers.contents[k]
      ensures cluster[k].peer == Peer(id, hashes) && |hashes| > 0 && id <= MAX_SERVERS
    {
      hide Server.Valid, DoublyLinkedList.Valid;
      assert Owns(s);
      s.Facts();
      id, hashes := s.serverId, s.serverHash;
    }

    method FirstServer() returns (node: DllNode?<Server>)
      requires Valid()
      ensures |servers.nodes| == |cluster|
      ensures node == if |cluster| == 0 then null else servers.nodes[0]
    {
      node := servers.head;
    }

    /** The server at a node of the list, and the node after it. */
    method NextServer(node: DllNode<Server>, ghost k: nat) returns (s: Server, next: DllNode?<Server>)
      requires Valid() && k < |cluster| == |servers.nodes| && node == servers.nodes[k]
      ensures s == servers.contents[k]
      ensures next == if k + 1 < |cluster| then servers.nodes[k + 1] else null
    {
      s := node.data;
      next := servers.GetNext(node, k);
    }

    lemma SizeIs()
      requires Valid()
      ensures servers.size == |servers.nodes| == |servers.contents| == |cluster|
    {
    }

    lemma RingIsLive()
      requires Valid()
      ensures AllWorking(cluster) && |cluster| == |servers.contents|
      ensures cluster != [] ==> Live(RingOf(cluster))
    {
    }

    /** get_next_replica */
    method GetNextReplica(hash: Word) returns (server: Server?, index: nat, ghost k: nat)
      requires Valid()
      ensures AllWorking(cluster) && (cluster != [] ==> Live(RingOf(cluster)))
      ensures cluster == [] ==> server == null && index == 0
      ensures cluster != [] ==> k < |cluster| == |servers.contents| && server == servers.contents[k] &&
                                Place(k, index) == Next(RingOf(cluster), hash)
    {
      hide Valid, LeastAbove, Better, Next, Earlier;
      RingIsLive();
      ghost var ring := RingOf(cluster);
      ghost var above: Option<Place>, least: Option<Place> := None, None;
      var minimumFound := false;
      var minimumHash: Word := SENTINEL;
      var minimumServerId: nat := SENTINEL;
      var minimumIndex := 0;
      var globalMinimum: Word := SENTINEL;
      var globalMinimumIndex := 0;
      var globalMinimumServerId: nat := SENTINEL;
      var globalMinimumServer: Server? := null;
      server := null;
      k := 0;
      StartSearch(ring, hash);
      var node := FirstServer();
      while node != null
        invariant k <= |cluster| == |servers.nodes| == |servers.contents|
        invariant node == if k < |cluster| then servers.nodes[k] else null
        invariant LeastAbove(ring, hash, k, 0, above) && LeastAbove(ring, -1, k, 0, least)
        invariant Found(ring, above, minimumFound, minimumHash, minimumServerId, minimumIndex, server)
        invariant Leading(ring, least, globalMinimum, globalMinimumServerId, globalMinimumIndex, globalMinimumServer)
        decreases |cluster| - k
      {
        var current, next := NextServer(node, k);
        var id, hashes := ReadServer(current, k);
        var i := 0;
        while i < |hashes|
          invariant 0 <= i <= |hashes|
          invariant LeastAbove(ring, hash, k, i, above) && LeastAbove(ring, -1, k, i, least)
          invariant Found(ring, above, minimumFound, minimumHash, minimumServerId, minimumIndex, server)
          invariant Leading(ring, least, globalMinimum, globalMinimumServerId, globalMinimumIndex, globalMinimumServer)
        {
          ghost var c := Place(k, i);
          LeastAboveStep(ring, hash, k, i, above);
          LeastAboveStep(ring, -1, k, i, least);
          FoundStep(ring, hash, c, above, minimumFound, minimumHash, minimumServerId, minimumIndex, server, current);
          LeadingStep(ring, c, least, globalMinimum, globalMinimumServerId, globalMinimumIndex, globalMinimumServer,
                      current);
          above, least := Better(ring, hash, c, above), Better(ring, -1, c, least);
          if hash < hashes[i] {
            if !minimumFound || hashes[i] < minimumHash {
              minimumHash, server, minimumIndex, minimumFound, minimumServerId := hashes[i], current, i, true, id;
            } else if hashes[i] == minimumHash && minimumServerId > id {
              minimumHash, server, minimumIndex, minimumFound, minimumServerId := hashes[i], current, i, true, id;
            }
          }
          if hashes[i] < globalMinimum {
            globalMinimum, globalMinimumIndex := hashes[i], i;
            globalMinimumServer, globalMinimumServerId := current, id;
          } else if hashes[i] == globalMinimum && id < globalMinimumServerId {
            globalMinimum, globalMinimumIndex := hashes[i], i;
            globalMinimumServer, globalMinimumServerId := current, id;
          }
          i := i + 1;
        }
        LeastAboveNextServer(ring, hash, k, above);
        LeastAboveNextServer(ring, -1, k, least);
        node := next;
        k := k + 1;
      }
      if !minimumFound {
        minimumIndex := globalMinimumIndex;
        server := globalMinimumServer;
      }
      index := minimumIndex;
      if cluster != [] {
        SearchFindsNext(ring, hash, above, least);
        k := (if above.Some? then above.value else least.value).server;
      } else {
        NoneLeading(ring, least);
      }
    }

    // One call each on a server of the list --------------------------------------

    /** Server k carries out a request under the label that was set to handle it. */
    method HandleAt(s: Server, ghost k: nat, req: DocRequest, index: nat) returns (res: Response)
      requires Valid() && k < |cluster| && s == servers.contents[k] && s.handlerReplica == index
      modifies Repr
      ensures Valid() && fresh(Repr - old(Repr)) && |cluster| == |old(cluster)|
      ensures req.EditDoc? ==>
                && cluster == old(cluster)[k := Push(old(cluster)[k], Task(req.name, req.content))]
                && res.outcome == Acknowledged(cluster[k], req.name)
      ensures req.GetDoc? ==>
                && cluster == old(cluster)[k := HandleGet(cfg, old(cluster)[k], req.name).0]
                && res.outcome == HandleGet(cfg, old(cluster)[k], req.name).1
      ensures res.server == Server.Label(old(cluster)[k].peer.id, index)
    {
      hide Server.Valid, DoublyLinkedList.Valid, HandleGet;
      assert s in servers.contents && Owns(s);
      res := s.HandleRequest(req, index);
      cluster := cluster[k := s.state];
      Repr := Repr + s.Repr;
    }

    /** Server k takes a document at the head of its database. */
    method DeliverAt(s: Server, ghost k: nat, d: Doc)
      requires Valid() && k < |cluster| && s == servers.contents[k]
      modifies Repr
      ensures Valid() && fresh(Repr - old(Repr)) && servers == old(servers) && servers.contents == old(servers.contents)
      ensures cluster == old(cluster)[k := Deliver(old(cluster)[k], d)]
    {
      hide Server.Valid, DoublyLinkedList.Valid;
      assert s in servers.contents && Owns(s);
      s.DatabaseAddFront(d);
      cluster := cluster[k := s.state];
      Repr := Repr + s.Repr;
    }

    method SetHandlerAt(s: Server, ghost k: nat, index: nat)
      requires Valid() && k < |cluster| && s == servers.contents[k]
      modifies Repr
      ensures Valid() && Repr == old(Repr) && servers == old(servers) && servers.contents == old(servers.contents)
      ensures cluster == old(cluster) && s.handlerReplica == index
    {
      hide Server.Valid, DoublyLinkedList.Valid;
      assert s in servers.contents && Owns(s);
      s.SetHandler(index);
    }

    /** Server k hands documents to a server that is not in the list yet. */
    method DonateAt(s: Server, ghost k: nat, joiner: Server, cut: Cut)
      requires Valid() && k < |cluster| && s == servers.contents[k]
      requires joiner.Valid() && joiner.Repr !! Repr
      modifies Repr, joiner.Repr
      ensures Valid() && Repr == old(Repr) && servers == old(servers) && servers.contents == old(servers.contents)
      ensures joiner.Valid() && joiner.Repr !! Repr && fresh(joiner.Repr - old(joiner.Repr))
      ensures cluster == old(cluster)[k := Donor(old(cluster)[k], cut)]
      ensures joiner.state == old(joiner.state).(docs := Handed(old(cluster)[k].docs, cut) + old(joiner.state).docs)
    {
      hide Server.Valid, DoublyLinkedList.Valid, Staying, CacheAfter, Handed;
      assert s in servers.contents && Owns(s);
      MigrateDocs(s, joiner, cut);
      cluster := cluster[k := s.state];
    }

    /** The joining server becomes the head of the list. */
    method InsertServer(joiner: Server)
      requires Valid() && joiner.Valid() && joiner.Repr !! Repr && joiner.cfg == cfg
      requires Working(joiner.state) && joiner.state.peer.id <= MAX_SERVERS
      modifies Repr
      ensures Valid() && fresh(Repr - old(Repr) - joiner.Repr)
      ensures cluster == [joiner.state] + old(cluster)
    {
      hide Server.Valid, DoublyLinkedList.Valid;
      servers.AddNth(0, joiner);
      assert servers.contents == [joiner] + old(servers.contents);
      cluster := [joiner.state] + cluster;
      Repr := Repr + servers.Repr + joiner.Repr;
      assert Owns(joiner);
      assert forall s :: s in old(servers.contents) ==> Owns(s);
    }

    /** What holds of the other servers, before server k leaves. */
    lemma Others(k: nat) returns (rest: seq<Server>, states: Cluster)
      requires Valid() && k < |cluster|
      ensures states == Without(cluster, k)
      ensures servers.contents[..k] + servers.contents[k + 1..] == rest
      ensures var s := servers.contents[k];
              && |rest| == |states|
              && s.Valid() && s.cfg == cfg && s.state == cluster[k]
              && s.Repr <= Repr && s.Repr !! servers.Repr && this !in s.Repr
              && (forall t :: t in rest ==> t in t.Repr && Owns(t) && t.Repr !! s.Repr)
              && (forall t, u :: t in rest && u in rest && t != u ==> t.Repr !! u.Repr)
              && (forall i, j :: 0 <= i < j < |rest| ==> rest[i] != rest[j])
              && (forall i :: 0 <= i < |rest| ==> states[i] == rest[i].state)
              && (forall i :: 0 <= i < |rest| ==> Working(states[i]) && states[i].peer.id <= MAX_SERVERS)
    {
      hide Server.Valid, DoublyLinkedList.Valid;
      OthersIn(servers.contents, k);
      assert servers.contents[k] in servers.contents && Owns(servers.contents[k]);
      rest, states := Without(servers.contents, k), Without(cluster, k);
    }

    /** Server s is out of the list, but still within Repr. */
    ghost predicate Loose(s: Server)
      reads this, Repr, servers, servers.contents, s, s.Repr
    {
      && s.Valid() && s.cfg == cfg && s.Repr <= Repr && s.Repr !! servers.Repr && this !in s.Repr
      && forall t :: t in servers.contents ==> t.Repr !! s.Repr
    }

    method UnlinkNode(ghost k: nat, n: nat) returns (s: Server)
      requires Valid() && n == k < |cluster|
      modifies Repr
      ensures Valid() && Loose(s) && Repr == old(Repr)
      ensures cluster == Without(old(cluster), k) && s.state == old(cluster)[k]
    {
      hide Server.Valid, DoublyLinkedList.Valid;
      SizeIs();
      ghost var rest, states := Others(k);
      cluster := states;
      var node := servers.RemoveNth(n);
      s := node.data;
      assert servers.contents == rest;
    }

    /** Server k leaves the list; it is then apart from the load balancer. */
    method UnlinkServer(ghost k: nat, n: nat) returns (s: Server)
      requires Valid() && n == k < |cluster|
      modifies Repr
      ensures Valid() && Repr <= old(Repr) && s.Repr <= old(Repr) && s.Repr !! Repr
      ensures cluster == Without(old(cluster), k)
      ensures s.Valid() && s.cfg == cfg && s.state == old(cluster)[k]
    {
      hide Server.Valid, DoublyLinkedList.Valid;
      s := UnlinkNode(k, n);
      ghost var r := Rest(s);
      Repr := r;
    }

    lemma Rest(s: Server) returns (r: set<object>)
      requires Valid() && Loose(s)
      ensures r <= Repr && r !! s.Repr
      ensures this in r && servers in r && servers.Repr <= r
      ensures forall t :: t in servers.contents ==> t in r && t.Repr <= r && t in t.Repr
    {
      hide Server.Valid, DoublyLinkedList.Valid;
      r := Repr - s.Repr;
    }

    // The requests ---------------------------------------------------------------

    /** loader_forward_request */
    method ForwardRequest(req: DocRequest) returns (res: Response)
      requires Valid() && cluster != []
      modifies Repr
      ensures Valid() && fresh(Repr - old(Repr))
      ensures AllWorking(old(cluster))
      ensures req.EditDoc? ==>
                && cluster == EditRequest(cfg, old(cluster), req.name, req.content)
                && var s := old(cluster)[Owner(cfg, old(cluster), req.name)];
                   && res.outcome == Acknowledged(Push(s, Task(req.name, req.content)), req.name)
                   && res.outcome.log == QueueSize(|s.tasks| + if |s.tasks| < 1000 then 1 else 0)
      ensures req.GetDoc? ==> (cluster, res.outcome) == GetRequest(cfg, old(cluster), req.name)
      ensures var p := Next(RingOf(old(cluster)), cfg.docHash(req.name));
              && res.server == Server.Label(old(cluster)[p.server].peer.id, p.replica)
              && res.server == 100000 * p.replica + old(cluster)[p.server].peer.id
    {
      hide Valid;
      HashFunctions();
      var server, index, k := GetNextReplica(hashFunctionDocs(req.name));
      SetHandlerAt(server, k, index);
      res := HandleAt(server, k, req, index);
    }

    lemma HashFunctions()
      requires Valid()
      ensures cfg == Config(hashFunctionServers, hashFunctionDocs, enabledVnodes)
    {
    }

    /** Lines 128-210: one label of the joining server. */
    method MigrateLabelInto(joiner: Server, r: nat)
      requires Valid() && joiner.Valid() && joiner.Repr !! Repr && joiner.cfg == cfg
      requires r < |joiner.state.peer.hashes|
      modifies Repr, joiner.Repr
      ensures Valid() && fresh(Repr - old(Repr))
      ensures joiner.Valid() && joiner.Repr !! Repr && fresh(joiner.Repr - old(joiner.Repr))
      ensures AllWorking(old(cluster))
      ensures (cluster, joiner.state) == MigrateLabel(cfg, old(cluster), old(joiner.state), r)
    {
      hide Valid, Server.Valid, Flush, Donor, Handed;
      joiner.Facts();
      var next, index, k := GetNextReplica(joiner.serverHash[r]);
      if next != null {
        var nextId, nextHashes := ReadServer(next, k);
        SetHandlerAt(next, k, index);
        FlushAt(next, k);
        ghost var ring := RingOf(old(cluster));
        assert ring[k] == Peer(nextId, nextHashes);
        ghost var cut := CutAt(joiner.state.peer, r, ring, Next(ring, joiner.serverHash[r]));
        assert cut == Cut(r, joiner.serverHash[r], joiner.serverId, index, nextHashes[index], nextId);
        DonateAt(next, k, joiner, Cut(r, joiner.serverHash[r], joiner.serverId, index, nextHashes[index], nextId));
        assert cluster == old(cluster)[k := Donor(Flush(cfg, old(cluster)[k]), cut)];
        assert joiner.state.docs == Handed(Flush(cfg, old(cluster)[k]).docs, cut) + old(joiner.state).docs;
      } else {
        assert cluster == [];
      }
    }

    /** loader_add_server */
    method AddServer(serverId: nat, cacheSize: nat)
      requires Valid() && GoodConfig(cfg) && serverId <= MAX_SERVERS && cacheSize > 0
      modifies Repr
      ensures Valid() && fresh(Repr - old(Repr))
      ensures AllWorking(old(cluster)) && cluster == ClusterModel.AddServer(cfg, old(cluster), serverId, cacheSize)
      ensures |cluster| == |old(cluster)| + 1 && cluster[0].peer.id == serverId
      ensures cluster[0].cache == Lru.Cache(cacheSize, [])
      ensures var h := hashFunctionServers;
              cluster[0].peer.hashes ==
              if enabledVnodes then [h(serverId), h(100000 + serverId), h(200000 + serverId)] else [h(serverId)]
    {
      hide Valid, Server.Valid, MigrateLabel, GoodConfig;
      HashFunctions();
      RingIsLive();
      var replicas := if enabledVnodes then MAX_REPLICAS else 1;
      var joiner := new Server(cacheSize, serverId, hashFunctionServers, hashFunctionDocs, replicas, cfg);
      ghost var s := joiner.state;
      var r := 0;
      while r < replicas
        invariant 0 <= r <= replicas
        invariant Valid() && fresh(Repr - old(Repr)) && joiner.Valid() && joiner.Repr !! Repr && fresh(joiner.Repr)
        invariant joiner.cfg == cfg && |joiner.state.peer.hashes| == replicas
        invariant (cluster, joiner.state) == MigrateLabels(cfg, old(cluster), s, r)
      {
        MigrateLabelInto(joiner, r);
        r := r + 1;
      }
      joiner.Reindex();
      InsertServer(joiner);
      AddServerJoins(cfg, old(cluster), serverId, cacheSize);
    }

    /** Lines 232-245: where the server with this id is in the list. */
    method FindServerById(serverId: nat) returns (removingIndex: nat, found: bool)
      requires Valid()
      ensures removingIndex == FindServer(cluster, serverId) && found == (removingIndex < |cluster|)
    {
      hide Valid, Server.Valid;
      removingIndex := 0;
      found := false;
      var node := FirstServer();
      while node != null
        invariant removingIndex <= |cluster| == |servers.nodes|
        invariant node == if removingIndex < |cluster| then servers.nodes[removingIndex] else null
        invariant forall j :: 0 <= j < removingIndex ==> cluster[j].peer.id != serverId
        decreases |cluster| - removingIndex
      {
        var current, next := NextServer(node, removingIndex);
        SizeIs();
        var id, hashes := ReadServer(current, removingIndex);
        if id == serverId {
          found := true;
          return;
        }
        node := next;
        removingIndex := removingIndex + 1;
      }
    }

    method HasServers() returns (some: bool)
      requires Valid()
      ensures some <==> cluster != []
    {
      some := servers.size > 0;
    }

    /** Lines 256-271: one document of the removed server goes to the label that follows
        its old one. */
    method RehomeOne(gone: Server, current: DllNode<Doc>) returns (next: DllNode?<Doc>)
      requires Valid() && cluster != [] && gone.Valid() && gone.Repr !! Repr
      requires 0 < |gone.state.docs| == |gone.localDatabase.nodes| && current == gone.localDatabase.nodes[0]
      requires gone.state.docs[0].index < |gone.state.peer.hashes|
      modifies Repr, gone.Repr
      ensures Valid() && fresh(Repr - old(Repr)) && gone.Valid() && gone.Repr == old(gone.Repr) && gone.Repr !! Repr
      ensures gone.state == old(gone.state).(docs := old(gone.state).docs[1..])
      ensures |gone.localDatabase.nodes| == |gone.state.docs|
      ensures next == if |gone.state.docs| > 0 then gone.localDatabase.nodes[0] else null
      ensures AllWorking(old(cluster)) && Live(RingOf(old(cluster)))
      ensures var d := old(gone.state).docs[0];
              var p := Next(RingOf(old(cluster)), old(gone.state).peer.hashes[d.index]);
              cluster == old(cluster)[p.server := Deliver(old(cluster)[p.server], d.(index := p.replica))]
    {
      hide Valid, Server.Valid;
      gone.Facts();
      var d;
      d, next := gone.Visit(current, 0);
      var server, index, k := GetNextReplica(gone.serverHash[d.index]);
      DeliverAt(server, k, d.(index := index));
      var node := gone.DatabaseRemoveNth(0);
      gone.Facts();
    }

    /** loader_remove_server */
    method RemoveServer(serverId: nat)
      requires Valid()
      requires var k := FindServer(cluster, serverId);
               k < |cluster| ==> AllWorking(cluster) && IndexesOk(Flush(cfg, cluster[k]))
      modifies Repr
      ensures Valid() && fresh(Repr - old(Repr))
      ensures AllWorking(old(cluster)) && cluster == ClusterModel.RemoveServer(cfg, old(cluster), serverId)
    {
      hide Valid, Server.Valid, Flush;
      RingIsLive();
      var removingIndex, found := FindServerById(serverId);
      if !found {
        return;
      }
      var gone := UnlinkServer(removingIndex, removingIndex);
      gone.SetHandler(0);
      gone.ExecuteTaskQueue();
      RehomeAll(gone);
    }

    /** Lines 253-272 */
    method RehomeAll(gone: Server)
      requires Valid() && gone.Valid() && gone.Repr !! Repr && IndexesOk(gone.state)
      modifies Repr, gone.Repr
      ensures Valid() && fresh(Repr - old(Repr)) && AllWorking(old(cluster))
      ensures old(cluster) == [] ==> cluster == []
      ensures old(cluster) != [] ==> cluster == Rehome(old(cluster), old(gone.state).peer.hashes, old(gone.state).docs)
    {
      hide Valid, Server.Valid, Rehome, RingOf, Rehoming;
      RingIsLive();
      ghost var docs, hashes, rest, i := gone.state.docs, gone.state.peer.hashes, cluster, 0;
      var current := gone.FirstDoc();
      var some := HasServers();
      if rest != [] {
        RehomingStart(gone, current);
      }
      while current != null && some
        invariant Valid() && fresh(Repr - old(Repr)) && gone.Valid() && gone.Repr == old(gone.Repr) && gone.Repr !! Repr
        invariant i <= |docs| && some == (rest != []) && (rest == [] ==> cluster == [])
        invariant rest != [] ==> Rehoming(gone, current, rest, hashes, docs, i)
        decreases |docs| - i
      {
        RehomingAt(gone, current, rest, hashes, docs, i);
        current := RehomeNext(gone, current, rest, hashes, docs, i);
        i := i + 1;
        some := HasServers();
      }
      if rest != [] {
        RehomingAt(gone, current, rest, hashes, docs, i);
      }
    }

    lemma RehomingStart(gone: Server, current: DllNode?<Doc>)
      requires cluster != [] && AllWorking(cluster) && IndexesOk(gone.state)
      requires |gone.localDatabase.nodes| == |gone.state.docs|
      requires current == if |gone.state.docs| == 0 then null else gone.localDatabase.nodes[0]
      ensures Rehoming(gone, current, cluster, gone.state.peer.hashes, gone.state.docs, 0)
    {
      RehomeNone(cluster, gone.state.peer.hashes);
    }

    lemma RehomingAt(gone: Server, current: DllNode?<Doc>, rest: Cluster, hashes: seq<Word>, docs: seq<Doc>, i: nat)
      requires Rehoming(gone, current, rest, hashes, docs, i)
      ensures AllWorking(rest) && i <= |docs| && (current == null <==> i == |docs|)
      ensures forall j :: 0 <= j < |docs| ==> docs[j].index < |hashes|
      ensures i == |docs| ==> cluster == Rehome(rest, hashes, docs)
    {
      assert docs[..|docs|] == docs;
    }

    /** After i documents of the removed server were rehomed; current is the node of the
        next one. */
    ghost predicate Rehoming(gone: Server, current: DllNode?<Doc>, rest: Cluster, hashes: seq<Word>, docs: seq<Doc>,
                             i: nat)
      reads this, gone, gone.localDatabase
    {
      && rest != [] && AllWorking(rest) && i <= |docs|
      && (forall j :: 0 <= j < |docs| ==> docs[j].index < |hashes|)
      && gone.state.docs == docs[i..] && gone.state.peer.hashes == hashes
      && |gone.localDatabase.nodes| == |gone.state.docs|
      && (current == if i < |docs| then gone.localDatabase.nodes[0] else null)
      && cluster == Rehome(rest, hashes, docs[..i])
    }

    method RehomeNext(gone: Server, current: DllNode<Doc>, ghost rest: Cluster, ghost hashes: seq<Word>,
                      ghost docs: seq<Doc>, ghost i: nat) returns (next: DllNode?<Doc>)
      requires Valid() && gone.Valid() && gone.Repr !! Repr && i < |docs|
      requires Rehoming(gone, current, rest, hashes, docs, i)
      modifies Repr, gone.Repr
      ensures Valid() && fresh(Repr - old(Repr)) && gone.Valid() && gone.Repr == old(gone.Repr) && gone.Repr !! Repr
      ensures Rehoming(gone, next, rest, hashes, docs, i + 1) && cluster != []
    {
      hide Valid, Server.Valid, Rehome, RingOf, Next, Deliver;
      RehomeTurn(rest, hashes, docs, i);
      next := RehomeOne(gone, current);
    }

    /** The local variables of the search for the least label above the hash. */
    ghost predicate Found(ring: seq<Peer>, best: Option<Place>, found: bool, hash: Word, id: nat, index: nat,
                          server: Server?)
      reads servers, this
    {
      if best.None? then !found && server == null && index == 0
      else
        var p := best.value;
        && At(ring, p) && p.server < |servers.contents|
        && found && hash == HashAt(ring, p) && id == ring[p.server].id && index == p.replica
        && server == servers.contents[p.server]
    }

    /** The local variables of the search for the least label of all. */
    ghost predicate Leading(ring: seq<Peer>, best: Option<Place>, hash: Word, id: nat, index: nat, server: Server?)
      reads servers, this
    {
      if best.None? then hash == SENTINEL && id == SENTINEL && server == null && index == 0
      else
        var p := best.value;
        && At(ring, p) && p.server < |servers.contents|
        && hash == HashAt(ring, p) && id == ring[p.server].id && index == p.replica
        && server == servers.contents[p.server]
    }

    lemma FoundStep(ring: seq<Peer>, h: Word, c: Place, best: Option<Place>, found: bool, hash: Word, id: nat,
                    index: nat, server: Server?, current: Server)
      requires At(ring, c) && c.server < |servers.contents| && current == servers.contents[c.server]
      requires Found(ring, best, found, hash, id, index, server)
      ensures best.Some? ==> At(ring, best.value)
      ensures var x, i := HashAt(ring, c), ring[c.server].id;
              var take := h < x && (!found || x < hash || (x == hash && id > i));
              if take then Found(ring, Better(ring, h, c, best), true, x, i, c.replica, current)
              else Found(ring, Better(ring, h, c, best), found, hash, id, index, server)
    {
    }

    lemma LeadingStep(ring: seq<Peer>, c: Place, best: Option<Place>, hash: Word, id: nat, index: nat,
                      server: Server?, current: Server)
      requires At(ring, c) && c.server < |servers.contents| && current == servers.contents[c.server]
      requires ring[c.server].id <= MAX_SERVERS && Leading(ring, best, hash, id, index, server)
      ensures best.Some? ==> At(ring, best.value)
      ensures var x, i := HashAt(ring, c), ring[c.server].id;
              if x < hash || (x == hash && i < id)
              then Leading(ring, Better(ring, -1, c, best), x, i, c.replica, current)
              else Leading(ring, Better(ring, -1, c, best), hash, id, index, server)
    {
    }
  }

  lemma OthersIn<T>(s: seq<T>, k: nat)
    requires k < |s| && forall i, j :: 0 <= i < j < |s| ==> s[i] != s[j]
    ensures forall x :: x in Without(s, k) ==> x in s && x != s[k]
    ensures forall i, j :: 0 <= i < j < |s| - 1 ==> Without(s, k)[i] != Without(s, k)[j]
  {
  }

  lemma RehomeNone(rest: Cluster, hashes: seq<Word>)
    requires rest != [] && AllWorking(rest)
    ensures Rehome(rest, hashes, []) == rest
  {
  }

  lemma RehomeTurn(rest: Cluster, hashes: seq<Word>, docs: seq<Doc>, i: nat)
    requires rest != [] && AllWorking(rest) && i < |docs|
    requires forall j :: 0 <= j < |docs| ==> docs[j].index < |hashes|
    ensures var before, p := Rehome(rest, hashes, docs[..i]), Next(RingOf(rest), hashes[docs[i].index]);
            && RingOf(before) == RingOf(rest)
            && before != []
            && Rehome(rest, hashes, docs[..i + 1]) ==
               before[p.server := Deliver(before[p.server], docs[i].(index := p.replica))]
  {
    assert docs[..i + 1][..i] == docs[..i];
    assert |RingOf(Rehome(rest, hashes, docs[..i]))| == |RingOf(rest)|;
  }

  lemma StartSearch(ring: seq<Peer>, h: Word)
    ensures LeastAbove(ring, h, 0, 0, None) && LeastAbove(ring, -1, 0, 0, None)
  {
  }

  lemma NoneLeading(ring: seq<Peer>, least: Option<Place>)
    requires LeastAbove(ring, -1, 0, 0, least)
    ensures least.None?
  {
  }
}
