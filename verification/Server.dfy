/** server.c: a server object, proved against ServerModel. */
module Servers {
  import opened Wrappers
  import opened Hashing
  import opened Ring
  import opened ServerModel
  import opened ClusterModel
  import opened LinkedLists
  import opened Queues
  import opened LruCaches
  import Lru = LruModel

  /** A response as it is printed: with the label of the replica that answers. */
  datatype Response = Response(server: nat, outcome: Outcome)

  /** A request for a document, as the load balancer forwards it. */
  datatype DocRequest = EditDoc(name: CString, content: CString) | GetDoc(name: CString)

  lemma LocalNextUnique(hashes: seq<Word>, h: Word, r: nat)
    requires r < |hashes|
    requires forall j :: 0 <= j < |hashes| && j != r ==>
               Rank(h, hashes[r]) < Rank(h, hashes[j]) || (hashes[r] == hashes[j] && r < j)
    ensures LocalNext(hashes, h) == r
  {
    var q := LocalNext(hashes, h);
    assert Rank(h, hashes[q]) <= Rank(h, hashes[r]);
  }

  class Server {
    const hashFunctionDocs: CString -> Word
    var cache: LruCache<CString, CString>
    var taskQueue: Queue<Task>
    var localDatabase: DoublyLinkedList<Doc>
    var serverId: nat
    var serverHash: seq<Word>
    var noReplicas: nat
    var handlerReplica: nat
    var printed: seq<Outcome>

    ghost const cfg: Config
    ghost var state: ServerState
    ghost var Repr: set<object>

    ghost predicate Valid()
      reads this, Repr
      ensures Valid() ==> this in Repr && localDatabase in Repr
    {
      && this in Repr
      && cache in Repr && cache.Repr <= Repr && this !in cache.Repr && cache.Valid()
      && taskQueue in Repr && taskQueue.Repr <= Repr && this !in taskQueue.Repr && taskQueue.Valid()
      && localDatabase in Repr && localDatabase.Repr <= Repr && this !in localDatabase.Repr && localDatabase.Valid()
      && cache.Repr !! taskQueue.Repr && cache.Repr !! localDatabase.Repr && taskQueue.Repr !! localDatabase.Repr
      && cfg.docHash == hashFunctionDocs
      && noReplicas == |serverHash| > 0
      && (forall i :: 0 <= i < |serverHash| ==> serverHash[i] != SENTINEL)
      && state == ServerState(Peer(serverId, serverHash), localDatabase.contents, taskQueue.contents, cache.model,
                              printed)
    }

    /** The loop over the labels in init_server. */
    static method ComputeHashes(serverId: nat, hashFunctionServers: Word -> Word, replicas: nat, ghost cfg: Config)
      returns (hashes: seq<Word>)
      requires serverId <= MAX_SERVERS && GoodConfig(cfg) && cfg.serverHash == hashFunctionServers
      requires replicas == Replicas(cfg)
      ensures hashes == LabelHashes(cfg, serverId) && |hashes| > 0
      ensures forall i :: 0 <= i < |hashes| ==> hashes[i] != SENTINEL
    {
      hashes := [];
      for i := 0 to replicas
        invariant |hashes| == i
        invariant forall r :: 0 <= r < i ==> hashes[r] == cfg.serverHash(ReplicaLabel(serverId, r))
      {
        hashes := hashes + [hashFunctionServers(ReplicaLabel(serverId, i))];
      }
    }

    /** init_server */
    constructor (cacheSize: nat, serverId: nat, hashFunctionServers: Word -> Word, hashFunctionDocs: CString -> Word,
                 replicas: nat, ghost cfg: Config)
      requires cacheSize > 0 && serverId <= MAX_SERVERS
      requires GoodConfig(cfg) && cfg.serverHash == hashFunctionServers && cfg.docHash == hashFunctionDocs
      requires replicas == Replicas(cfg)
      ensures Valid() && fresh(Repr) && this.cfg == cfg
      ensures state == NewServer(cfg, serverId, cacheSize)
      ensures state == ServerState(Peer(serverId, serverHash), [], [], Lru.Cache(cacheSize, []), [])
      ensures |serverHash| == replicas && cache.ht.hmax == cacheSize && cache.ht.hashFunction == HashString
      ensures forall r :: 0 <= r < replicas ==> serverHash[r] == hashFunctionServers(100000 * r + serverId)
    {
      hide LruCache.Valid, Queue.Valid, DoublyLinkedList.Valid, GoodConfig;
      var c := new LruCache<CString, CString>(cacheSize, HashString);
      var q := new Queue<Task>();
      var d := new DoublyLinkedList<Doc>();
      var hashes := ComputeHashes(serverId, hashFunctionServers, replicas, cfg);
      cache, taskQueue, localDatabase := c, q, d;
      this.serverId, serverHash, noReplicas, handlerReplica := serverId, hashes, replicas, 0;
      this.hashFunctionDocs, this.cfg := hashFunctionDocs, cfg;
      printed := [];
      state := NewServer(cfg, serverId, cacheSize);
      Repr := {this} + c.Repr + q.Repr + d.Repr;
    }

    lemma Facts()
      requires Valid()
      ensures state.peer == Peer(serverId, serverHash) && Working(state)
      ensures state.docs == localDatabase.contents && |state.docs| == |localDatabase.nodes|
      ensures forall i :: 0 <= i < |state.docs| ==> localDatabase.nodes[i].data == state.docs[i]
      ensures state.tasks == taskQueue.contents && taskQueue.Valid() && taskQueue.Repr <= Repr
      ensures localDatabase.Valid() && localDatabase.Repr <= Repr
      ensures localDatabase.head == if |localDatabase.nodes| == 0 then null else localDatabase.nodes[0]
      ensures cfg.docHash == hashFunctionDocs
    {
    }

    // Local lookups ------------------------------------------------------------

    /** get_server_replica_executor */
    method GetReplicaExecutor(dataHash: Word) returns (index: nat)
      requires Valid()
      ensures index == LocalNext(serverHash, dataHash)
    {
      var globalMinimumHash: Word := SENTINEL;
      var minimumHash: Word := SENTINEL;
      var minimumFound := false;
      var minimumIndex := 0;
      var globalMinimumIndex := 0;
      for i := 0 to noReplicas
        invariant globalMinimumIndex <= i && minimumIndex <= i
        invariant i > 0 ==> globalMinimumIndex < i && serverHash[globalMinimumIndex] == globalMinimumHash
        invariant i == 0 ==> globalMinimumHash == SENTINEL
        invariant forall j :: 0 <= j < i ==>
          globalMinimumHash < serverHash[j] || (globalMinimumHash == serverHash[j] && globalMinimumIndex <= j)
        invariant minimumFound ==> minimumIndex < i && serverHash[minimumIndex] == minimumHash && dataHash < minimumHash
        invariant !minimumFound ==> minimumHash == SENTINEL
        invariant forall j :: 0 <= j < i && dataHash < serverHash[j] ==>
          minimumFound && (minimumHash < serverHash[j] || (minimumHash == serverHash[j] && minimumIndex <= j))
      {
        if globalMinimumHash > serverHash[i] {
          globalMinimumIndex := i;
          globalMinimumHash := serverHash[i];
        }
        if dataHash < serverHash[i] {
          if serverHash[i] < minimumHash {
            minimumHash := serverHash[i];
            minimumIndex := i;
            minimumFound := true;
          }
        }
      }
      index := if !minimumFound then globalMinimumIndex else minimumIndex;
      LocalNextUnique(serverHash, dataHash, index);
    }

    /** get_associated_label_index_for_data */
    method GetAssociatedLabelIndex(d: Doc) returns (index: nat)
      requires Valid()
      ensures index == LocalNext(serverHash, d.hash)
    {
      var minimumFound := false;
      var minimumHash: Word := SENTINEL;
      var minimumIndex := 0;
      var globalMinimum: Word := SENTINEL;
      var globalMinimumIndex := 0;
      for i := 0 to noReplicas
        invariant globalMinimumIndex <= i && minimumIndex <= i
        invariant i > 0 ==> globalMinimumIndex < i && serverHash[globalMinimumIndex] == globalMinimum
        invariant i == 0 ==> globalMinimum == SENTINEL
        invariant forall j :: 0 <= j < i ==>
          globalMinimum < serverHash[j] || (globalMinimum == serverHash[j] && globalMinimumIndex <= j)
        invariant minimumFound ==> minimumIndex < i && serverHash[minimumIndex] == minimumHash && d.hash < minimumHash
        invariant !minimumFound ==> minimumHash == SENTINEL
        invariant forall j :: 0 <= j < i && d.hash < serverHash[j] ==>
          minimumFound && (minimumHash < serverHash[j] || (minimumHash == serverHash[j] && minimumIndex <= j))
      {
        if serverHash[i] > d.hash {
          if minimumHash > serverHash[i] {
            minimumHash := serverHash[i];
            minimumFound := true;
            minimumIndex := i;
          }
        }
        if globalMinimum > serverHash[i] {
          globalMinimum := serverHash[i];
          globalMinimumIndex := i;
        }
      }
      index := if !minimumFound then globalMinimumIndex else minimumIndex;
      LocalNextUnique(serverHash, d.hash, index);
    }

    /** get_server_data_by_name: the list node, and its position. */
    method GetServerDataByName(name: CString) returns (node: DllNode?<Doc>, ghost i: nat)
      requires Valid()
      ensures i == FindDoc(state.docs, name) <= |state.docs| == |localDatabase.nodes|
      ensures node == if i < |localDatabase.nodes| then localDatabase.nodes[i] else null
      ensures node == null <==> forall d :: d in state.docs ==> d.name != name
      ensures node != null ==> node.data.name == name && node.data in state.docs
    {
      hide Valid;
      Facts();
      node := FirstDoc();
      i := 0;
      while node != null
        invariant i <= |localDatabase.nodes|
        invariant node == if i < |localDatabase.nodes| then localDatabase.nodes[i] else null
        invariant forall j :: 0 <= j < i ==> state.docs[j].name != name
        decreases |localDatabase.nodes| - i
      {
        var d, next := Visit(node, i);
        if d.name == name {
          return;
        }
        node := next;
        i := i + 1;
      }
    }

    // One call each on a part of the server; the rest stays as it is -------------

    method DatabaseSet(node: DllNode<Doc>, d: Doc, ghost i: nat)
      requires Valid() && i < |localDatabase.nodes| && node == localDatabase.nodes[i]
      modifies Repr
      ensures Valid() && Repr == old(Repr) && handlerReplica == old(handlerReplica)
      ensures localDatabase == old(localDatabase) && localDatabase.nodes == old(localDatabase.nodes)
      ensures state == old(state).(docs := old(state).docs[i := d])
    {
      hide LruCache.Valid, Queue.Valid;
      state := state.(docs := state.docs[i := d]);
      localDatabase.SetData(node, d, i);
    }

    method DatabaseAppend(d: Doc)
      requires Valid()
      modifies Repr
      ensures Valid() && fresh(Repr - old(Repr)) && handlerReplica == old(handlerReplica)
      ensures state == old(state).(docs := old(state).docs + [d])
    {
      hide LruCache.Valid, Queue.Valid, DoublyLinkedList.Valid;
      state := state.(docs := state.docs + [d]);
      localDatabase.AddTail(d);
      Repr := Repr + localDatabase.Repr;
    }

    method DatabaseAddFront(d: Doc)
      requires Valid()
      modifies Repr
      ensures Valid() && fresh(Repr - old(Repr)) && handlerReplica == old(handlerReplica)
      ensures state == Deliver(old(state), d)
    {
      hide LruCache.Valid, Queue.Valid, DoublyLinkedList.Valid;
      state := Deliver(state, d);
      localDatabase.AddNth(0, d);
      assert localDatabase.contents == [d] + old(localDatabase.contents);
      Repr := Repr + localDatabase.Repr;
    }

    method DatabaseRemoveNth(n: nat) returns (node: DllNode<Doc>)
      requires Valid() && n < |state.docs|
      modifies Repr
      ensures Valid() && Repr == old(Repr) && handlerReplica == old(handlerReplica)
      ensures localDatabase == old(localDatabase)
      ensures localDatabase.nodes == old(localDatabase.nodes)[..n] + old(localDatabase.nodes)[n + 1..]
      ensures node == old(localDatabase.nodes)[n] && node.data == old(state).docs[n]
      ensures state == old(state).(docs := old(state).docs[..n] + old(state).docs[n + 1..])
    {
      hide LruCache.Valid, Queue.Valid;
      state := state.(docs := state.docs[..n] + state.docs[n + 1..]);
      node := localDatabase.RemoveNth(n);
    }

    method CacheGet(key: CString) returns (value: Option<CString>)
      requires Valid()
      modifies Repr
      ensures Valid() && fresh(Repr - old(Repr)) && handlerReplica == old(handlerReplica)
      ensures localDatabase == old(localDatabase) && localDatabase.nodes == old(localDatabase.nodes)
      ensures Lru.Get(old(state).cache, key) == Lru.GetResult(state.cache, value)
      ensures state == old(state).(cache := state.cache)
    {
      hide LruCache.Valid, Queue.Valid, DoublyLinkedList.Valid;
      value := cache.Get(key, false);
      state := state.(cache := cache.model);
      Repr := Repr + cache.Repr;
    }

    method CachePut(key: CString, value: CString, evict: bool) returns (evicted: Option<CString>)
      requires Valid()
      modifies Repr
      ensures Valid() && fresh(Repr - old(Repr)) && handlerReplica == old(handlerReplica)
      ensures Lru.Put(old(state).cache, key, value, evict).cache == state.cache
      ensures Lru.Put(old(state).cache, key, value, evict).evicted == evicted
      ensures state == old(state).(cache := state.cache)
    {
      hide LruCache.Valid, Queue.Valid, DoublyLinkedList.Valid;
      var existed;
      existed, evicted := cache.Put(key, value, evict);
      state := state.(cache := cache.model);
      Repr := Repr + cache.Repr;
    }

    method CacheRemove(key: CString)
      requires Valid()
      modifies Repr
      ensures Valid() && Repr == old(Repr) && handlerReplica == old(handlerReplica)
      ensures localDatabase == old(localDatabase) && localDatabase.nodes == old(localDatabase.nodes)
      ensures state == old(state).(cache := Lru.Remove(old(state).cache, key))
    {
      hide LruCache.Valid, Queue.Valid, DoublyLinkedList.Valid;
      cache.Remove(key);
      state := state.(cache := cache.model);
    }

    method PopTask()
      requires Valid() && state.tasks != []
      modifies Repr
      ensures Valid() && Repr == old(Repr) && handlerReplica == old(handlerReplica)
      ensures state == old(state).(tasks := old(state).tasks[1..])
    {
      hide LruCache.Valid, Queue.Valid, DoublyLinkedList.Valid;
      var t := taskQueue.Pop();
      state := state.(tasks := taskQueue.contents);
    }

    method Print(out: Outcome)
      requires Valid()
      modifies Repr
      ensures Valid() && Repr == old(Repr) && handlerReplica == old(handlerReplica)
      ensures state == old(state).(printed := old(state).printed + [out])
    {
      hide LruCache.Valid, Queue.Valid, DoublyLinkedList.Valid;
      printed := printed + [out];
      state := state.(printed := printed);
    }

    method SetHandler(replica: nat)
      requires Valid()
      modifies this
      ensures Valid() && Repr == old(Repr) && handlerReplica == replica && state == old(state)
    {
      hide LruCache.Valid, Queue.Valid, DoublyLinkedList.Valid;
      handlerReplica := replica;
    }

    // Requests -----------------------------------------------------------------

    /** calculate_replica_label */
    static function Label(id: nat, replica: nat): nat {
      REPLICA_OFFSET * replica + id
    }

    /** Lines 69-95: the document is overwritten in place, or created at the tail. */
    method EditDatabase(t: Task, index: nat) returns (reply: Reply)
      requires Valid() && index == LocalNext(state.peer.hashes, cfg.docHash(t.name))
      modifies Repr
      ensures Valid() && fresh(Repr - old(Repr)) && handlerReplica == old(handlerReplica)
      ensures state == old(state).(docs := EditDocs(cfg, old(state).peer.hashes, old(state).docs, t))
      ensures reply == if FindDoc(old(state).docs, t.name) < |old(state).docs| then Overridden(t.name)
                       else Created(t.name)
    {
      hide Valid;
      Facts();
      var node, i := GetServerDataByName(t.name);
      if node != null {
        reply := Overridden(t.name);
        DatabaseSet(node, node.data.(content := t.content), i);
      } else {
        reply := Created(t.name);
        DatabaseAppend(Doc(t.name, t.content, hashFunctionDocs(t.name), index));
      }
    }

    /** server_edit_document, and the printing of its response. */
    method EditDocument(t: Task) returns (res: Response)
      requires Valid()
      modifies Repr
      ensures Valid() && fresh(Repr - old(Repr)) && handlerReplica == old(handlerReplica)
      ensures state == Edit(cfg, old(state), t)
      ensures res == Response(Label(serverId, handlerReplica), EditOutcome(old(state), t))
    {
      hide Valid;
      Facts();
      ghost var s := state;
      var index := GetReplicaExecutor(hashFunctionDocs(t.name));
      var cached := CacheGet(t.name);
      var reply := EditDatabase(t, index);
      var evicted := CachePut(t.name, t.content, true);
      var out := Outcome(reply, CacheLog(t.name, cached.Some?, evicted));
      Print(out);
      EditIs(cfg, s, t, state, out, cached);
      res := Response(Label(serverId, handlerReplica), out);
    }

    /** One turn of the loop in execute_server_task_queue. */
    method ExecuteTask()
      requires Valid() && state.tasks != []
      modifies Repr
      ensures Valid() && fresh(Repr - old(Repr)) && handlerReplica == old(handlerReplica)
      ensures state == Edit(cfg, old(state), old(state).tasks[0]).(tasks := old(state).tasks[1..])
    {
      hide Valid;
      Facts();
      var t := taskQueue.Peek();
      var res := EditDocument(t);
      PopTask();
    }

    method IsIdle() returns (idle: bool)
      requires Valid()
      ensures idle <==> state.tasks == []
    {
      idle := taskQueue.IsEmpty();
    }

    /** execute_server_task_queue */
    method ExecuteTaskQueue()
      requires Valid()
      modifies Repr
      ensures Valid() && fresh(Repr - old(Repr)) && handlerReplica == old(handlerReplica)
      ensures state == Flush(cfg, old(state))
    {
      hide Valid, Edit, Flush, Drained;
      Facts();
      ghost var s, i := state, 0;
      DrainStart(cfg, s);
      var idle := IsIdle();
      while !idle
        invariant Valid() && fresh(Repr - old(Repr)) && handlerReplica == old(handlerReplica)
        invariant i <= |s.tasks| && (idle <==> i == |s.tasks|)
        invariant Working(s) && Drained(cfg, s, i, state)
        decreases |s.tasks| - i
      {
        DrainStep(cfg, s, i, state);
        ExecuteTask();
        i := i + 1;
        idle := IsIdle();
        DrainEnd(cfg, s, i, state);
      }
      DrainEnd(cfg, s, i, state);
    }

    /** push_task_queue */
    method PushTaskQueue(t: Task)
      requires Valid()
      modifies Repr
      ensures Valid() && fresh(Repr - old(Repr)) && handlerReplica == old(handlerReplica)
      ensures state == Push(old(state), t)
      ensures state.tasks == if |old(state).tasks| < 1000 then old(state).tasks + [t] else old(state).tasks
    {
      hide LruCache.Valid, Queue.Valid, DoublyLinkedList.Valid;
      var size := taskQueue.GetSize();
      if size < TASK_QUEUE_SIZE {
        taskQueue.Push(t);
        state := state.(tasks := taskQueue.contents);
        Repr := Repr + taskQueue.Repr;
      }
    }

    /** server_get_document */
    method GetDocument(n: CString) returns (res: Response)
      requires Valid()
      modifies Repr
      ensures Valid() && fresh(Repr - old(Repr)) && handlerReplica == old(handlerReplica)
      ensures (state, res.outcome) == ServerModel.GetDocument(old(state), n)
      ensures res.server == Label(state.peer.id, handlerReplica)
    {
      hide Valid;
      Facts();
      ghost var s := state;
      var cached := CacheGet(n);
      var out;
      if cached.Some? {
        out := Outcome(Text(cached.value), Hit(n));
        var evicted := CachePut(n, cached.value, false);
      } else {
        Facts();
        var node, i := GetServerDataByName(n);
        if node != null {
          var content := node.data.content;
          var evicted := CachePut(n, content, true);
          out := Outcome(Text(content), CacheLog(n, false, evicted));
        } else {
          out := Outcome(NoText, Fault(n));
        }
      }
      Print(out);
      Facts();
      res := Response(Label(serverId, handlerReplica), out);
    }

    /** server_handle_request */
    method HandleRequest(req: DocRequest, replicaIndex: nat) returns (res: Response)
      requires Valid()
      modifies Repr
      ensures Valid() && fresh(Repr - old(Repr)) && handlerReplica == old(handlerReplica)
      ensures req.EditDoc? ==>
                && state == Push(old(state), Task(req.name, req.content))
                && res == Response(Label(state.peer.id, replicaIndex), Acknowledged(state, req.name))
                && res.outcome.log == QueueSize(|state.tasks|)
                && |state.tasks| == |old(state).tasks| + if |old(state).tasks| < 1000 then 1 else 0
      ensures req.GetDoc? ==>
                && (state, res.outcome) == HandleGet(cfg, old(state), req.name)
                && res.server == Label(state.peer.id, handlerReplica)
    {
      hide Valid;
      match req
      case EditDoc(name, content) =>
        PushTaskQueue(Task(name, content));
        Facts();
        var size := taskQueue.GetSize();
        res := Response(Label(serverId, replicaIndex), Outcome(Queued(name), QueueSize(size)));
      case GetDoc(name) =>
        ExecuteTaskQueue();
        Facts();
        res := GetDocument(name);
    }

    /** One turn of the loop at lines 214-221 of load_balancer.c. */
    method ReindexOne(node: DllNode<Doc>, ghost i: nat) returns (next: DllNode?<Doc>)
      requires Valid() && i < |state.docs| == |localDatabase.nodes| && node == localDatabase.nodes[i]
      modifies Repr
      ensures Valid() && Repr == old(Repr) && localDatabase == old(localDatabase)
      ensures localDatabase.nodes == old(localDatabase.nodes)
      ensures var d := old(state).docs[i];
              state == old(state).(docs := old(state).docs[i := d.(index := LocalNext(old(state).peer.hashes, d.hash))])
      ensures next == if i + 1 < |localDatabase.nodes| then localDatabase.nodes[i + 1] else null
    {
      hide Valid;
      Facts();
      var d := node.data;
      var index := GetAssociatedLabelIndex(d);
      DatabaseSet(node, d.(index := index), i);
      Facts();
      next := localDatabase.GetNext(node, i);
    }

    method FirstDoc() returns (node: DllNode?<Doc>)
      requires Valid()
      ensures |localDatabase.nodes| == |state.docs|
      ensures node == if |state.docs| == 0 then null else localDatabase.nodes[0]
    {
      node := localDatabase.head;
    }

    /** The document at a node, and the node after it. */
    method Visit(node: DllNode<Doc>, ghost i: nat) returns (d: Doc, next: DllNode?<Doc>)
      requires Valid() && i < |state.docs| && |localDatabase.nodes| == |state.docs| && node == localDatabase.nodes[i]
      ensures d == state.docs[i]
      ensures next == if i + 1 < |localDatabase.nodes| then localDatabase.nodes[i + 1] else null
    {
      d := node.data;
      next := localDatabase.GetNext(node, i);
    }

    /** Lines 213-221 of load_balancer.c: every document gets the label that the server's
        own lookup gives. */
    method Reindex()
      requires Valid()
      modifies Repr
      ensures Valid() && Repr == old(Repr)
      ensures state == old(state).(docs := Reindexed(old(state).docs, old(state).peer.hashes))
    {
      hide Valid;
      Facts();
      ghost var s, i := state, 0;
      ghost var target := Reindexed(s.docs, s.peer.hashes);
      MergeStep(target, s.docs, 0);
      var node := FirstDoc();
      while node != null
        invariant Valid() && Repr == old(Repr)
        invariant i <= |s.docs| == |localDatabase.nodes|
        invariant state == s.(docs := Merge(target, s.docs, i))
        invariant node == if i < |s.docs| then localDatabase.nodes[i] else null
        decreases |s.docs| - i
      {
        MergeStep(target, s.docs, i);
        node := ReindexOne(node, i);
        i := i + 1;
      }
      MergeStep(target, s.docs, i);
    }
  }

  /** The first i elements of a, then those of b. */
  ghost function Merge(a: seq<Doc>, b: seq<Doc>, i: nat): seq<Doc>
    requires i <= |a| == |b|
  {
    a[..i] + b[i..]
  }

  lemma MergeStep(a: seq<Doc>, b: seq<Doc>, i: nat)
    requires i <= |a| == |b|
    ensures Merge(a, b, 0) == b && Merge(a, b, |a|) == a
    ensures i < |a| ==> Merge(a, b, i)[i] == b[i] && Merge(a, b, i)[i := a[i]] == Merge(a, b, i + 1)
  {
  }

  lemma EditIs(cfg: Config, s: ServerState, t: Task, r: ServerState, out: Outcome, cached: Option<CString>)
    requires Working(s)
    requires var got := Lru.Get(s.cache, t.name);
             var put := Lru.Put(got.cache, t.name, t.content, true);
             && cached == got.value
             && out == Outcome(if FindDoc(s.docs, t.name) < |s.docs| then Overridden(t.name) else Created(t.name),
                               CacheLog(t.name, cached.Some?, put.evicted))
             && r == s.(docs := EditDocs(cfg, s.peer.hashes, s.docs, t), cache := put.cache,
                        printed := s.printed + [out])
    ensures r == Edit(cfg, s, t) && out == EditOutcome(s, t)
  {
  }

  /** Server s after the first i tasks of its queue were run. */
  ghost predicate Drained(cfg: Config, s: ServerState, i: nat, r: ServerState)
    requires Working(s)
  {
    i <= |s.tasks| && r == RunEdits(cfg, s, s.tasks[..i]).(tasks := s.tasks[i..])
  }

  lemma DrainStart(cfg: Config, s: ServerState)
    requires Working(s)
    ensures Drained(cfg, s, 0, s)
  {
    RunNoEdits(cfg, s);
  }

  lemma DrainStep(cfg: Config, s: ServerState, i: nat, r: ServerState)
    requires Working(s) && Drained(cfg, s, i, r) && i < |s.tasks|
    ensures Working(r) && r.tasks != []
    ensures Drained(cfg, s, i + 1, Edit(cfg, r, r.tasks[0]).(tasks := r.tasks[1..]))
  {
    hide RunEdits, Edit;
    EditIgnoresTasks(cfg, RunEdits(cfg, s, s.tasks[..i]), s.tasks[i], s.tasks[i..]);
    RunOneMore(cfg, s, s.tasks, i);
  }

  lemma DrainEnd(cfg: Config, s: ServerState, i: nat, r: ServerState)
    requires Working(s) && Drained(cfg, s, i, r)
    ensures i <= |s.tasks| && (r.tasks == [] <==> i == |s.tasks|)
    ensures i == |s.tasks| ==> r == Flush(cfg, s)
  {
    hide RunEdits;
    assert s.tasks[..|s.tasks|] == s.tasks;
  }

  lemma EditIgnoresTasks(cfg: Config, s: ServerState, t: Task, q: seq<Task>)
    requires Working(s)
    ensures Edit(cfg, s.(tasks := q), t) == Edit(cfg, s, t).(tasks := q)
  {
  }
}
