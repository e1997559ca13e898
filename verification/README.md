# A consistent-hash document store, modelled and proved in Dafny

The repository is a distributed document store in C. A load balancer places servers, with one
or three labels each, on a ring of 32-bit hashes. A document belongs to the label that follows
its own hash. Each server has a local database, a queue of EDITs that are run later, and an LRU
cache. ADD_SERVER and REMOVE_SERVER move documents between servers.

`dafny verify dfyconfig.toml` verifies the project.

## How it is built

There are two layers.

**Values.** What each operation computes, as functions on immutable states, and the theorems:

| file | about |
|---|---|
| `Hashing.dfy` | `hash_uint`, `hash_string` on 32-bit words, every wrap-around written out |
| `Ring.dfy` | the successor of a hash on the circle, and what joins and leaves change |
| `LruModel.dfy` | the cache as a list from least to most recently used, over whole runs |
| `ServerModel.dfy` | one server: queue, database, cache, what is readable |
| `ClusterModel.dfy` | the list of servers, the four requests, the invariant `Inv` |
| `Migration.dfy`, `Removal.dfy` | ADD_SERVER and REMOVE_SERVER |
| `Membership.dfy` | which labels and cache size a server has, and how much a cache holds |
| `System.dfy` | the state machine, and the one atomic map that it refines |
| `Exceptions.dfy` | runs that reach the two requests which do not do what their names say |
| `Placement.dfy`, `Laziness.dfy`, `CacheSize.dfy` | where documents are; that queues and caches cannot be seen |

**Objects.** The C code works by changing things in place. It becomes classes with the same fields
and loops on the heap (`LinkedList.dfy`, `Queue.dfy`, `HashTable.dfy`, `LruCache.dfy`, `Server.dfy`,
`LoadBalancer.dfy`). Each method is proved to turn its abstract value into exactly what the function
of the first layer gives, so that every theorem there holds of the objects. `Requests.dfy`
puts the layers together: a load balancer made by its constructor and fed a list of requests
answers every GET with the content of the latest EDIT that was not dropped.

## Main results

- `System.RunRefines`, `System.FetchAnswersLatestWrite`, `Requests.ApplyRequests`: over every run,
  the whole system is one map from names to contents, given the EDITs that full queues did not drop.
  A run with at most 1000 EDITs drops none (`System.FewWritesNoneDropped`).
- `System.StepRefinesIff`: which single requests break that. Exactly two do: an EDIT that finds 1000
  edits pending and changes something, and an ADD_SERVER on a ring with a single label whose hash
  is also the hash of a stored or pending document. Both are reachable: `Exceptions.FullQueueDropsWrite`
  and `Exceptions.AddHidesDocument` give the runs, the latter with the real hash functions (server 38121
  alone, a document named "abtb"), and `Exceptions.AddShadowsDocument` shows a stale answer that follows.
  `Migration.AddKeepsReadsIff` and `Migration.AddKeepsInvIff` prove the second condition exact.
- `Placement.AddMovesExactly`, `Placement.AddThenRemove`, `Placement.PlacementBySetOfIds`,
  `Placement.AddConserves`, `Placement.RemoveConserves`: which documents move, and that none is lost
  or copied.
- `Laziness.LazinessUnobservable`: running every EDIT on arrival gives the same databases, caches,
  answers and logs.
- `LruModel.Inclusion`, `LruModel.Recency`, `LruModel.EvictsLeastRecent`,
  `CacheSize.LargerCachesHitMore`: what the caches hold, and what their sizes change.
- `Membership.RunMembers`, `Membership.CacheHoldsItsCapacity`, `Membership.CacheHoldsNoMore`: which labels
  and cache sizes servers have over every run, and how clients see the size.
- `Hashing.HashUintBijective`: no two labels share a place on the ring.
- `LoadBalancers.LoadBalancer.GetNextReplica`, `LoadBalancers.MigrateDocs`, `LruCaches.LruCache.Put`,
  `LinkedLists.DoublyLinkedList.Unlink`: the pointer code does what the functions say.

## Where the code and its documentation differ

The model follows the code.

- `lru_cache_put` returns true when the key was already there (lru_cache.c:109-112); the comment at
  lru_cache.h:38-39 says the opposite.
- `push_task_queue` drops an EDIT when 1000 are pending (server.c:294-295), and
  `server_handle_request` acknowledges it all the same (server.c:210-222).
- README.md of the repository says that all documents of a removed server go to the one server next
  to it. The code looks the next label up for each document separately, from the label that the document was
  filed under (load_balancer.c:262-266); with three labels several servers take over.

## Model

| member | source | states |
|---|---|---|
| Hashing.HashUintBijective | utils.c:7-16 | `hash_uint` is a bijection on 32-bit words: an explicit inverse undoes it on both sides, for every word |
| Hashing.XorShiftInvolution | utils.c:11-13 | the step `(x >> 16) ^ x` undoes itself |
| Hashing.MultiplierInverse | utils.c:11-12 | multiplication by 0x45d9f3b modulo 2^32 is undone by 0x119de1f3, and the other way round |
| Hashing.HashUintInjective | utils.c:7-16 | two words have equal hashes exactly if they are equal |
| Hashing.SentinelPreimage | utils.c:7-16 | exactly one word hashes to 0xFFFFFFFF, and it is larger than every label |
| Hashing.ComputeHashString | utils.c:18-28 | the loop computes the specification function of the whole string, with wrap-around at every addition |
| Hashing.HashStringIsLinear | utils.c:18-28 | the hash of the empty string is 5381, and each byte multiplies by 33 and adds itself, modulo 2^32 |
| Hashing.NameAbtb | utils.c:18-28 | the name "abtb" hashes to 2090070142 |
| Hashing.Server38121Hash | utils.c:7-16 | server label 38121 hashes to the same 2090070142 |
| ClusterModel.HashUintIsGood | utils.c:7-16 | with `hash_uint`, labels up to 299999 have distinct hashes, none of them the sentinel of the searches: what the ring proofs assume is a theorem |
| ClusterModel.RingIsDistinct | load_balancer.h:11 | under such a hash function and distinct ids no two labels of a ring share a hash, so the equal-hash branch of a migration is dead |
| Ring.NextIsSuccessorOrLeast | load_balancer.c:26-109 | a label is the one found if and only if it is the least (hash, server id) strictly above the hash, or the least of all when none is above |
| Ring.NextUnique | load_balancer.c:26-109 | the label that follows a hash is unique |
| Ring.NextIgnoresListOrder | load_balancer.c:50-98 | the label found does not depend on the order of the server list |
| Ring.MovesIffCaptured | load_balancer.c:151-205 | the three tests of the code let a document leave its label exactly when the new label takes its hash from it, unless the hash is that of the only label |
| Ring.MovesOnTie | load_balancer.c:189-191 | the third test settles equal hashes as the search does: of two servers on one point every hash moves exactly if the search then finds the newcomer |
| Ring.NextAfterJoin | load_balancer.c:124-211 | after a join every hash belongs to the newcomer's nearest label if one of its labels was nearer than the old owner, and to the old owner otherwise, for any position of one to three labels |
| Ring.NextAfterLeave | load_balancer.c:262-266 | on the remaining ring the successor of a hash is the successor of the hash of the label that owned it, wrap-around and neighbouring labels of the same server included |
| Ring.LocalAgreesWithRing | server.c:12-50 | whenever a server owns a hash, its own lookup gives the replica index that the ring gives |
| LoadBalancers.LoadBalancer.GetNextReplica | load_balancer.c:26-109 | one pass with running minima finds the server and replica index of `Ring.Next`; on an empty list it leaves null and 0 |
| LoadBalancers.SearchFindsNext | load_balancer.c:100-108 | the least label above the hash, or else the least of all, is the one that the ring defines |
| LoadBalancers.LeastAboveStep | load_balancer.c:57-95 | one turn of the search keeps the running minimum a minimum of what was visited, ties broken by server id |
| LoadBalancers.LoadBalancer.constructor | load_balancer.c:9-17 | a new load balancer holds no server and the given hash functions |
| LoadBalancers.LoadBalancer.AddServer | load_balancer.c:111-224 | the list of servers becomes exactly what the specification of ADD_SERVER gives: donors flushed and cut label by label, the newcomer at the head with its indexes recomputed, an empty cache of the size asked for, and the label hashes of id, 100000 + id and 200000 + id with virtual nodes, of id alone without |
| Membership.AddServerJoins | load_balancer.c:19-24 | the same of the specification; every other server is as before, or was flushed and lost documents, with its labels, cache size and printed responses kept |
| Membership.RemoveServerKeeps | load_balancer.c:226-275 | the servers that remain keep everything besides their documents |
| Membership.RunMembers | server.c:193-204 | over every run each server on the ring has exactly its three labels, or its one without virtual nodes, and the cache size of the latest ADD_SERVER of its id |
| Membership.CacheHoldsItsCapacity | server.c:193-193 | a cache of size c holds c documents: on a new server up to c EDITs (at most 1000) are followed by hits only, in whatever order and however often their documents are asked for |
| Membership.CacheHoldsNoMore | server.c:193-193 | and no more: after EDITs of c + 1 different documents the first one is missed, and the log names the second one as evicted for it |
| LoadBalancers.LoadBalancer.MigrateLabelInto | load_balancer.c:128-210 | one label of the joining server: its successor is flushed and cut, the others stay as they were |
| LoadBalancers.MigrateDocs | load_balancer.c:139-209 | the walk that unlinks its current node visits every original document once, at its position, and terminates: donor and newcomer end with the documents that stay, and those that leave, in the order that the code leaves them in |
| LoadBalancers.HandOver | load_balancer.c:156-169 | one document leaves database and cache of the donor and becomes the head of the newcomer's database |
| LoadBalancers.LoadBalancer.InsertServer | load_balancer.c:222 | the new server becomes the head of the list, the others keep their states |
| LoadBalancers.LoadBalancer.FindServerById | load_balancer.c:228-245 | the position of the first server with the id, or that there is none |
| LoadBalancers.LoadBalancer.RemoveServer | load_balancer.c:226-275 | the list of servers becomes what the specification of REMOVE_SERVER gives; an unknown id changes nothing |
| LoadBalancers.LoadBalancer.RehomeAll | load_balancer.c:253-272 | each document of the removed server goes to the head of the database of the label that follows its old one, until none is left or no server remains |
| LoadBalancers.LoadBalancer.ForwardRequest | load_balancer.c:277-286 | the owner by document hash handles the request, under the label 100000 * replica + id printed with the response; an EDIT logs the queue size afterwards, one more below 1000 and the same otherwise; no other server changes |
| Migration.SplitLookup | load_balancer.c:151-205 | after a split every name is found on exactly one side, with the old content |
| Migration.LeavesIffTaken | load_balancer.c:151-188 | a well placed document leaves exactly when the label takes its hash |
| Migration.CaptureOwner | load_balancer.c:131-138 | the server that is flushed for a label owns every hash that the label takes, so no edit of a moving name stays behind in a queue |
| Migration.TurnKeepsMidInv | load_balancer.c:124-211 | one label keeps the invariant of the loop, although it is looked up on the old ring: what earlier labels took is on the newcomer, the rest where it was, every name readable |
| Migration.AddReads | load_balancer.c:111-224 | what every name reads as after ADD_SERVER: what it read as before, except that names on the only label of the ring read as nothing |
| Migration.AddKeepsReadsIff | load_balancer.c:153-174 | ADD_SERVER keeps everything readable if and only if no stored or pending document has the hash of the only label of a single-label ring |
| Migration.AddKeepsInvIff | load_balancer.c:111-224 | under the same condition, and only then, every document and pending edit is afterwards where the new ring puts it |
| Migration.NewcomerOk | load_balancer.c:213-221 | the last loop files every moved document under the label that owns its hash on the new ring, whichever label brought it |
| Migration.AddToEmpty | load_balancer.c:135-135 | the first server joins with an empty database |
| Removal.RemoveReads | load_balancer.c:226-275 | removing a server while another remains changes nothing that is readable |
| Removal.RemoveRefines | load_balancer.c:226-275 | REMOVE_SERVER keeps the invariant; it changes nothing readable, except that removing the last server makes every name read as nothing |
| Removal.RemoveDefined | load_balancer.c:263 | in every state with the invariant the label index of each document of a removed server is within its label array |
| Removal.GoneIsHomeless | load_balancer.c:262-266 | every document of the flushed leaving server goes to the same label by the hash of its old label as by its own hash, and no other server holds its name |
| Removal.RehomeOk | load_balancer.c:253-272 | sending such documents there keeps the invariant, and each of their names then reads as its document, all others as before |
| ClusterModel.EditRefines | server.c:292-296 | EDIT keeps the invariant; the name reads as the new content if and only if its owner's queue has room or it did so already; no other name changes |
| ClusterModel.GetRefines | server.c:208-230 | GET keeps the invariant and everything readable, and answers with what is readable under the name |
| ClusterModel.NamesUnique | load_balancer.c:158-161 | in every state with the invariant a name is stored at most once in the whole system |
| ClusterModel.FlushKeepsPlaced | server.c:56-95 | edits run late still file new documents under the label that owns them |
| System.Run | main.c:116-151 | every run of callable requests, EDITs that are dropped included, keeps the invariant as long as no ADD_SERVER finds a document on the only label: documents and pending edits are where the ring puts them, names distinct, caches coherent and within capacity |
| System.StepRefinesIff | main.c:116-151 | a callable request takes the system where the atomic map goes if and only if its owner's queue has room (EDIT), or nothing is on the only label (ADD_SERVER), or the EDIT writes what is there |
| System.RunRefines | main.c:116-151 | over every such run the set of servers and what every name reads as are those of the atomic map that is given the requests which were not dropped |
| System.FetchAnswersLatestWrite | main.c:116-151 | after every such run GET answers with the content of the latest EDIT that was not dropped, since the ring was last empty, or with nothing |
| System.FewWritesNoneDropped | server.c:292-296 | a run with at most 1000 EDITs drops none, however they fall on the servers |
| System.AnswersIndependentOfCaches | server.c:129-183 | what GET answers depends neither on cache capacities nor on virtual nodes nor on the hash functions, as long as these do not make queues drop different EDITs |
| CacheSize.AnswersIgnoreCapacities | server.c:129-183 | with the same hash functions it does not depend on the capacities even when queues overflow |
| Exceptions.AddHidesDocument | load_balancer.c:153-174 | a concrete run with the real hash functions, no virtual nodes: server 38121 alone, "abtb" written, any other server added, and the document reads as nothing |
| Exceptions.AddShadowsDocument | load_balancer.c:153-174 | that run goes on: "abtb" is written again, the other server is removed, and GET answers with the first content out of the cache, although the map holds the second; the database holds the name twice |
| Exceptions.BurstQueues | server.c:292-296 | any 1000 EDITs after the first ADD_SERVER are all queued, in their order |
| Exceptions.FullQueueDropsWrite | server.c:292-296 | after any 1000 EDITs one more changes nothing: the atomic map is left behind unless that EDIT repeats what its name reads as, and GET answers with the latest of the 1000 |
| Requests.Serve | main.c:116-151 | one turn of the loop on the heap is one step of the state machine; its answer is that of the atomic map, its label is the one whose hash owns the hash of the document, and its log says how many edits are pending, or whether the owner had the document cached, or that there is none |
| Requests.ServeAll | main.c:116-151 | the loop over any such list of requests ends in the state that the state machine gives, and each response is right in that sense at its point of the run |
| Requests.ApplyRequests | main.c:108-153 | from `init_load_balancer` with `hash_uint`, `hash_string` and the given flag on, every response is right, its answer that of the one map given the EDITs that were not dropped, and of the map given all of them if there are at most 1000 |
| Placement.StoredIffReadable | load_balancer.c:26-109 | after its flush a server stores a document if and only if that is what is readable and the ring files it there: the databases are a function of the ring and of the map |
| Placement.AddMovesExactly | load_balancer.c:124-222 | whatever the ring: a document is on the newcomer afterwards, under the right index and nowhere else, exactly if its owner changed and its hash was not that of the only label; otherwise it is where it was and nowhere else |
| Placement.PlacementBySetOfIds | load_balancer.c:26-109 | two systems with the same server ids file every name on the same server and replica |
| Placement.AddThenRemove | load_balancer.c:111-275 | adding a server and removing it again gives every server back its documents with their indexes, those on the only label included |
| Placement.StoredOnce | load_balancer.c:138-209 | each readable pair of name and content is stored once in the whole system, nothing else is |
| Placement.ImageSplit | load_balancer.c:139-209 | what stays with a donor and what is handed over are together what there was, each document as often as before |
| Placement.AddConserves | load_balancer.c:111-224 | ADD_SERVER conserves the system-wide multiset of (name, content), in any state of the servers and for any id in range |
| Placement.RemoveConserves | load_balancer.c:250-272 | REMOVE_SERVER conserves it, unless it takes the last server away |
| Servers.Server.constructor | server.c:185-206 | a new server has an empty cache of the size asked for, one hash for each label 100000 * r + id, and empty database and queue |
| Servers.Server.GetReplicaExecutor | server.c:12-50 | the loop finds the replica of `Ring.LocalNext` |
| Servers.Server.GetAssociatedLabelIndex | server.c:379-410 | the second lookup finds the same replica as the first, for every hash |
| Servers.Server.GetServerDataByName | server.c:356-371 | the node of the first document of that name, or null exactly if there is none |
| Servers.Server.EditDocument | server.c:52-127 | database, cache, and printed answer and log after one edit are those of the specification |
| Servers.Server.ExecuteTaskQueue | server.c:232-244 | the drained queue has been run from front to back, and is empty |
| Servers.Server.PushTaskQueue | server.c:292-296 | the edit is queued last if fewer than 1000 are pending, and dropped otherwise |
| Servers.Server.GetDocument | server.c:129-183 | answer, log, cache and its order after a hit, a miss, a miss with eviction and a fault |
| Servers.Server.HandleRequest | server.c:208-230 | an EDIT is queued and acknowledged with the number of edits pending afterwards, one more below 1000 and the same otherwise; a GET flushes first |
| Servers.Server.Reindex | load_balancer.c:213-221 | every document gets the index of the server's own lookup, nothing else changes |
| ServerModel.GetReads | server.c:129-183 | a GET answers with the last pending edit, else the stored content, else nothing, whatever the cache holds; nothing readable changes and the cache stays coherent |
| ServerModel.FlushReads | server.c:232-244 | emptying the queue changes nothing readable, keeps names distinct and the cache coherent and within capacity |
| ServerModel.EditKeepsSound | server.c:69-99 | after an edit every cached name is in the database with equal content |
| ServerModel.EditReportsTruly | server.c:69-124 | an edit reports Overridden exactly when the name was stored, Hit exactly when it was cached, an eviction exactly when a key left the cache, naming that key, and a plain Miss exactly when it was not cached and no key left |
| ServerModel.EditKeepsPositions | server.c:71-95 | an edit leaves every document at its position, under its name and label, and puts a new one behind them |
| ServerModel.RunEditsPrint | server.c:232-244 | a flush prints one response for each queued edit, in their order, each that of the edit run after those before it |
| ServerModel.GetReportsTruly | server.c:138-180 | a GET reports Hit exactly when the name was cached, Fault exactly when it is not stored, an evicted key exactly when it left the cache, and a plain Miss exactly when the name was stored, not cached, and no key left; the name is cached afterwards exactly when it is stored |
| ServerModel.PushReads | server.c:292-296 | a pushed edit is readable if and only if the queue has room or it changes nothing |
| ServerModel.PutAfterGet | server.c:68-99 | a get before a put of the same key leaves the cache and the eviction of the put alone |
| ServerModel.FlushAfterPush | server.c:208-244 | pushing then flushing equals flushing then editing, in database, cache, answers and logs |
| ServerModel.FlushAfterDeliver | load_balancer.c:266-267 | a document delivered by a leaving server before or after a flush of other names gives the same state |
| Laziness.MigrateCommutes | load_balancer.c:137-209 | migrating a label commutes with flushing every queue |
| Laziness.RemoveCommutes | load_balancer.c:249-272 | removing a server commutes with flushing every queue, although its documents arrive between queueing and flushing |
| Laziness.StepCommutes | server.c:208-244 | every request commutes with flushing every queue |
| Laziness.LazinessUnobservable | server.c:208-244 | over every run, flushing at the end gives the databases in order, caches in order, answers and logs of the system that ran each EDIT on arrival, less the dropped ones; what removed servers had printed is the same too |
| CacheSize.GetKeepsSmaller | server.c:129-183 | a server with a larger cache hits whenever the smaller one does, and stays ahead |
| CacheSize.LargerCachesHitMore | server.c:129-183 | every run of the whole system is possible with larger caches too, gives the same answers and at least the hits |
| LruModel.PutKeepsOk | lru_cache.c:54-113 | a put keeps keys distinct, and the size within capacity if and only if it may evict, or the key is there, or there is room |
| LruModel.PutEffect | lru_cache.c:54-113 | exactly the key put, and the old keys without the reported eviction, are cached afterwards |
| LruModel.RunOk | lru_cache.c:54-156 | over every run keys stay distinct and the size within capacity |
| LruModel.Inclusion | lru_cache.c:54-156 | over every run of puts, gets and removes the smaller cache's list is an order-preserving part of the larger one's, behind by at most the difference of the capacities |
| LruModel.RecentIsByLastTouch | lru_cache.c:100-107 | the recency order lists exactly the touched keys, once each, by increasing last touch |
| LruModel.Recency | lru_cache.c:54-134 | without removes the cache holds the last min(capacity, distinct) touched keys, in order of last touch |
| LruModel.EvictsLeastRecent | lru_cache.c:61-73 | every reported eviction is the cached key whose last touch is the oldest |
| LruModel.NeverStale | lru_cache.c:54-156 | over every run each cached value is that of the latest put of its key, not removed since |
| LruCaches.LruCache.constructor | lru_cache.c:10-20 | an empty cache of the given capacity |
| LruCaches.LruCache.Put | lru_cache.c:54-113 | list, table, eviction and result are those of the specification, and table and list stay in bijection |
| LruCaches.LruCache.Get | lru_cache.c:115-134 | a hit returns the value and becomes the most recent entry, a miss changes nothing |
| LruCaches.LruCache.Remove | lru_cache.c:136-156 | the key leaves list and table, the order of the others stays |
| LruCaches.LruCache.IsFull | lru_cache.c:37-43 | true exactly when the size has reached the capacity |
| LruCaches.LruCache.EvictHead | lru_cache.c:61-73 | the head, the least recently used entry, leaves list and table |
| LruCaches.LruCache.Detach | lru_cache.c:75-90 | the node of a key is cut out of the circle wherever it is |
| LruCaches.LruCache.Append | lru_cache.c:92-107 | the new node is the tail and the table points at it |
| LruCaches.LinkedWithout | lru_cache.c:136-156 | taking one node and its key out keeps each table entry pointing at the one node of its key |
| LruCaches.DropKeyAt | lru_cache.c:75-90 | with distinct keys, dropping a key cuts out exactly its position |
| HashTables.HashTable.constructor | hash_table.c:9-26 | an empty table of hmax separate buckets |
| HashTables.HashTable.HasKey | hash_table.c:28-48 | agrees with the finite map, under any collisions |
| HashTables.HashTable.Get | hash_table.c:50-71 | agrees with the finite map, under any collisions |
| HashTables.HashTable.RemoveEntry | hash_table.c:73-108 | the map without the key; size, buckets and the rest follow |
| HashTables.HashTable.Put | hash_table.c:110-136 | the map with the key set, and whether it was there before |
| HashTables.TableAfterAdd | hash_table.c:132 | a new entry at the head of its bucket keeps each key once, in the bucket of its hash only |
| HashTables.TableAfterRemove | hash_table.c:73-108 | so does cutting one entry out |
| LinkedLists.LinkedList.AddNth | linked_list.c:26-62 | the chain is the old sequence with the element at that position, the end for positions past it |
| LinkedLists.LinkedList.RemoveNth | linked_list.c:65-95 | the node at that position leaves and is returned, the last one for positions past the end |
| LinkedLists.DoublyLinkedList.GetNth | linked_list.c:133-144 | the walk goes round the circle: node n modulo the size |
| LinkedLists.DoublyLinkedList.GetNext | linked_list.c:282-291 | the next node, null after the last |
| LinkedLists.DoublyLinkedList.AddNth | linked_list.c:146-196 | the circle is the old sequence with one fresh node at that position, the end for positions past it |
| LinkedLists.DoublyLinkedList.AddTail | linked_list.c:198-223 | one fresh node after the old ones |
| LinkedLists.DoublyLinkedList.Unlink | linked_list.c:243-257 | a node is cut out at any position, head and last node included, the others keep order and data |
| LinkedLists.DoublyLinkedList.RemoveNth | linked_list.c:236-260 | the node at that position leaves and is returned, the last one for positions past the end, null on an empty list |
| Queues.Queue.Push | queue.c:31-33 | the element is behind all others |
| Queues.Queue.Pop | queue.c:27-29 | the front leaves |
| Queues.Queue.Peek | queue.c:23-25 | the front element, and nothing changes |

## Left out

- malloc and free, leaks, and all `*_free` functions, `clear_queue`, `free_server`: there is no C heap; unlinking is modelled.
- main.c except its loop over requests: file input, `fgets`, quoting, argument parsing.
- Printing, `sprintf` and buffer sizes: answers and logs are values.
- The label printed for a flushed edit (`handler_replica`, server.c:61-62): it names whatever triggered the flush. The answers and logs themselves are kept, in `printed`, and for removed servers in `Laziness.Printed`.
- List sizes, cache capacities and loop counters are unbounded naturals. Hashes, labels and positions on the ring are 32-bit. The one index that wraps, `server_data_index--` at 0 (load_balancer.c:169), is -1 for a moment.
- System.Run: ends with None at an ADD_SERVER that finds a document on the only label, because the invariant is false from then on (`Migration.AddKeepsInvIff`); what that one request does is proved (`Migration.AddReads`, `Placement.AddMovesExactly`, `Placement.AddConserves`), and one longer run (`Exceptions.AddShadowsDocument`).
- Duplicate server ids, ids above 99999, zero cache capacities, and documents requested on an empty ring: excluded by `requires`, as the code does not check them.
- The label hashes of a server are a sequence, not an array: they are written once, in the constructor.
- `replica_index` inside a queued request: it is stored and never read again.
- C strings are sequences of non-zero bytes; `strcmp` is equality, copies are values.
- `print_*`, `number_digits`, `get_request_type*`, the Makefile: easy members.
