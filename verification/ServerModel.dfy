/** What one server of server.c computes, on values. */
module ServerModel {
  import opened Wrappers
  import opened Hashing
  import opened Ring
  import Lru = LruModel

  /** The hash function pointers of the load balancer, and whether it uses virtual
      nodes. */
  datatype Config = Config(serverHash: Word -> Word, docHash: CString -> Word, vnodes: bool)

  /** server_data_t */
  datatype Doc = Doc(name: CString, content: CString, hash: Word, index: nat)

  /** A queued EDIT. */
  datatype Task = Task(name: CString, content: CString)

  type Cache = Lru.Cache<CString, CString>

  datatype Reply =
    | Queued(name: CString)
    | Overridden(name: CString)
    | Created(name: CString)
    | Text(content: CString)
    | NoText

  datatype Log =
    | QueueSize(size: nat)
    | Hit(name: CString)
    | Miss(name: CString)
    | MissEvicting(name: CString, evicted: CString)
    | Fault(name: CString)

  /** A response without the label that is printed with it. */
  datatype Outcome = Outcome(reply: Reply, log: Log)

  /** server_t: its place on the ring, its local database from the head, its task
      queue from the front, its cache, and what it has printed so far for the
      requests that it carried out. */
  datatype ServerState = ServerState(
    peer: Peer,
    docs: seq<Doc>,
    tasks: seq<Task>,
    cache: Cache,
    printed: seq<Outcome>)

  const TASK_QUEUE_SIZE: nat := 1000

  // The local database ---------------------------------------------------------

  /** Position of the first document named n; the length if there is none. */
  function FindDoc(docs: seq<Doc>, n: CString): (i: nat)
    ensures i <= |docs|
    ensures i < |docs| ==> docs[i].name == n
    ensures forall j :: 0 <= j < i ==> docs[j].name != n
  {
    if docs == [] || docs[0].name == n then 0 else 1 + FindDoc(docs[1..], n)
  }

  function Lookup(docs: seq<Doc>, n: CString): Option<CString> {
    var i := FindDoc(docs, n);
    if i < |docs| then Some(docs[i].content) else None
  }

  ghost predicate NamesDistinct(docs: seq<Doc>) {
    forall i, j :: 0 <= i < j < |docs| ==> docs[i].name != docs[j].name
  }

  lemma LookupDoc(docs: seq<Doc>, d: Doc)
    requires NamesDistinct(docs) && d in docs
    ensures Lookup(docs, d.name) == Some(d.content)
    ensures docs[FindDoc(docs, d.name)] == d
  {
    var i :| 0 <= i < |docs| && docs[i] == d;
    var j := FindDoc(docs, d.name);
    assert j <= i;
  }

  lemma LookupNone(docs: seq<Doc>, n: CString)
    ensures Lookup(docs, n).None? <==> forall d :: d in docs ==> d.name != n
  {
    var i := FindDoc(docs, n);
    if i < |docs| {
      assert docs[i] in docs;
    }
  }

  // EDIT -----------------------------------------------------------------------

  /** The database after an edit: overwritten in place, or a new document at the tail
      under the label that the server's own lookup gives. */
  ghost function EditDocs(cfg: Config, hashes: seq<Word>, docs: seq<Doc>, t: Task): seq<Doc>
    requires |hashes| > 0
  {
    var i := FindDoc(docs, t.name);
    if i < |docs| then docs[i := docs[i].(content := t.content)]
    else
      var h := cfg.docHash(t.name);
      docs + [Doc(t.name, t.content, h, LocalNext(hashes, h))]
  }

  function EditCache(c: Cache, t: Task): Lru.PutResult<CString, CString>
    requires c.capacity > 0
  {
    Lru.Put(Lru.Get(c, t.name).cache, t.name, t.content, true)
  }

  function CacheLog(name: CString, hit: bool, evicted: Option<CString>): Log {
    if hit then Hit(name)
    else if evicted.Some? then MissEvicting(name, evicted.value)
    else Miss(name)
  }

  function EditOutcome(s: ServerState, t: Task): Outcome
    requires s.cache.capacity > 0
  {
    Outcome(if FindDoc(s.docs, t.name) < |s.docs| then Overridden(t.name) else Created(t.name),
            CacheLog(t.name, Lru.Has(s.cache, t.name), EditCache(s.cache, t).evicted))
  }

  predicate Working(s: ServerState) {
    |s.peer.hashes| > 0 && s.cache.capacity > 0
  }

  /** server_edit_document */
  ghost function Edit(cfg: Config, s: ServerState, t: Task): (r: ServerState)
    requires Working(s)
    ensures Working(r) && r.peer == s.peer && r.tasks == s.tasks
  {
    s.(docs := EditDocs(cfg, s.peer.hashes, s.docs, t),
       cache := EditCache(s.cache, t).cache,
       printed := s.printed + [EditOutcome(s, t)])
  }

  ghost function RunEdits(cfg: Config, s: ServerState, ts: seq<Task>): (r: ServerState)
    requires Working(s)
    ensures Working(r) && r.peer == s.peer && r.tasks == s.tasks
  {
    if ts == [] then s
    else Edit(cfg, RunEdits(cfg, s, ts[..|ts| - 1]), ts[|ts| - 1])
  }

  /** execute_server_task_queue */
  ghost function Flush(cfg: Config, s: ServerState): (r: ServerState)
    requires Working(s)
    ensures Working(r) && r.peer == s.peer && r.tasks == []
  {
    RunEdits(cfg, s, s.tasks).(tasks := [])
  }

  /** push_task_queue: a full queue drops the request. */
  function Push(s: ServerState, t: Task): ServerState {
    if |s.tasks| < TASK_QUEUE_SIZE then s.(tasks := s.tasks + [t]) else s
  }

  /** The answer to an EDIT, once it has been pushed: the size of the queue. */
  function Acknowledged(s: ServerState, n: CString): Outcome {
    Outcome(Queued(n), QueueSize(|s.tasks|))
  }

  // GET ------------------------------------------------------------------------

  /** server_get_document */
  function GetDocument(s: ServerState, n: CString): (r: (ServerState, Outcome))
    requires s.cache.capacity > 0
    ensures r.0.docs == s.docs && r.0.tasks == s.tasks && r.0.peer == s.peer
    ensures r.0.cache.capacity == s.cache.capacity
  {
    var got := Lru.Get(s.cache, n);
    var result :=
      match got.value
      case Some(text) =>
        (Lru.Put(got.cache, n, text, false).cache, Outcome(Text(text), Hit(n)))
      case None =>
        var i := FindDoc(s.docs, n);
        if i < |s.docs| then
          var put := Lru.Put(got.cache, n, s.docs[i].content, true);
          (put.cache, Outcome(Text(s.docs[i].content), CacheLog(n, false, put.evicted)))
        else
          (got.cache, Outcome(NoText, Fault(n)));
    (s.(cache := result.0, printed := s.printed + [result.1]), result.1)
  }

  /** server_handle_request of a GET */
  ghost function HandleGet(cfg: Config, s: ServerState, n: CString): (r: (ServerState, Outcome))
    requires Working(s)
    ensures Working(r.0) && r.0.peer == s.peer && r.0.tasks == []
  {
    GetDocument(Flush(cfg, s), n)
  }

  // What the server promises ---------------------------------------------------

  /** Cached names are in the database, with the same content. */
  ghost predicate Coherent(c: Cache, docs: seq<Doc>) {
    forall e :: e in c.entries ==> Lookup(docs, e.key) == Some(e.value)
  }

  ghost predicate Sound(s: ServerState) {
    && Working(s)
    && NamesDistinct(s.docs)
    && Lru.Ok(s.cache)
    && Coherent(s.cache, s.docs)
    && |s.tasks| <= TASK_QUEUE_SIZE
  }

  /** The content of the last edit of n in a queue. */
  function LastEdit(ts: seq<Task>, n: CString): Option<CString> {
    if ts == [] then None
    else if ts[|ts| - 1].name == n then Some(ts[|ts| - 1].content)
    else LastEdit(ts[..|ts| - 1], n)
  }

  /** What is readable under n: the last pending edit, else the stored content. */
  function ReadAt(s: ServerState, n: CString): Option<CString> {
    var e := LastEdit(s.tasks, n);
    if e.Some? then e else Lookup(s.docs, n)
  }

  lemma FindByNames(a: seq<Doc>, b: seq<Doc>, n: CString)
    requires |a| == |b| && forall i :: 0 <= i < |a| ==> a[i].name == b[i].name
    ensures FindDoc(a, n) == FindDoc(b, n)
  {
    var i, j := FindDoc(a, n), FindDoc(b, n);
    assert i < |a| ==> b[i].name == n;
    assert j < |a| ==> a[j].name == n;
  }

  lemma FindInAppended(docs: seq<Doc>, d: Doc, n: CString)
    ensures FindDoc(docs + [d], n) ==
            if FindDoc(docs, n) == |docs| && d.name != n then |docs| + 1 else FindDoc(docs, n)
  {
    var all := docs + [d];
    var i, j := FindDoc(docs, n), FindDoc(all, n);
    assert i < |docs| ==> all[i].name == n;
    assert j < |docs| ==> docs[j].name == n;
    assert all[|docs|] == d;
  }

  lemma EditDocsReads(cfg: Config, hashes: seq<Word>, docs: seq<Doc>, t: Task)
    requires |hashes| > 0 && NamesDistinct(docs)
    ensures NamesDistinct(EditDocs(cfg, hashes, docs, t))
    ensures forall n :: Lookup(EditDocs(cfg, hashes, docs, t), n) ==
                        if n == t.name then Some(t.content) else Lookup(docs, n)
  {
    var after := EditDocs(cfg, hashes, docs, t);
    forall n
      ensures Lookup(after, n) == if n == t.name then Some(t.content) else Lookup(docs, n)
    {
      if FindDoc(docs, t.name) < |docs| {
        FindByNames(docs, after, n);
      } else {
        FindInAppended(docs, after[|docs|], n);
      }
    }
  }

  /** A get followed by a put of the same key is one put. */
  lemma PutAfterGet(c: Cache, k: CString, v: CString, evict: bool)
    requires Lru.Ok(c)
    ensures Lru.Put(Lru.Get(c, k).cache, k, v, evict).cache == Lru.Put(c, k, v, evict).cache
    ensures Lru.Put(Lru.Get(c, k).cache, k, v, evict).evicted == Lru.Put(c, k, v, evict).evicted
  {
    if Lru.Has(c, k) {
      var rest := Lru.DropKey(c.entries, k);
      var was := Lru.Entry(k, Lru.Find(c.entries, k).value);
      Lru.DropKeyFacts(c.entries, k);
      Lru.DropAbsent(rest, k);
      assert (rest + [was])[..|rest|] == rest;
      assert Lru.DropKey(rest + [was], k) == rest;
      assert Lru.Keys(rest + [was])[|rest|] == k;
    }
  }

  lemma PutKeepsCoherent(c: Cache, docs: seq<Doc>, after: seq<Doc>, k: CString, v: CString, evict: bool)
    requires Lru.Ok(c) && Coherent(c, docs)
    requires Lookup(after, k) == Some(v)
    requires forall n :: n != k ==> Lookup(after, n) == Lookup(docs, n)
    ensures Coherent(Lru.Put(c, k, v, evict).cache, after)
  {
    var r := Lru.Put(c, k, v, evict).cache;
    forall e | e in r.entries
      ensures Lookup(after, e.key) == Some(e.value)
    {
      Lru.PutEntries(c, k, v, evict, e);
    }
  }

  lemma EditKeepsSound(cfg: Config, s: ServerState, t: Task)
    requires Sound(s)
    ensures Sound(Edit(cfg, s, t))
  {
    EditDocsReads(cfg, s.peer.hashes, s.docs, t);
    PutAfterGet(s.cache, t.name, t.content, true);
    Lru.PutKeepsOk(s.cache, t.name, t.content, true);
    PutKeepsCoherent(s.cache, s.docs, Edit(cfg, s, t).docs, t.name, t.content, true);
  }

  lemma {:induction false} RunEditsSound(cfg: Config, s: ServerState, ts: seq<Task>)
    requires Sound(s)
    ensures Sound(RunEdits(cfg, s, ts))
    ensures forall n :: Lookup(RunEdits(cfg, s, ts).docs, n) ==
                        if LastEdit(ts, n).Some? then LastEdit(ts, n) else Lookup(s.docs, n)
  {
    if ts != [] {
      var init, t := ts[..|ts| - 1], ts[|ts| - 1];
      RunEditsSound(cfg, s, init);
      var before := RunEdits(cfg, s, init);
      EditKeepsSound(cfg, before, t);
      EditDocsReads(cfg, s.peer.hashes, before.docs, t);
    }
  }

  /** Emptying the queue changes nothing that is readable. */
  lemma FlushReads(cfg: Config, s: ServerState)
    requires Sound(s)
    ensures Sound(Flush(cfg, s))
    ensures forall n :: Lookup(Flush(cfg, s).docs, n) == ReadAt(s, n)
  {
    RunEditsSound(cfg, s, s.tasks);
  }

  /** A GET answers with the last pending edit of the name, else with the stored
      content, else with nothing, whatever the cache holds and however small it is. */
  lemma GetReads(cfg: Config, s: ServerState, n: CString)
    requires Sound(s)
    ensures var (s', out) := HandleGet(cfg, s, n);
            && Sound(s')
            && (forall m :: ReadAt(s', m) == ReadAt(s, m))
            && out.reply == (if ReadAt(s, n).Some? then Text(ReadAt(s, n).value) else NoText)
  {
    FlushReads(cfg, s);
    var f := Flush(cfg, s);
    var c := f.cache;
    if Lru.Has(c, n) {
      var v := Lru.Find(c.entries, n).value;
      assert Lru.Entry(n, v) in c.entries;
      PutAfterGet(c, n, v, false);
      Lru.PutKeepsOk(c, n, v, false);
      PutKeepsCoherent(c, f.docs, f.docs, n, v, false);
    } else if Lookup(f.docs, n).Some? {
      var v := Lookup(f.docs, n).value;
      Lru.PutKeepsOk(c, n, v, true);
      PutKeepsCoherent(c, f.docs, f.docs, n, v, true);
    }
  }

  /** What the response to an edit reports is what happened: Overridden exactly when the
      name was stored, Hit exactly when it was cached, an eviction exactly when another key
      left the cache, which is then the key reported, and Miss exactly when the name was
      not cached and no key left. */
  lemma EditReportsTruly(cfg: Config, s: ServerState, t: Task)
    requires Sound(s)
    ensures var r, out := Edit(cfg, s, t), EditOutcome(s, t);
            && r.printed == s.printed + [out]
            && out.reply == (if Lookup(s.docs, t.name).Some? then Overridden(t.name) else Created(t.name))
            && (out.log == Hit(t.name) <==> Lru.Has(s.cache, t.name))
            && (forall x :: out.log == MissEvicting(t.name, x) <==> Lru.Has(s.cache, x) && !Lru.Has(r.cache, x))
            && (out.log == Miss(t.name) <==>
                !Lru.Has(s.cache, t.name) && forall x :: Lru.Has(s.cache, x) ==> Lru.Has(r.cache, x))
            && Lru.Has(r.cache, t.name)
  {
    PutAfterGet(s.cache, t.name, t.content, true);
    Lru.PutEffect(s.cache, t.name, t.content, true);
  }

  /** The same of a GET, on a server whose queue is flushed: besides, Fault exactly when
      there is no such document. */
  lemma GetReportsTruly(s: ServerState, n: CString)
    requires Sound(s)
    ensures var (r, out) := GetDocument(s, n);
            && (out.log == Hit(n) <==> Lru.Has(s.cache, n))
            && (out.log == Fault(n) <==> Lookup(s.docs, n).None?)
            && (forall x :: out.log == MissEvicting(n, x) <==> Lru.Has(s.cache, x) && !Lru.Has(r.cache, x))
            && (out.log == Miss(n) <==>
                && !Lru.Has(s.cache, n) && Lookup(s.docs, n).Some?
                && forall x :: Lru.Has(s.cache, x) ==> Lru.Has(r.cache, x))
            && (Lru.Has(r.cache, n) <==> Lookup(s.docs, n).Some?)
            && r.printed == s.printed + [out]
  {
    if Lru.Has(s.cache, n) {
      var v := Lru.Find(s.cache.entries, n).value;
      assert Lru.Entry(n, v) in s.cache.entries;
      PutAfterGet(s.cache, n, v, false);
      Lru.PutEffect(s.cache, n, v, false);
    } else if Lookup(s.docs, n).Some? {
      Lru.PutEffect(s.cache, n, Lookup(s.docs, n).value, true);
    }
  }

  /** An edit leaves every document at its position, under its name and its label, and puts
      a new one behind them. */
  lemma EditKeepsPositions(cfg: Config, s: ServerState, t: Task)
    requires Working(s)
    ensures var after := Edit(cfg, s, t).docs;
            && |after| == |s.docs| + (if Lookup(s.docs, t.name).None? then 1 else 0)
            && (forall i :: 0 <= i < |s.docs| ==> after[i] == s.docs[i].(content := after[i].content))
            && (Lookup(s.docs, t.name).None? ==> after[|s.docs|].name == t.name)
  {
  }

  /** A flush prints one response for each queued edit, in their order, each that of the
      edit run after the ones before it. */
  lemma {:induction false} RunEditsPrint(cfg: Config, s: ServerState, ts: seq<Task>)
    requires Working(s)
    ensures var out := RunEdits(cfg, s, ts).printed;
            && |out| == |s.printed| + |ts| && out[..|s.printed|] == s.printed
            && forall i :: 0 <= i < |ts| ==> out[|s.printed| + i] == EditOutcome(RunEdits(cfg, s, ts[..i]), ts[i])
  {
    hide Edit, EditOutcome;
    if ts != [] {
      var n := |ts| - 1;
      var init, out := ts[..n], RunEdits(cfg, s, ts).printed;
      RunEditsPrint(cfg, s, init);
      EditPrints(cfg, RunEdits(cfg, s, init), ts[n]);
      forall i | 0 <= i < |ts|
        ensures out[|s.printed| + i] == EditOutcome(RunEdits(cfg, s, ts[..i]), ts[i])
      {
        if i < n {
          assert init[..i] == ts[..i] && init[i] == ts[i];
        }
      }
    }
  }

  lemma EditPrints(cfg: Config, s: ServerState, t: Task)
    requires Working(s)
    ensures Edit(cfg, s, t).printed == s.printed + [EditOutcome(s, t)]
  {
  }

  /** An EDIT is readable afterwards exactly when the queue has room for it, or when
      it changes nothing. */
  lemma PushReads(s: ServerState, t: Task)
    ensures forall n :: n != t.name ==> ReadAt(Push(s, t), n) == ReadAt(s, n)
    ensures ReadAt(Push(s, t), t.name) == Some(t.content) <==>
            |s.tasks| < 1000 || ReadAt(s, t.name) == Some(t.content)
    ensures |s.tasks| < 1000 ==> Push(s, t) == s.(tasks := s.tasks + [t])
    ensures |s.tasks| >= 1000 ==> Push(s, t) == s
  {
    assert (s.tasks + [t])[..|s.tasks|] == s.tasks;
  }

  // Laziness -------------------------------------------------------------------

  lemma RunNoEdits(cfg: Config, s: ServerState)
    requires Working(s)
    ensures RunEdits(cfg, s, []) == s
  {
  }

  lemma RunOneMore(cfg: Config, s: ServerState, ts: seq<Task>, i: nat)
    requires Working(s) && i < |ts|
    ensures RunEdits(cfg, s, ts[..i + 1]) == Edit(cfg, RunEdits(cfg, s, ts[..i]), ts[i])
  {
    assert ts[..i + 1][..i] == ts[..i];
  }

  lemma FlushTwice(cfg: Config, s: ServerState)
    requires Working(s) && s.tasks == []
    ensures Flush(cfg, s) == s
  {
  }

  /** Pushing then flushing is flushing then editing. */
  lemma FlushAfterPush(cfg: Config, s: ServerState, t: Task)
    requires Working(s) && |s.tasks| < TASK_QUEUE_SIZE
    ensures Flush(cfg, Push(s, t)) == Edit(cfg, Flush(cfg, s), t)
  {
    var ts := s.tasks + [t];
    assert ts[..|s.tasks|] == s.tasks;
    RunEditsIgnoresTasks(cfg, s, s.tasks, ts);
    RunEditsIgnoresTasks(cfg, s, s.tasks, []);
  }

  lemma {:induction false} RunEditsIgnoresTasks(cfg: Config, s: ServerState, ts: seq<Task>, q: seq<Task>)
    requires Working(s)
    ensures RunEdits(cfg, s.(tasks := q), ts) == RunEdits(cfg, s, ts).(tasks := q)
  {
    if ts != [] {
      RunEditsIgnoresTasks(cfg, s, ts[..|ts| - 1], q);
    }
  }

  /** A document handed over by a server that leaves. */
  function Deliver(s: ServerState, d: Doc): ServerState {
    s.(docs := [d] + s.docs)
  }

  /** A document delivered while edits of other names are pending: flushing before or
      after gives the same database, in the same order, the same cache, and the same
      answers and logs. */
  lemma EditAfterDeliver(cfg: Config, s: ServerState, t: Task, d: Doc)
    requires Working(s) && t.name != d.name
    ensures Edit(cfg, Deliver(s, d), t) == Deliver(Edit(cfg, s, t), d)
  {
    assert ([d] + s.docs)[1..] == s.docs;
    assert FindDoc([d] + s.docs, t.name) == 1 + FindDoc(s.docs, t.name);
    assert EditDocs(cfg, s.peer.hashes, [d] + s.docs, t) == [d] + EditDocs(cfg, s.peer.hashes, s.docs, t);
  }

  lemma {:induction false} EditsAfterDeliver(cfg: Config, s: ServerState, ts: seq<Task>, d: Doc)
    requires Working(s)
    requires forall t :: t in ts ==> t.name != d.name
    ensures RunEdits(cfg, Deliver(s, d), ts) == Deliver(RunEdits(cfg, s, ts), d)
  {
    hide Edit, Deliver;
    if ts != [] {
      var init, t := ts[..|ts| - 1], ts[|ts| - 1];
      assert ts == init + [t];
      EditsAfterDeliver(cfg, s, init, d);
      EditAfterDeliver(cfg, RunEdits(cfg, s, init), t, d);
    }
  }

  lemma FlushAfterDeliver(cfg: Config, s: ServerState, d: Doc)
    requires Working(s)
    requires forall t :: t in s.tasks ==> t.name != d.name
    ensures Flush(cfg, Deliver(s, d)) == Deliver(Flush(cfg, s), d)
  {
    EditsAfterDeliver(cfg, s, s.tasks, d);
  }
}
