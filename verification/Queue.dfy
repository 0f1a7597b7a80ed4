/** The upload job queue as a step system: the uploads table and the staged objects survive crashes; the
    channel, the recovery list and the goroutines of a process do not. Goroutines are the request
    handlers of `createUpload` and the workers running `process`; every statement may fail, or commit
    without the caller learning of it. The invariant is about all goroutines and all queued ids of all
    live processes together. */
module Queue {
  import opened Statements

  type Id = nat

  const CAPACITY := 256

  datatype Status = Pending | Processing | Done | Error

  /** What parsing a staged CSV file yields: its number of rows, never zero, or an error. */
  datatype File = Rows(n: nat) | Unparseable

  datatype ObjectKey = NoKey | Key(k: nat)

  /** A row of the uploads table, with the number of ledger rows that reference it. The last three are
      history: what was uploaded, how many extractions committed, and how many of those were cut off
      from their mark-done by a crash or a store failure. */
  datatype Upload = Upload(status: Status, key: ObjectKey, txnCount: nat, ledgerRows: nat,
                           file: File, attempts: nat, lost: nat)

  /** The last two are history: the key each upload was created with, and the uploads whose purge was cut
      off, by a crash, a refused purge, or a mark-done that committed without the worker learning of it. */
  datatype Db = Db(uploads: map<Id, Upload>, objects: map<nat, File>, keyOf: map<Id, nat>, unpurged: set<Id>)

  const EMPTY := Db(map[], map[], map[], {})

  datatype Goroutine =
    | Idle
    | Stored(k: nat, file: File)                    // handler: object put
    | Created(id: Id)                               // handler: row inserted
    | Picked(id: Id)                                // worker: job received
    | Loaded(id: Id, key: ObjectKey)                // worker: row read
    | Marked(id: Id, key: ObjectKey)                // worker: marked processing
    | Inserted(id: Id, key: ObjectKey, n: nat)      // worker: rows committed
    | Failing(id: Id)                               // worker: extraction failed
    | Purging(id: Id, key: ObjectKey)               // worker: marked done

  /** One process. It serves requests only once `recovery` has been enqueued. */
  datatype Process = Process(channel: seq<Id>, recovery: seq<Id>, gos: seq<Goroutine>)

  datatype Step =
    | RecoverNext
    | Store(g: nat, k: nat, file: File)
    | Create(g: nat, id: Id, outcome: Outcome)
    | Submit(g: nat)
    | Take(g: nat)
    | Work(g: nat, outcome: Outcome)
    | Delete(ids: set<Id>)

  // ---------- Steps of one process ----------

  /** `Enqueue`: non-blocking, dropped when the channel is full. */
  function Enqueue(channel: seq<Id>, id: Id): seq<Id> {
    if |channel| < CAPACITY then channel + [id] else channel
  }

  function PutUpload(db: Db, id: Id, u: Upload): Db {
    db.(uploads := db.uploads[id := u])
  }

  function Unpurged(db: Db, id: Id): Db {
    db.(unpurged := db.unpurged + {id})
  }

  /** The row `createUpload` inserts for a stored object. */
  function WithUpload(db: Db, id: Id, k: nat, file: File): Db {
    db.(uploads := db.uploads[id := Upload(Pending, Key(k), 0, 0, file, 0, 0)], keyOf := db.keyOf[id := k])
  }

  predicate Unfinished(u: Upload) {
    u.status == Pending || u.status == Processing
  }

  /** The staged file the worker would parse and may insert: the object is there, it parses, and the
      upload row still exists for the rows to reference. */
  predicate Insertable(db: Db, id: Id, key: ObjectKey) {
    key.Key? && key.k in db.objects && db.objects[key.k].Rows? && id in db.uploads
  }

  /** One statement of `process`, on the database and the worker running it. */
  function WorkOn(db: Db, w: Goroutine, o: Outcome): (Db, Goroutine) {
    var known := !w.Idle? && !w.Stored? && w.id in db.uploads;
    match w
    case Picked(id) =>
      if o != Ok || !known || db.uploads[id].status == Done then (db, Idle)
      else (db, Loaded(id, db.uploads[id].key))
    case Loaded(id, key) =>
      var db' := if known && o != Refused then PutUpload(db, id, db.uploads[id].(status := Processing)) else db;
      (db', if o == Ok then Marked(id, key) else Idle)
    case Marked(id, key) =>
      if !Insertable(db, id, key) || o == Refused then (db, Failing(id))
      else
        var n, u := db.objects[key.k].n, db.uploads[id];
        var u' := u.(ledgerRows := u.ledgerRows + n, attempts := u.attempts + 1);
        if o == Ok then (PutUpload(db, id, u'), Inserted(id, key, n))
        else (PutUpload(db, id, u'.(lost := u.lost + 1)), Failing(id))
    case Inserted(id, key, n) =>
      var db' :=
        if !known then db
        else if o == Refused then PutUpload(db, id, db.uploads[id].(lost := db.uploads[id].lost + 1))
        else PutUpload(db, id, db.uploads[id].(status := Done, txnCount := n, key := NoKey));
      (if o == Lost then Unpurged(db', id) else db', if o == Ok then Purging(id, key) else Idle)
    case Failing(id) =>
      (if known && o != Refused then PutUpload(db, id, db.uploads[id].(status := Error)) else db, Idle)
    case Purging(id, key) =>
      (if o == Refused then Unpurged(db, id) else if key.Key? then db.(objects := db.objects - {key.k}) else db, Idle)
    case _ => (db, w)
  }

  predicate IsWorker(w: Goroutine) {
    w.Picked? || w.Loaded? || w.Marked? || w.Inserted? || w.Failing? || w.Purging?
  }

  predicate Serving(p: Process) {
    p.recovery == []
  }

  function SetGo(p: Process, g: nat, w: Goroutine): Process
    requires g < |p.gos|
  {
    p.(gos := p.gos[g := w])
  }

  ghost predicate Next(db: Db, p: Process, step: Step, db': Db, p': Process) {
    match step
    case RecoverNext =>
      && p.recovery != [] && db' == db
      && p' == p.(recovery := p.recovery[1..], channel := Enqueue(p.channel, p.recovery[0]))
    case Store(g, k, file) =>
      && Serving(p) && g < |p.gos| && p.gos[g] == Idle
      && k !in db.objects && (forall i :: i in db.keyOf ==> db.keyOf[i] != k)
      && (file.Rows? ==> file.n > 0)
      && db' == db.(objects := db.objects[k := file]) && p' == SetGo(p, g, Stored(k, file))
    case Create(g, id, o) =>
      && g < |p.gos| && p.gos[g].Stored? && id !in db.keyOf
      && db' == (if o == Refused then db else WithUpload(db, id, p.gos[g].k, p.gos[g].file))
      && p' == SetGo(p, g, if o == Ok then Created(id) else Idle)
    case Submit(g) =>
      && g < |p.gos| && p.gos[g].Created? && db' == db
      && p' == SetGo(p, g, Idle).(channel := Enqueue(p.channel, p.gos[g].id))
    case Take(g) =>
      && g < |p.gos| && p.gos[g] == Idle && p.channel != [] && db' == db
      && p' == SetGo(p, g, Picked(p.channel[0])).(channel := p.channel[1..])
    case Work(g, o) =>
      && g < |p.gos| && IsWorker(p.gos[g])
      && db' == WorkOn(db, p.gos[g], o).0 && p' == SetGo(p, g, WorkOn(db, p.gos[g], o).1)
    case Delete(ids) =>
      Serving(p) && db' == db.(uploads := db.uploads - ids) && p' == p
  }

  // ---------- First in, first out ----------

  /** The upload a statement offers to the channel. */
  function Offered(p: Process, step: Step): seq<Id> {
    match step
    case RecoverNext => p.recovery[..if p.recovery == [] then 0 else 1]
    case Submit(g) => if g < |p.gos| && p.gos[g].Created? then [p.gos[g].id] else []
    case _ => []
  }

  /** The uploads the channel accepted in the first `n` statements: those offered while it held fewer than
      256. */
  function Accepted(ps: seq<Process>, steps: seq<Step>, n: nat): seq<Id>
    requires n <= |ps| && n <= |steps|
  {
    if n == 0 then []
    else Accepted(ps, steps, n - 1) + if |ps[n - 1].channel| < 256 then Offered(ps[n - 1], steps[n - 1]) else []
  }

  /** The uploads workers picked up in the first `n` statements. */
  function TakenUp(ps: seq<Process>, steps: seq<Step>, n: nat): seq<Id>
    requires n < |ps| && n <= |steps|
  {
    if n == 0 then []
    else
      var (p, step) := (ps[n], steps[n - 1]);
      TakenUp(ps, steps, n - 1) + if step.Take? && step.g < |p.gos| && p.gos[step.g].Picked? then [p.gos[step.g].id] else []
  }

  ghost predicate NextAt(dbs: seq<Db>, ps: seq<Process>, steps: seq<Step>, i: nat)
    requires i < |steps| && |dbs| == |ps| == |steps| + 1
  {
    Next(dbs[i], ps[i], steps[i], dbs[i + 1], ps[i + 1])
  }

  /** What the channel holds after a statement, and what was picked up. */
  lemma ChannelStep(db: Db, p: Process, step: Step, db': Db, p': Process)
    requires Next(db, p, step, db', p') && |p.channel| <= 256
    ensures var took := if step.Take? && p'.gos[step.g].Picked? then [p'.gos[step.g].id] else [];
            p.channel + (if |p.channel| < 256 then Offered(p, step) else []) == took + p'.channel
    ensures |p'.channel| <= 256
  {
    if step.Take? {
      assert p.channel == [p.channel[0]] + p.channel[1..];
    }
  }

  lemma Rearranged<T>(a: seq<T>, x: seq<T>, b: seq<T>, c: seq<T>, y: seq<T>, d: seq<T>)
    requires a == b + c && c + x == y + d
    ensures a + x == b + y + d
  {
    assert a + x == b + (c + x);
    assert b + (y + d) == b + y + d;
  }

  /** While a process lives, whatever else happens to the database: the channel never holds more than 256
      uploads, and the workers pick them up in the order in which it accepted them, none skipped. */
  lemma {:induction false} FirstInFirstOut(dbs: seq<Db>, ps: seq<Process>, steps: seq<Step>, n: nat)
    requires |dbs| == |ps| == |steps| + 1 && n < |ps| && ps[0].channel == []
    requires forall i: nat :: i < |steps| ==> NextAt(dbs, ps, steps, i)
    ensures Accepted(ps, steps, n) == TakenUp(ps, steps, n) + ps[n].channel
    ensures |ps[n].channel| <= 256
    decreases n
  {
    if n > 0 {
      FirstInFirstOut(dbs, ps, steps, n - 1);
      assert NextAt(dbs, ps, steps, n - 1);
      var p, step, p' := ps[n - 1], steps[n - 1], ps[n];
      ChannelStep(dbs[n - 1], p, step, dbs[n], p');
      Rearranged(Accepted(ps, steps, n - 1), if |p.channel| < 256 then Offered(p, step) else [],
                 TakenUp(ps, steps, n - 1), p.channel,
                 if step.Take? && p'.gos[step.g].Picked? then [p'.gos[step.g].id] else [], p'.channel);
    }
  }

  // ---------- Crash and restart ----------

  /** Ids of unfinished uploads, each once: the recovery scan. */
  ghost predicate Scan(db: Db, ids: seq<Id>) {
    && (forall i, j :: 0 <= i < j < |ids| ==> ids[i] != ids[j])
    && (forall id :: id in ids <==> id in db.uploads && Unfinished(db.uploads[id]))
  }

  ghost predicate Extracting(gos: seq<Goroutine>, id: Id) {
    exists g :: 0 <= g < |gos| && gos[g].Inserted? && gos[g].id == id
  }

  ghost predicate PurgeDue(gos: seq<Goroutine>, id: Id) {
    exists g :: 0 <= g < |gos| && gos[g].Purging? && gos[g].id == id
  }

  /** A crash cuts off every extraction that was about to mark its upload done, and every purge. */
  ghost function AfterCrash(db: Db, gos: seq<Goroutine>): Db {
    db.(uploads := map id | id in db.uploads ::
          db.uploads[id].(lost := db.uploads[id].lost + if Extracting(gos, id) then 1 else 0),
        unpurged := db.unpurged + set g | 0 <= g < |gos| && gos[g].Purging? :: gos[g].id)
  }

  ghost predicate AllIdle(gos: seq<Goroutine>) {
    forall g :: 0 <= g < |gos| ==> gos[g] == Idle
  }

  const DOWN := Process([], [], [])

  /** A process that has just started, with a worker and a request handler at least, and has run its scan,
      or whose scan failed. */
  ghost predicate Booted(db: Db, p: Process) {
    && p.channel == [] && AllIdle(p.gos) && |p.gos| >= 2
    && (p.recovery == [] || Scan(db, p.recovery))
  }

  // ---------- Who holds what ----------

  /** The ids queued in any process, and all goroutines one after another. */
  datatype Pool = Pool(queued: multiset<Id>, gos: seq<Goroutine>)

  /** What a goroutine may have to itself: a job, or an object not yet in the table. */
  datatype Claim = Job(id: Id) | Object(k: nat)

  function Holds(w: Goroutine): multiset<Claim> {
    match w
    case Idle => multiset{}
    case Stored(k, _) => multiset{Object(k)}
    case _ => multiset{Job(w.id)}
  }

  function GoBag(gos: seq<Goroutine>): multiset<Claim> {
    if gos == [] then multiset{} else GoBag(gos[..|gos| - 1]) + Holds(gos[|gos| - 1])
  }

  /** How often an id is held across the channels, the recovery lists and the goroutines. */
  function Held(q: Pool, id: Id): nat {
    q.queued[id] + GoBag(q.gos)[Job(id)]
  }

  lemma GoBagLast(gos: seq<Goroutine>, w: Goroutine)
    ensures GoBag(gos + [w]) == GoBag(gos) + Holds(w)
  {
    assert (gos + [w])[..|gos|] == gos;
  }

  lemma Regroup(a: seq<Goroutine>, b: seq<Goroutine>)
    requires b != []
    ensures a + b == a + b[..|b| - 1] + [b[|b| - 1]]
  {}

  lemma {:induction false} GoBagConcat(a: seq<Goroutine>, b: seq<Goroutine>)
    ensures GoBag(a + b) == GoBag(a) + GoBag(b)
    decreases |b|
  {
    if b == [] {
      assert a + b == a;
    } else {
      var b', w := b[..|b| - 1], b[|b| - 1];
      GoBagConcat(a, b');
      GoBagLast(a + b', w);
      Regroup(a, b);
    }
  }

  lemma GoBagAt(a: seq<Goroutine>, w: Goroutine, b: seq<Goroutine>)
    ensures GoBag(a + [w] + b) == GoBag(a) + Holds(w) + GoBag(b)
  {
    GoBagConcat(a + [w], b);
    GoBagLast(a, w);
  }

  lemma GoBagUpdate(gos: seq<Goroutine>, g: nat, w: Goroutine)
    requires g < |gos|
    ensures Holds(gos[g]) <= GoBag(gos)
    ensures GoBag(gos[g := w]) == GoBag(gos) - Holds(gos[g]) + Holds(w)
  {
    var a, b := gos[..g], gos[g + 1..];
    assert gos == a + [gos[g]] + b && gos[g := w] == a + [w] + b;
    GoBagAt(a, gos[g], b);
    GoBagAt(a, w, b);
  }

  lemma {:induction false} GoBagIdle(gos: seq<Goroutine>)
    requires AllIdle(gos)
    ensures GoBag(gos) == multiset{}
    decreases |gos|
  {
    if gos != [] {
      GoBagIdle(gos[..|gos| - 1]);
    }
  }

  /** Two different goroutines with the same claim are counted twice. */
  lemma HeldByTwo(gos: seq<Goroutine>, g: nat, h: nat, c: Claim)
    requires g < |gos| && h < |gos| && g != h && Holds(gos[g]) == Holds(gos[h]) == multiset{c}
    ensures GoBag(gos)[c] >= 2
  {
    GoBagUpdate(gos, g, Idle);
    GoBagUpdate(gos[g := Idle], h, Idle);
  }

  lemma HeadBag(s: seq<Id>)
    requires s != []
    ensures multiset(s) == multiset(s[1..]) + multiset{s[0]}
  {
    assert s == [s[0]] + s[1..];
  }

  lemma {:induction false} DistinctBag(s: seq<Id>, id: Id)
    requires forall i, j :: 0 <= i < j < |s| ==> s[i] != s[j]
    ensures multiset(s)[id] <= 1
    decreases |s|
  {
    if s != [] {
      HeadBag(s);
      DistinctBag(s[1..], id);
      if s[0] == id {
        assert id !in s[1..];
        assert id !in multiset(s[1..]);
      }
    }
  }

  // ---------- The invariant ----------

  /** Each upload is held at most once, and each stored object by one handler. */
  ghost predicate HeldOnce(q: Pool) {
    (forall id :: Held(q, id) <= 1) && forall k :: GoBag(q.gos)[Object(k)] <= 1
  }

  ghost predicate Live(db: Db, id: Id) {
    id in db.keyOf && (id in db.uploads ==> Unfinished(db.uploads[id]))
  }

  ghost predicate LiveAs(db: Db, id: Id, status: Status) {
    id in db.keyOf && (id in db.uploads ==> db.uploads[id].status == status)
  }

  /** What is queued, or held by a goroutine that has not marked it done, is unfinished, or gone. */
  ghost predicate GoInv(db: Db, w: Goroutine) {
    match w
    case Idle => true
    case Stored(k, file) =>
      && k in db.objects && db.objects[k] == file && (file.Rows? ==> file.n > 0)
      && forall i :: i in db.keyOf ==> db.keyOf[i] != k
    case Created(id) => LiveAs(db, id, Pending)
    case Picked(id) => Live(db, id)
    case Loaded(id, key) => Live(db, id) && key == Key(db.keyOf[id])
    case Marked(id, key) => LiveAs(db, id, Processing) && key == Key(db.keyOf[id])
    case Inserted(id, key, n) =>
      && LiveAs(db, id, Processing) && key == Key(db.keyOf[id])
      && (id in db.uploads ==> db.uploads[id].file == Rows(n))
    case Failing(id) => LiveAs(db, id, Processing)
    case Purging(id, key) =>
      && LiveAs(db, id, Done) && key == Key(db.keyOf[id])
      && (id in db.uploads ==> id !in db.unpurged)
  }

  ghost predicate GosInv(db: Db, gos: seq<Goroutine>) {
    forall g :: 0 <= g < |gos| ==> GoInv(db, gos[g])
  }

  ghost predicate QueuedInv(db: Db, queued: multiset<Id>) {
    forall id :: id in queued ==> Live(db, id)
  }

  ghost predicate KeysDiffer(db: Db) {
    && (forall i, j :: i in db.keyOf && j in db.keyOf && db.keyOf[i] == db.keyOf[j] ==> i == j)
    && db.uploads.Keys <= db.keyOf.Keys && db.unpurged <= db.keyOf.Keys
  }

  /** Whether a worker has committed the upload's rows and not yet marked it, or has yet to purge its file. */
  datatype Stage = Stage(extracting: bool, purging: bool)

  ghost function StageOf(gos: seq<Goroutine>, id: Id): Stage {
    Stage(Extracting(gos, id), PurgeDue(gos, id))
  }

  /** The file of an upload that is not done is staged; that of a done one only if its purge is due or was
      cut off. */
  ghost predicate StagedInv(db: Db, id: Id, purging: bool)
    requires id in db.uploads && id in db.keyOf
  {
    var (u, k) := (db.uploads[id], db.keyOf[id]);
    if u.status == Done then u.key == NoKey && (k in db.objects <==> purging || id in db.unpurged)
    else u.key == Key(k) && k in db.objects && db.objects[k] == u.file && id !in db.unpurged
  }

  /** The conservation law of one upload, and where its staged file is. */
  ghost predicate UploadInv(db: Db, id: Id, stage: Stage)
    requires id in db.uploads && id in db.keyOf
  {
    var u := db.uploads[id];
    && (u.file.Rows? ==> u.file.n > 0)
    && (if u.file.Rows? then u.ledgerRows == u.attempts * u.file.n else u.attempts == 0 && u.ledgerRows == 0)
    && StagedInv(db, id, stage.purging)
    && (u.status == Pending ==> u.attempts == 0)
    && (if u.status == Done then u.file == Rows(u.txnCount) && u.attempts == u.lost + 1
        else u.attempts == u.lost + if stage.extracting then 1 else 0)
  }

  ghost predicate UploadsInv(db: Db, gos: seq<Goroutine>)
    requires db.uploads.Keys <= db.keyOf.Keys
  {
    forall id :: id in db.uploads ==> UploadInv(db, id, StageOf(gos, id))
  }

  ghost predicate Inv(db: Db, q: Pool) {
    HeldOnce(q) && QueuedInv(db, q.queued) && GosInv(db, q.gos) && KeysDiffer(db) && UploadsInv(db, q.gos)
  }

  // ---------- Steps of the pool ----------

  /** A statement of some process, as the pool sees it. Which ids a full channel drops is left open. */
  ghost predicate PoolNext(db: Db, q: Pool, step: Step, db': Db, q': Pool) {
    match step
    case RecoverNext =>
      db' == db && q'.gos == q.gos && q'.queued <= q.queued
    case Store(g, k, file) =>
      && g < |q.gos| && q.gos[g] == Idle
      && k !in db.objects && (forall i :: i in db.keyOf ==> db.keyOf[i] != k) && (file.Rows? ==> file.n > 0)
      && db' == db.(objects := db.objects[k := file]) && q' == q.(gos := q.gos[g := Stored(k, file)])
    case Create(g, id, o) =>
      && g < |q.gos| && q.gos[g].Stored? && id !in db.keyOf
      && db' == (if o == Refused then db else WithUpload(db, id, q.gos[g].k, q.gos[g].file))
      && q' == q.(gos := q.gos[g := if o == Ok then Created(id) else Idle])
    case Submit(g) =>
      && g < |q.gos| && q.gos[g].Created? && db' == db
      && q'.gos == q.gos[g := Idle] && q'.queued <= q.queued + multiset{q.gos[g].id}
    case Take(g) =>
      && g < |q.gos| && q.gos[g] == Idle && db' == db
      && exists id :: q.queued == q'.queued + multiset{id} && q'.gos == q.gos[g := Picked(id)]
    case Work(g, o) =>
      && g < |q.gos| && IsWorker(q.gos[g])
      && db' == WorkOn(db, q.gos[g], o).0 && q' == q.(gos := q.gos[g := WorkOn(db, q.gos[g], o).1])
    case Delete(ids) =>
      db' == db.(uploads := db.uploads - ids) && q' == q
  }

  // ---------- Preservation: the bag ----------

  lemma HoldsAtMostOnce(q: Pool, g: nat, h: nat)
    requires HeldOnce(q) && g < |q.gos| && h < |q.gos|
    requires Holds(q.gos[g]) == Holds(q.gos[h]) && Holds(q.gos[g]) != multiset{}
    ensures g == h
  {
    var c := if q.gos[g].Stored? then Object(q.gos[g].k) else Job(q.gos[g].id);
    assert GoBag(q.gos)[c] <= 1 by {
      assert c.Job? ==> Held(q, c.id) <= 1;
    }
    if g != h {
      HeldByTwo(q.gos, g, h, c);
    }
  }

  lemma NotQueued(q: Pool, g: nat)
    requires HeldOnce(q) && g < |q.gos| && !q.gos[g].Idle? && !q.gos[g].Stored?
    ensures q.gos[g].id !in q.queued
  {
    GoBagUpdate(q.gos, g, Idle);
    assert Held(q, q.gos[g].id) <= 1;
  }

  /** A goroutine moves on and passes at most its own id to the queue, or takes one from it. */
  lemma BagMoves(q: Pool, g: nat, w': Goroutine, q': Pool)
    requires HeldOnce(q) && g < |q.gos| && q'.gos == q.gos[g := w']
    requires forall id :: q'.queued[id] + Holds(w')[Job(id)] <= q.queued[id] + Holds(q.gos[g])[Job(id)]
    requires forall k :: Holds(w')[Object(k)] <= Holds(q.gos[g])[Object(k)]
    ensures HeldOnce(q')
  {
    GoBagUpdate(q.gos, g, w');
    forall id ensures Held(q', id) <= 1 {
      assert Held(q, id) <= 1;
    }
    forall k ensures GoBag(q'.gos)[Object(k)] <= 1 {
      assert GoBag(q.gos)[Object(k)] <= 1;
    }
  }

  /** A goroutine without a job claims something nobody holds. */
  lemma BagClaims(q: Pool, g: nat, w': Goroutine)
    requires HeldOnce(q) && g < |q.gos| && (q.gos[g].Idle? || q.gos[g].Stored?)
    requires w'.Stored? ==> GoBag(q.gos)[Object(w'.k)] == 0
    requires w'.Created? ==> Held(q, w'.id) == 0
    requires w'.Idle? || w'.Stored? || w'.Created?
    ensures HeldOnce(q.(gos := q.gos[g := w']))
  {
    GoBagUpdate(q.gos, g, w');
    var q' := q.(gos := q.gos[g := w']);
    forall id ensures Held(q', id) <= 1 {
      assert Held(q, id) <= 1;
    }
    forall k ensures GoBag(q'.gos)[Object(k)] <= 1 {
      assert GoBag(q.gos)[Object(k)] <= 1;
    }
  }

  // ---------- Preservation: work ----------

  /** What a worker's statement can change. */
  lemma WorkEffect(db: Db, w: Goroutine, o: Outcome)
    requires IsWorker(w)
    ensures var (db', w') := WorkOn(db, w, o);
            && db'.keyOf == db.keyOf && db'.uploads.Keys == db.uploads.Keys
            && (forall j :: j in db.uploads && j != w.id ==> db'.uploads[j] == db.uploads[j])
            && (w' == Idle || (IsWorker(w') && w'.id == w.id))
            && (db'.objects == db.objects || (w.Purging? && w.key.Key? && db'.objects == db.objects - {w.key.k}))
            && db.unpurged <= db'.unpurged <= db.unpurged + {w.id}
  {}

  /** The worker's own obligations, after its statement. */
  lemma WorkKeepsSelf(db: Db, q: Pool, g: nat, o: Outcome)
    requires Inv(db, q) && g < |q.gos| && IsWorker(q.gos[g])
    ensures GoInv(WorkOn(db, q.gos[g], o).0, WorkOn(db, q.gos[g], o).1)
  {
    var w := q.gos[g];
    assert GoInv(db, w);
    if w.id in db.uploads {
      assert UploadInv(db, w.id, StageOf(q.gos, w.id));
    }
  }

  /** A goroutine that holds another upload, or none, is not disturbed. */
  lemma WorkKeepsOther(db: Db, q: Pool, g: nat, o: Outcome, h: nat)
    requires Inv(db, q) && g < |q.gos| && IsWorker(q.gos[g]) && h < |q.gos| && h != g
    ensures GoInv(WorkOn(db, q.gos[g], o).0, q.gos[h])
  {
    WorkEffect(db, q.gos[g], o);
    assert GoInv(db, q.gos[g]) && GoInv(db, q.gos[h]);
    if !q.gos[h].Idle? && !q.gos[h].Stored? {
      if q.gos[h].id == q.gos[g].id {
        HoldsAtMostOnce(q, g, h);
      }
    }
  }

  /** What one goroutine contributes to the stage of an upload. */
  function StageAt(w: Goroutine, id: Id): Stage {
    Stage(w.Inserted? && w.id == id, w.Purging? && w.id == id)
  }

  function Either(a: Stage, b: Stage): Stage {
    Stage(a.extracting || b.extracting, a.purging || b.purging)
  }

  const NO_STAGE := Stage(false, false)

  lemma StageAfter(gos: seq<Goroutine>, g: nat, w': Goroutine, id: Id)
    requires g < |gos| && forall h :: 0 <= h < |gos| && h != g ==> StageAt(gos[h], id) == NO_STAGE
    ensures StageOf(gos[g := w'], id) == StageAt(w', id)
    ensures StageOf(gos, id) == StageAt(gos[g], id)
  {
    var gos' := gos[g := w'];
    assert gos'[g] == w';
    assert forall h :: 0 <= h < |gos| && h != g ==> gos'[h] == gos[h];
  }

  lemma StageElsewhere(gos: seq<Goroutine>, g: nat, w': Goroutine, id: Id)
    requires g < |gos| && StageAt(gos[g], id) == StageAt(w', id) == NO_STAGE
    ensures StageOf(gos[g := w'], id) == StageOf(gos, id)
  {
    if h :| 0 <= h < |gos| && gos[h].Inserted? && gos[h].id == id {
      assert gos[g := w'][h] == gos[h];
    }
    if h :| 0 <= h < |gos| && gos[h].Purging? && gos[h].id == id {
      assert gos[g := w'][h] == gos[h];
    }
  }

  /** One more committed extraction adds one more copy of the file's rows. */
  lemma OneMoreAttempt(a: nat, n: nat)
    ensures (a + 1) * n == a * n + n
  {}

  /** The statement of the only worker that holds the upload. */
  lemma WorkOnUpload(db: Db, w: Goroutine, o: Outcome)
    requires IsWorker(w) && w.id in db.uploads && KeysDiffer(db) && GoInv(db, w) && UploadInv(db, w.id, StageAt(w, w.id))
    ensures var (db', w') := WorkOn(db, w, o); UploadInv(db', w.id, StageAt(w', w.id))
  {
    var u := db.uploads[w.id];
    if u.file.Rows? {
      OneMoreAttempt(u.attempts, u.file.n);
    }
  }

  lemma WorkKeepsUpload(db: Db, q: Pool, g: nat, o: Outcome)
    requires Inv(db, q) && g < |q.gos| && IsWorker(q.gos[g]) && q.gos[g].id in db.uploads
    ensures var (db', w') := WorkOn(db, q.gos[g], o);
            UploadInv(db', q.gos[g].id, StageOf(q.gos[g := w'], q.gos[g].id))
  {
    var w := q.gos[g];
    assert GoInv(db, w) && UploadInv(db, w.id, StageOf(q.gos, w.id));
    forall h | 0 <= h < |q.gos| && h != g ensures StageAt(q.gos[h], w.id) == NO_STAGE {
      if StageAt(q.gos[h], w.id) != NO_STAGE {
        HoldsAtMostOnce(q, g, h);
      }
    }
    StageAfter(q.gos, g, WorkOn(db, w, o).1, w.id);
    WorkOnUpload(db, w, o);
  }

  lemma WorkKeepsBag(db: Db, q: Pool, g: nat, o: Outcome)
    requires HeldOnce(q) && g < |q.gos| && IsWorker(q.gos[g])
    ensures HeldOnce(q.(gos := q.gos[g := WorkOn(db, q.gos[g], o).1]))
  {
    var w' := WorkOn(db, q.gos[g], o).1;
    WorkEffect(db, q.gos[g], o);
    assert Holds(w') == multiset{} || Holds(w') == Holds(q.gos[g]);
    BagMoves(q, g, w', q.(gos := q.gos[g := w']));
  }

  lemma WorkKeepsInv(db: Db, q: Pool, g: nat, o: Outcome, db': Db, q': Pool)
    requires Inv(db, q) && PoolNext(db, q, Work(g, o), db', q')
    ensures Inv(db', q')
  {
    var w := q.gos[g];
    WorkKeepsBag(db, q, g, o);
    NotQueued(q, g);
    WorkEffect(db, w, o);
    forall id | id in q'.queued ensures Live(db', id) {
      assert Live(db, id);
    }
    WorkKeepsGos(db, q, g, o, db', q');
    WorkKeepsUploads(db, q, g, o, db', q');
  }

  lemma WorkKeepsGos(db: Db, q: Pool, g: nat, o: Outcome, db': Db, q': Pool)
    requires Inv(db, q) && PoolNext(db, q, Work(g, o), db', q')
    ensures GosInv(db', q'.gos)
  {
    WorkKeepsSelf(db, q, g, o);
    forall h | 0 <= h < |q'.gos| ensures GoInv(db', q'.gos[h]) {
      if h != g {
        WorkKeepsOther(db, q, g, o, h);
      }
    }
  }

  /** The uploads another goroutine holds, or none. */
  lemma WorkKeepsOtherUpload(db: Db, w: Goroutine, o: Outcome, id: Id, stage: Stage)
    requires IsWorker(w) && KeysDiffer(db) && GoInv(db, w) && id in db.uploads && id != w.id && UploadInv(db, id, stage)
    ensures id in WorkOn(db, w, o).0.uploads && id in WorkOn(db, w, o).0.keyOf
    ensures UploadInv(WorkOn(db, w, o).0, id, stage)
  {
    WorkEffect(db, w, o);
  }

  lemma WorkKeepsUploads(db: Db, q: Pool, g: nat, o: Outcome, db': Db, q': Pool)
    requires Inv(db, q) && PoolNext(db, q, Work(g, o), db', q')
    ensures KeysDiffer(db') && UploadsInv(db', q'.gos)
  {
    var w := q.gos[g];
    WorkEffect(db, w, o);
    assert GoInv(db, w);
    forall id | id in db'.uploads ensures UploadInv(db', id, StageOf(q'.gos, id)) {
      if id == w.id {
        WorkKeepsUpload(db, q, g, o);
      } else {
        assert UploadInv(db, id, StageOf(q.gos, id));
        StageElsewhere(q.gos, g, WorkOn(db, w, o).1, id);
        WorkKeepsOtherUpload(db, w, o, id, StageOf(q.gos, id));
      }
    }
  }

  // ---------- Preservation: the other steps ----------

  /** A step that leaves the database alone and starts or ends no extraction. */
  lemma QuietKeepsInv(db: Db, q: Pool, g: nat, w': Goroutine, q': Pool)
    requires Inv(db, q) && g < |q.gos| && q'.gos == q.gos[g := w'] && HeldOnce(q')
    requires !q.gos[g].Inserted? && !q.gos[g].Purging? && !w'.Inserted? && !w'.Purging?
    requires GoInv(db, w') && QueuedInv(db, q'.queued)
    ensures Inv(db, q')
  {
    forall id | id in db.uploads ensures UploadInv(db, id, StageOf(q'.gos, id)) {
      StageElsewhere(q.gos, g, w', id);
      assert UploadInv(db, id, StageOf(q.gos, id));
    }
  }

  lemma SubmitKeepsInv(db: Db, q: Pool, g: nat, db': Db, q': Pool)
    requires Inv(db, q) && PoolNext(db, q, Submit(g), db', q')
    ensures Inv(db', q')
  {
    var id := q.gos[g].id;
    assert GoInv(db, q.gos[g]);
    forall i ensures q'.queued[i] <= q.queued[i] + if i == id then 1 else 0 {
      assert q'.queued[i] <= (q.queued + multiset{id})[i];
    }
    BagMoves(q, g, Idle, q');
    QuietKeepsInv(db, q, g, Idle, q');
  }

  lemma TakeKeepsInv(db: Db, q: Pool, g: nat, db': Db, q': Pool)
    requires Inv(db, q) && PoolNext(db, q, Take(g), db', q')
    ensures Inv(db', q')
  {
    var id :| q.queued == q'.queued + multiset{id} && q'.gos == q.gos[g := Picked(id)];
    assert id in q.queued;
    BagMoves(q, g, Picked(id), q');
    QuietKeepsInv(db, q, g, Picked(id), q');
  }

  lemma RecoverKeepsInv(db: Db, q: Pool, db': Db, q': Pool)
    requires Inv(db, q) && PoolNext(db, q, RecoverNext, db', q')
    ensures Inv(db', q')
  {
    forall id ensures Held(q', id) <= 1 {
      assert Held(q, id) <= 1;
    }
  }

  lemma {:induction false} GoBagKnown(db: Db, gos: seq<Goroutine>, c: Claim)
    requires GosInv(db, gos) && (if c.Job? then c.id !in db.keyOf else c.k !in db.objects)
    ensures GoBag(gos)[c] == 0
    decreases |gos|
  {
    if gos != [] {
      GoBagKnown(db, gos[..|gos| - 1], c);
      assert GoInv(db, gos[|gos| - 1]);
    }
  }

  lemma StoreKeepsGos(db: Db, q: Pool, g: nat, k: nat, file: File, db': Db, q': Pool)
    requires Inv(db, q) && PoolNext(db, q, Store(g, k, file), db', q')
    ensures GosInv(db', q'.gos)
  {
    forall h | 0 <= h < |q'.gos| ensures GoInv(db', q'.gos[h]) {
      assert GoInv(db, q.gos[h]);
    }
  }

  lemma StoreKeepsInv(db: Db, q: Pool, g: nat, k: nat, file: File, db': Db, q': Pool)
    requires Inv(db, q) && PoolNext(db, q, Store(g, k, file), db', q')
    ensures Inv(db', q')
  {
    GoBagKnown(db, q.gos, Object(k));
    BagClaims(q, g, Stored(k, file));
    StoreKeepsGos(db, q, g, k, file, db', q');
    forall id | id in q'.queued ensures Live(db', id) {
      assert Live(db, id);
    }
    forall id | id in db'.uploads ensures UploadInv(db', id, StageOf(q'.gos, id)) {
      StageElsewhere(q.gos, g, Stored(k, file), id);
      assert UploadInv(db, id, StageOf(q.gos, id));
    }
  }

  lemma CreateKeepsGos(db: Db, q: Pool, g: nat, id: Id, o: Outcome, db': Db, q': Pool)
    requires Inv(db, q) && PoolNext(db, q, Create(g, id, o), db', q')
    ensures GosInv(db', q'.gos) && QueuedInv(db', q'.queued) && KeysDiffer(db')
  {
    assert GoInv(db, q.gos[g]);
    forall h | 0 <= h < |q'.gos| ensures GoInv(db', q'.gos[h]) {
      assert GoInv(db, q.gos[h]);
      if h != g && q.gos[h].Stored? && q.gos[h].k == q.gos[g].k {
        HoldsAtMostOnce(q, g, h);
      }
    }
    forall i | i in q'.queued ensures Live(db', i) {
      assert Live(db, i);
    }
  }

  lemma CreateKeepsUpload(db: Db, q: Pool, g: nat, id: Id, o: Outcome, db': Db, q': Pool, i: Id)
    requires Inv(db, q) && PoolNext(db, q, Create(g, id, o), db', q') && i in db'.uploads
    ensures i in db'.keyOf && UploadInv(db', i, StageOf(q'.gos, i))
  {
    assert GoInv(db, q.gos[g]);
    StageElsewhere(q.gos, g, if o == Ok then Created(id) else Idle, i);
    if i in db.uploads {
      assert UploadInv(db, i, StageOf(q.gos, i));
    } else {
      forall h | 0 <= h < |q.gos| ensures StageAt(q.gos[h], i) == NO_STAGE {
        assert GoInv(db, q.gos[h]);
      }
      StageAfter(q.gos, g, q.gos[g], i);
    }
  }

  lemma CreateKeepsInv(db: Db, q: Pool, g: nat, id: Id, o: Outcome, db': Db, q': Pool)
    requires Inv(db, q) && PoolNext(db, q, Create(g, id, o), db', q')
    ensures Inv(db', q')
  {
    GoBagKnown(db, q.gos, Job(id));
    assert id in q.queued ==> Live(db, id);
    BagClaims(q, g, if o == Ok then Created(id) else Idle);
    CreateKeepsGos(db, q, g, id, o, db', q');
    forall i | i in db'.uploads ensures UploadInv(db', i, StageOf(q'.gos, i)) {
      CreateKeepsUpload(db, q, g, id, o, db', q', i);
    }
  }

  lemma DeleteKeepsInv(db: Db, q: Pool, ids: set<Id>, db': Db, q': Pool)
    requires Inv(db, q) && PoolNext(db, q, Delete(ids), db', q')
    ensures Inv(db', q')
  {
    forall h | 0 <= h < |q'.gos| ensures GoInv(db', q'.gos[h]) {
      assert GoInv(db, q.gos[h]);
    }
    forall i | i in q'.queued ensures Live(db', i) {
      assert Live(db, i);
    }
    forall i | i in db'.uploads ensures UploadInv(db', i, StageOf(q'.gos, i)) {
      assert UploadInv(db, i, StageOf(q.gos, i));
    }
  }

  lemma NextKeepsInv(db: Db, q: Pool, step: Step, db': Db, q': Pool)
    requires Inv(db, q) && PoolNext(db, q, step, db', q')
    ensures Inv(db', q')
  {
    match step
    case RecoverNext => RecoverKeepsInv(db, q, db', q');
    case Store(g, k, file) => StoreKeepsInv(db, q, g, k, file, db', q');
    case Create(g, id, o) => CreateKeepsInv(db, q, g, id, o, db', q');
    case Submit(g) => SubmitKeepsInv(db, q, g, db', q');
    case Take(g) => TakeKeepsInv(db, q, g, db', q');
    case Work(g, o) => WorkKeepsInv(db, q, g, o, db', q');
    case Delete(ids) => DeleteKeepsInv(db, q, ids, db', q');
  }

  // ---------- Preservation: crash and boot ----------

  lemma StageConcat(a: seq<Goroutine>, b: seq<Goroutine>, id: Id)
    ensures StageOf(a + b, id) == Either(StageOf(a, id), StageOf(b, id))
  {
    ConcatHolds(a, b, (w: Goroutine) => w.Inserted? && w.id == id);
    ConcatHolds(a, b, (w: Goroutine) => w.Purging? && w.id == id);
  }

  lemma ConcatHolds(a: seq<Goroutine>, b: seq<Goroutine>, f: Goroutine -> bool)
    ensures (exists g :: 0 <= g < |a + b| && f((a + b)[g]))
            <==> (exists g :: 0 <= g < |a| && f(a[g])) || (exists g :: 0 <= g < |b| && f(b[g]))
  {
    if g :| 0 <= g < |a| && f(a[g]) {
      assert (a + b)[g] == a[g];
    }
    if g :| 0 <= g < |b| && f(b[g]) {
      assert (a + b)[|a| + g] == b[g];
    }
  }

  lemma GosInvConcat(db: Db, a: seq<Goroutine>, b: seq<Goroutine>)
    ensures GosInv(db, a + b) <==> GosInv(db, a) && GosInv(db, b)
  {
    if GosInv(db, a + b) {
      forall g | 0 <= g < |a| ensures GoInv(db, a[g]) {
        assert (a + b)[g] == a[g];
      }
      forall g | 0 <= g < |b| ensures GoInv(db, b[g]) {
        assert (a + b)[|a| + g] == b[g];
      }
    }
  }

  /** An extraction or a purge in progress holds its upload. */
  lemma StageHolds(gos: seq<Goroutine>, id: Id)
    requires StageOf(gos, id) != NO_STAGE
    ensures GoBag(gos)[Job(id)] >= 1
  {
    if g :| 0 <= g < |gos| && gos[g].Inserted? && gos[g].id == id {
      GoBagUpdate(gos, g, Idle);
    }
    if g :| 0 <= g < |gos| && gos[g].Purging? && gos[g].id == id {
      GoBagUpdate(gos, g, Idle);
    }
  }

  /** What the goroutines that vanish and those that stay are doing to one upload. */
  lemma StageSplits(q: Pool, mid: seq<Goroutine>, rest: seq<Goroutine>, id: Id)
    requires HeldOnce(q) && GoBag(q.gos) == GoBag(mid) + GoBag(rest)
    ensures StageOf(mid, id) == NO_STAGE || StageOf(rest, id) == NO_STAGE
  {
    assert Held(q, id) <= 1;
    if StageOf(mid, id) != NO_STAGE && StageOf(rest, id) != NO_STAGE {
      StageHolds(mid, id);
      StageHolds(rest, id);
    }
  }

  lemma CrashKeepsUpload(db: Db, q: Pool, mid: seq<Goroutine>, rest: seq<Goroutine>, id: Id)
    requires Inv(db, q) && id in db.uploads && GoBag(q.gos) == GoBag(mid) + GoBag(rest)
    requires StageOf(q.gos, id) == Either(StageOf(mid, id), StageOf(rest, id))
    ensures UploadInv(AfterCrash(db, mid), id, StageOf(rest, id))
  {
    assert UploadInv(db, id, StageOf(q.gos, id));
    StageSplits(q, mid, rest, id);
    AfterCrashUnpurged(db, mid, id);
    if Extracting(mid, id) {
      ExtractingIsLive(db, q.gos, id);
    }
    if PurgeDue(mid, id) {
      PurgingIsDone(db, q.gos, id);
    }
  }

  lemma AfterCrashUnpurged(db: Db, mid: seq<Goroutine>, id: Id)
    ensures id in AfterCrash(db, mid).unpurged <==> id in db.unpurged || PurgeDue(mid, id)
  {}

  lemma ExtractingIsLive(db: Db, gos: seq<Goroutine>, id: Id)
    requires GosInv(db, gos) && Extracting(gos, id)
    ensures Live(db, id)
  {
    var g :| 0 <= g < |gos| && gos[g].Inserted? && gos[g].id == id;
    assert GoInv(db, gos[g]);
  }

  lemma PurgingIsDone(db: Db, gos: seq<Goroutine>, id: Id)
    requires GosInv(db, gos) && PurgeDue(gos, id)
    ensures id in db.keyOf && (id in db.uploads ==> db.uploads[id].status == Done)
  {
    var g :| 0 <= g < |gos| && gos[g].Purging? && gos[g].id == id;
    assert GoInv(db, gos[g]);
  }

  lemma RestBag(a: seq<Goroutine>, mid: seq<Goroutine>, b: seq<Goroutine>)
    ensures GoBag(a + mid + b) == GoBag(mid) + GoBag(a + b)
  {
    GoBagConcat(a + mid, b);
    GoBagConcat(a, mid);
    GoBagConcat(a, b);
  }

  lemma RestHeldOnce(q: Pool, mid: seq<Goroutine>, q': Pool)
    requires HeldOnce(q) && GoBag(q.gos) == GoBag(mid) + GoBag(q'.gos) && q'.queued <= q.queued
    ensures HeldOnce(q')
  {
    forall id ensures Held(q', id) <= 1 {
      assert Held(q, id) <= 1;
    }
    forall k ensures GoBag(q'.gos)[Object(k)] <= 1 {
      assert GoBag(q.gos)[Object(k)] <= 1;
    }
  }

  /** The goroutines `mid` of one process vanish, and so does what it had queued. */
  lemma CrashKeepsInv(db: Db, q: Pool, a: seq<Goroutine>, mid: seq<Goroutine>, b: seq<Goroutine>, q': Pool)
    requires Inv(db, q) && q.gos == a + mid + b && q'.gos == a + b && q'.queued <= q.queued
    ensures Inv(AfterCrash(db, mid), q')
  {
    var db' := AfterCrash(db, mid);
    RestBag(a, mid, b);
    GosInvConcat(db, a + mid, b);
    GosInvConcat(db, a, mid);
    GosInvConcat(db, a, b);
    CrashKeepsGos(db, q, mid, a + b);
    CrashKeepsKeys(db, mid);
    RestHeldOnce(q, mid, q');
    forall id | id in q'.queued ensures Live(db', id) {
      assert id in q.queued && Live(db, id);
    }
    forall id | id in db'.uploads ensures UploadInv(db', id, StageOf(q'.gos, id)) {
      StageConcat(a + mid, b, id);
      StageConcat(a, mid, id);
      StageConcat(a, b, id);
      CrashKeepsUpload(db, q, mid, a + b, id);
    }
  }

  lemma CrashKeepsGos(db: Db, q: Pool, mid: seq<Goroutine>, rest: seq<Goroutine>)
    requires HeldOnce(q) && GoBag(q.gos) == GoBag(mid) + GoBag(rest) && GosInv(db, rest)
    ensures GosInv(AfterCrash(db, mid), rest)
  {
    forall g | 0 <= g < |rest| ensures GoInv(AfterCrash(db, mid), rest[g]) {
      assert GoInv(db, rest[g]);
      if rest[g].Purging? {
        StageSplits(q, mid, rest, rest[g].id);
        AfterCrashUnpurged(db, mid, rest[g].id);
      }
    }
  }

  lemma CrashKeepsKeys(db: Db, mid: seq<Goroutine>)
    requires KeysDiffer(db) && GosInv(db, mid)
    ensures KeysDiffer(AfterCrash(db, mid))
  {
    forall id | id in AfterCrash(db, mid).unpurged ensures id in db.keyOf {
      if id !in db.unpurged {
        PurgingIsDone(db, mid, id);
      }
    }
  }

  /** Idle goroutines and a scan that names no held upload join the pool. */
  lemma BootKeepsInv(db: Db, q: Pool, a: seq<Goroutine>, idle: seq<Goroutine>, b: seq<Goroutine>,
                     ids: seq<Id>, q': Pool)
    requires Inv(db, q) && q.gos == a + b && AllIdle(idle) && (ids == [] || Scan(db, ids))
    requires forall id :: id in ids ==> Held(q, id) == 0
    requires q'.queued == q.queued + multiset(ids) && q'.gos == a + idle + b
    ensures Inv(db, q')
  {
    RestBag(a, idle, b);
    GoBagIdle(idle);
    GosInvConcat(db, a, b);
    GosInvConcat(db, a, idle);
    GosInvConcat(db, a + idle, b);
    forall id ensures Held(q', id) <= 1 {
      assert Held(q, id) <= 1;
      if id in multiset(ids) {
        assert id in ids;
        DistinctBag(ids, id);
      }
    }
    forall id | id in q'.queued ensures Live(db, id) {
      assert id in q.queued || id in ids;
    }
    forall id | id in db.uploads ensures UploadInv(db, id, StageOf(q'.gos, id)) {
      StageConcat(a, b, id);
      StageConcat(a, idle, id);
      StageConcat(a + idle, b, id);
      assert UploadInv(db, id, StageOf(q.gos, id));
    }
  }

  // ---------- Finished uploads ----------

  lemma WorkKeepsFinal(db: Db, q: Pool, g: nat, o: Outcome, id: Id)
    requires Inv(db, q) && g < |q.gos| && IsWorker(q.gos[g])
    requires id in db.uploads && !Unfinished(db.uploads[id])
    ensures id in WorkOn(db, q.gos[g], o).0.uploads && WorkOn(db, q.gos[g], o).0.uploads[id] == db.uploads[id]
  {
    WorkEffect(db, q.gos[g], o);
    assert GoInv(db, q.gos[g]);
  }

  /** The row of `id`, if still there, is `u`; and `id` will not be generated again. */
  ghost predicate RowIs(db: Db, id: Id, u: Upload) {
    id in db.keyOf && (id in db.uploads ==> db.uploads[id] == u)
  }

  lemma NextKeepsFinal(db: Db, q: Pool, step: Step, db': Db, q': Pool, id: Id, u: Upload)
    requires Inv(db, q) && PoolNext(db, q, step, db', q') && RowIs(db, id, u) && !Unfinished(u)
    ensures RowIs(db', id, u)
  {
    if step.Work? {
      WorkEffect(db, q.gos[step.g], step.outcome);
      if id in db.uploads {
        WorkKeepsFinal(db, q, step.g, step.outcome, id);
      }
    }
  }

  lemma CrashKeepsFinal(db: Db, mid: seq<Goroutine>, id: Id, u: Upload)
    requires GosInv(db, mid) && RowIs(db, id, u) && !Unfinished(u)
    ensures RowIs(AfterCrash(db, mid), id, u)
  {
    if Extracting(mid, id) {
      ExtractingIsLive(db, mid, id);
    }
  }
}
