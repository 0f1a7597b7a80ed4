/** Why a boot must not scan an upload that a live replica still holds: from every such boot some
    continuation changes a finished upload, and ingests its rows once more although no extraction was cut
    off. Such boots happen whenever a replica starts while another one works. */
module Replicas {
  import opened Statements
  import opened Queue
  import opened Cluster
  import opened Recovery

  // ---------- Who holds the upload ----------

  /** A worker that can still change the upload. */
  ghost predicate Works(w: Goroutine, id: Id) {
    IsWorker(w) && w.id == id && !w.Purging?
  }

  ghost predicate WorksAt(p: Process, g: nat, id: Id) {
    g < |p.gos| && Works(p.gos[g], id)
  }

  ghost predicate CreatedAt(p: Process, g: nat, id: Id) {
    g < |p.gos| && p.gos[g] == Created(id)
  }

  ghost predicate HeldBy(p: Process, id: Id) {
    || id in p.channel || id in p.recovery
    || (exists g: nat :: WorksAt(p, g, id)) || (exists g: nat :: CreatedAt(p, g, id))
    || exists g :: 0 <= g < |p.gos| && p.gos[g].Purging? && p.gos[g].id == id
  }

  lemma {:induction false} GoBagHolder(gos: seq<Goroutine>, id: Id) returns (g: nat)
    requires GoBag(gos)[Job(id)] > 0
    ensures g < |gos| && !gos[g].Idle? && !gos[g].Stored? && gos[g].id == id
    decreases |gos|
  {
    var n := |gos| - 1;
    if Job(id) in Holds(gos[n]) {
      g := n;
    } else {
      g := GoBagHolder(gos[..n], id);
    }
  }

  lemma ProcessHolds(p: Process, id: Id)
    requires Waiting(p)[id] > 0 || GoBag(p.gos)[Job(id)] > 0
    ensures HeldBy(p, id)
  {
    if Waiting(p)[id] > 0 {
      assert id in multiset(p.channel) || id in multiset(p.recovery);
    } else {
      var g := GoBagHolder(p.gos, id);
      assert WorksAt(p, g, id) || CreatedAt(p, g, id) || p.gos[g].Purging?;
    }
  }

  /** Some process holds it. */
  lemma {:induction false} Holder(ps: seq<Process>, id: Id) returns (i: nat)
    requires Held(PoolOf(ps), id) > 0
    ensures i < |ps| && HeldBy(ps[i], id)
    decreases |ps|
  {
    var n := |ps| - 1;
    if ps != [] {
      GoBagConcat(Gos(ps[..n]), ps[n].gos);
      if Held(PoolOf(ps[..n]), id) > 0 {
        i := Holder(ps[..n], id);
      } else {
        i := n;
        ProcessHolds(ps[n], id);
      }
    }
  }

  // ---------- Bringing it to a worker ----------

  /** Nothing about this upload has changed. */
  ghost predicate SameFor(db: Db, db': Db, id: Id) {
    && db'.objects == db.objects && db'.uploads.Keys == db.uploads.Keys
    && (id in db.uploads ==> db'.uploads[id] == db.uploads[id])
  }

  /** Goroutine `g` is free to fetch `id`, which waits in a queue or with the handler `h`. */
  ghost predicate Fetchable(p: Process, g: nat, h: nat, created: bool, id: Id) {
    && g < |p.gos| && p.gos[g] != Created(id)
    && (forall k :: 0 <= k < |p.gos| && IsWorker(p.gos[k]) ==> p.gos[k].id != id)
    && (if created then h != g && CreatedAt(p, h, id) else id in p.channel || id in p.recovery)
  }

  function Weight(w: Goroutine): nat {
    if w.Idle? then 0 else if w.Created? then 3 else if w.Marked? then 2 else 1
  }

  /** What is still to be moved out of the way. */
  ghost function Distance(p: Process, g: nat, created: bool): nat
    requires g < |p.gos|
  {
    3 * |p.recovery| + 2 * |p.channel| + Weight(p.gos[g]) + if created then 3 else 0
  }

  lemma {:induction false} Unused(ids: set<Id>) returns (n: Id)
    ensures forall i :: i in ids ==> i < n
    decreases ids
  {
    if ids == {} {
      n := 0;
    } else {
      var x :| x in ids;
      var m := Unused(ids - {x});
      n := if x < m then m else x + 1;
      assert forall i :: i in ids ==> i == x || i in ids - {x};
    }
  }

  /** A busy goroutine gives up what it holds. */
  lemma GiveUp(db: Db, p: Process, g: nat, h: nat, created: bool, id: Id) returns (step: Step, db': Db, p': Process)
    requires Fetchable(p, g, h, created, id) && !p.gos[g].Idle? && !p.gos[g].Created?
    ensures Next(db, p, step, db', p') && SameFor(db, db', id) && |p'.gos| == |p.gos|
    ensures Fetchable(p', g, h, created, id) && Distance(p', g, created) < Distance(p, g, created)
  {
    db' := db;
    if p.gos[g].Stored? {
      var unused := Unused(db.keyOf.Keys);
      step, p' := Create(g, unused, Refused), SetGo(p, g, Idle);
    } else {
      var (after, w') := WorkOn(db, p.gos[g], Refused);
      step, db', p' := Work(g, Refused), after, SetGo(p, g, w');
    }
  }

  lemma EnqueueKeeps(channel: seq<Id>, x: Id, id: Id)
    ensures id in channel ==> id in Enqueue(channel, x)
    ensures channel == [] ==> Enqueue(channel, x) == [x]
  {}

  lemma SubmitOther(db: Db, p: Process, g: nat, h: nat, created: bool, id: Id) returns (p': Process)
    requires Fetchable(p, g, h, created, id) && p.gos[g].Created?
    ensures Next(db, p, Submit(g), db, p') && |p'.gos| == |p.gos|
    ensures Fetchable(p', g, h, created, id) && Distance(p', g, created) < Distance(p, g, created)
  {
    EnqueueKeeps(p.channel, p.gos[g].id, id);
    p' := SetGo(p, g, Idle).(channel := Enqueue(p.channel, p.gos[g].id));
  }

  lemma TakeHead(db: Db, p: Process, g: nat, h: nat, created: bool, id: Id) returns (p': Process)
    requires Fetchable(p, g, h, created, id) && p.gos[g].Idle? && p.channel != []
    ensures Next(db, p, Take(g), db, p') && |p'.gos| == |p.gos|
    ensures p'.gos[g] == Picked(id) || (Fetchable(p', g, h, created, id) && Distance(p', g, created) < Distance(p, g, created))
  {
    p' := SetGo(p, g, Picked(p.channel[0])).(channel := p.channel[1..]);
    assert id in p.channel ==> id == p.channel[0] || id in p.channel[1..];
  }

  lemma SubmitIt(db: Db, p: Process, g: nat, h: nat, id: Id) returns (p': Process)
    requires Fetchable(p, g, h, true, id) && p.gos[g].Idle? && p.channel == []
    ensures Next(db, p, Submit(h), db, p') && |p'.gos| == |p.gos|
    ensures Fetchable(p', g, h, false, id) && Distance(p', g, false) < Distance(p, g, true)
  {
    p' := SetGo(p, h, Idle).(channel := Enqueue(p.channel, id));
  }

  lemma RecoverHead(db: Db, p: Process, g: nat, h: nat, id: Id) returns (p': Process)
    requires Fetchable(p, g, h, false, id) && p.gos[g].Idle? && p.channel == []
    ensures Next(db, p, RecoverNext, db, p') && |p'.gos| == |p.gos|
    ensures Fetchable(p', g, h, false, id) && Distance(p', g, false) < Distance(p, g, false)
  {
    EnqueueKeeps(p.channel, p.recovery[0], id);
    p' := p.(recovery := p.recovery[1..], channel := Enqueue(p.channel, p.recovery[0]));
    assert id == p.recovery[0] || id in p.recovery[1..];
  }

  /** One statement closer to the upload. */
  lemma FetchStep(db: Db, p: Process, g: nat, h: nat, created: bool, id: Id)
      returns (step: Step, db': Db, p': Process, created': bool)
    requires Fetchable(p, g, h, created, id)
    ensures Next(db, p, step, db', p') && SameFor(db, db', id) && |p'.gos| == |p.gos|
    ensures p'.gos[g] == Picked(id) || (Fetchable(p', g, h, created', id) && Distance(p', g, created') < Distance(p, g, created))
  {
    db', created' := db, created;
    if p.gos[g].Created? {
      step := Submit(g);
      p' := SubmitOther(db, p, g, h, created, id);
    } else if !p.gos[g].Idle? {
      step, db', p' := GiveUp(db, p, g, h, created, id);
    } else if p.channel != [] {
      step := Take(g);
      p' := TakeHead(db, p, g, h, created, id);
    } else if created {
      step, created' := Submit(h), false;
      p' := SubmitIt(db, p, g, h, id);
    } else {
      step := RecoverNext;
      p' := RecoverHead(db, p, g, h, id);
    }
  }

  /** Slot `i` alone takes the upload: some continuation ends with goroutine `g` holding the job. */
  lemma {:induction false} Fetch(w0: World, db: Db, ps: seq<Process>, i: nat, p: Process, g: nat, h: nat, created: bool, id: Id)
      returns (db': Db, p': Process)
    requires i < |ps| && Leads(w0, World(db, ps[i := p])) && Fetchable(p, g, h, created, id)
    ensures Leads(w0, World(db', ps[i := p'])) && SameFor(db, db', id)
    ensures g < |p'.gos| == |p.gos| && p'.gos[g] == Picked(id)
    decreases Distance(p, g, created)
  {
    var step, created';
    step, db', p', created' := FetchStep(db, p, g, h, created, id);
    SlotStep(w0, ps, i, db, p, step, db', p');
    if p'.gos[g] != Picked(id) {
      db', p' := Fetch(w0, db', ps, i, p', g, h, created', id);
    }
  }

  // ---------- Finishing it ----------

  /** The upload is unfinished and its file staged. */
  ghost predicate Staged(db: Db, id: Id) {
    && id in db.uploads && Unfinished(db.uploads[id])
    && var u := db.uploads[id];
       u.key.Key? && u.key.k in db.objects && db.objects[u.key.k] == u.file
  }

  /** The goroutine works on that file. */
  ghost predicate OnFile(w: Goroutine, id: Id, key: ObjectKey, file: File) {
    && Works(w, id)
    && (w.Loaded? || w.Marked? || w.Inserted? ==> w.key == key)
    && (w.Inserted? ==> file == Rows(w.n))
  }

  /** The upload once a worker at `w` has finished it without a failure. */
  function FinalOf(u: Upload, w: Goroutine): Upload {
    if w.Failing? || !u.file.Rows? then u.(status := Error)
    else if w.Inserted? then u.(status := Done, txnCount := u.file.n, key := NoKey)
    else Finished(u)
  }

  function Rank(w: Goroutine): nat {
    match w
    case Picked(_) => 4
    case Loaded(_, _) => 3
    case Marked(_, _) => 2
    case _ => 1
  }

  /** One statement of the worker: it has finished the upload, or it works on. */
  lemma WorkOnce(db: Db, id: Id, key: ObjectKey, w: Goroutine)
    requires id in db.uploads && OnFile(w, id, key, db.uploads[id].file)
    requires key.Key? && key.k in db.objects && db.objects[key.k] == db.uploads[id].file
    requires w.Picked? ==> db.uploads[id].key == key && Unfinished(db.uploads[id])
    ensures var (db', w') := WorkOn(db, w, Ok);
            && db'.objects == db.objects && id in db'.uploads
            && if w.Inserted? || w.Failing?
               then db'.uploads[id] == FinalOf(db.uploads[id], w) && !Works(w', id)
               else OnFile(w', id, key, db.uploads[id].file) && !w'.Picked? && Rank(w') < Rank(w)
                    && db'.uploads[id].file == db.uploads[id].file
                    && FinalOf(db'.uploads[id], w') == FinalOf(db.uploads[id], w)
  {}

  /** The worker at `w` goes on to the end. */
  lemma {:induction false} FinishAs(w0: World, db: Db, ps: seq<Process>, i: nat, p: Process, g: nat, id: Id, key: ObjectKey)
      returns (db': Db, p': Process)
    requires i < |ps| && Leads(w0, World(db, ps[i := p])) && g < |p.gos|
    requires id in db.uploads && OnFile(p.gos[g], id, key, db.uploads[id].file)
    requires key.Key? && key.k in db.objects && db.objects[key.k] == db.uploads[id].file
    requires p.gos[g].Picked? ==> db.uploads[id].key == key && Unfinished(db.uploads[id])
    ensures Leads(w0, World(db', ps[i := p'])) && db'.objects == db.objects
    ensures id in db'.uploads && db'.uploads[id] == FinalOf(db.uploads[id], p.gos[g])
    decreases Rank(p.gos[g])
  {
    var w := p.gos[g];
    WorkOnce(db, id, key, w);
    var next, w' := WorkOn(db, w, Ok).0, WorkOn(db, w, Ok).1;
    SlotStep(w0, ps, i, db, p, Work(g, Ok), next, SetGo(p, g, w'));
    db', p' := next, SetGo(p, g, w');
    if !w.Inserted? && !w.Failing? {
      db', p' := FinishAs(w0, next, ps, i, p', g, id, key);
    }
  }

  // ---------- The unsafe boot ----------

  /** A worker of slot `i` works on the upload, and one of slot `j` has loaded it too. */
  ghost predicate BothWork(w0: World, db: Db, ps: seq<Process>, i: nat, p: Process, g: nat, j: nat, q: Process, id: Id)
  {
    && i < |ps| && j < |ps| && i != j && g < |p.gos| && q.gos != []
    && Leads(w0, World(db, ps[i := p][j := q]))
    && Staged(db, id) && OnFile(p.gos[g], id, db.uploads[id].key, db.uploads[id].file)
    && q.gos[0] == Loaded(id, db.uploads[id].key)
  }

  lemma GoInvOnFile(db: Db, w: Goroutine, id: Id, stage: Stage)
    requires GoInv(db, w) && Works(w, id) && id in db.uploads && id in db.keyOf
    requires UploadInv(db, id, stage) && Unfinished(db.uploads[id])
    ensures Staged(db, id) && OnFile(w, id, db.uploads[id].key, db.uploads[id].file)
  {}

  /** What the invariant says about a slot that holds an unfinished upload. */
  lemma HolderWorks(w: World, i: nat, id: Id)
    requires WorldInv(w) && i < |w.ps| && HeldBy(w.ps[i], id) && id in w.db.uploads && Unfinished(w.db.uploads[id])
    ensures Staged(w.db, id) && |w.ps[i].gos| >= 2
    ensures forall g: nat :: WorksAt(w.ps[i], g, id) ==> OnFile(w.ps[i].gos[g], id, w.db.uploads[id].key, w.db.uploads[id].file)
    ensures forall g :: 0 <= g < |w.ps[i].gos| && w.ps[i].gos[g].Purging? ==> w.ps[i].gos[g].id != id
  {
    var p := w.ps[i];
    SlotGosInv(w, i);
    assert ProcessInv(p);
    var stage := StageOf(Gos(w.ps), id);
    assert UploadInv(w.db, id, stage);
    forall g: nat | WorksAt(p, g, id) ensures OnFile(p.gos[g], id, w.db.uploads[id].key, w.db.uploads[id].file) {
      assert GoInv(w.db, p.gos[g]);
      GoInvOnFile(w.db, p.gos[g], id, stage);
    }
    forall g | 0 <= g < |p.gos| && p.gos[g].Purging? ensures p.gos[g].id != id {
      assert GoInv(w.db, p.gos[g]);
    }
  }

  /** The holder brings the upload to a worker, unless a worker has it already. */
  lemma HolderEngages(w0: World, db: Db, ps: seq<Process>, i: nat, p: Process, id: Id)
      returns (db': Db, p': Process, g: nat)
    requires i < |ps| && Leads(w0, World(db, ps[i := p])) && HeldBy(p, id) && |p.gos| >= 2
    requires forall g :: 0 <= g < |p.gos| && p.gos[g].Purging? ==> p.gos[g].id != id
    requires forall g, h :: 0 <= g < h < |p.gos| && p.gos[g] == Created(id) ==> p.gos[h] != Created(id)
    ensures Leads(w0, World(db', ps[i := p'])) && SameFor(db, db', id) && g < |p'.gos|
    ensures p'.gos[g] == Picked(id) || (p' == p && WorksAt(p, g, id))
  {
    if g': nat :| WorksAt(p, g', id) {
      return db, p, g';
    }
    forall k | 0 <= k < |p.gos| && IsWorker(p.gos[k]) ensures p.gos[k].id != id {
      assert !WorksAt(p, k, id);
    }
    if h: nat :| CreatedAt(p, h, id) {
      g := if h == 0 then 1 else 0;
      db', p' := Fetch(w0, db, ps, i, p, g, h, true, id);
    } else {
      assert !CreatedAt(p, 0, id);
      g := 0;
      db', p' := Fetch(w0, db, ps, i, p, g, 0, false, id);
    }
  }

  lemma CreatedOnce(w: World, i: nat, id: Id, g: nat, h: nat)
    requires WorldInv(w) && i < |w.ps| && g < h < |w.ps[i].gos| && w.ps[i].gos[g] == Created(id)
    ensures w.ps[i].gos[h] != Created(id)
  {
    var gos := w.ps[i].gos;
    SlotBag(w.ps, i);
    assert Held(PoolOf(w.ps), id) <= 1;
    if gos[h] == Created(id) {
      HeldByTwo(gos, g, h, Job(id));
    }
  }

  /** The booted process recovers the upload, takes and loads it. */
  lemma BootedLoads(w0: World, db: Db, ps: seq<Process>, j: nat, p: Process, id: Id) returns (db': Db, q: Process)
    requires j < |ps| && Leads(w0, World(db, ps[j := p])) && id in p.recovery && AllIdle(p.gos) && p.gos != []
    requires Staged(db, id)
    ensures Leads(w0, World(db', ps[j := q])) && SameFor(db, db', id)
    ensures q.gos != [] && q.gos[0] == Loaded(id, db.uploads[id].key)
  {
    var picked: Process;
    db', picked := Fetch(w0, db, ps, j, p, 0, 0, false, id);
    q := SetGo(picked, 0, Loaded(id, db.uploads[id].key));
    SlotStep(w0, ps, j, db', picked, Work(0, Ok), db', q);
  }

  lemma Swap(ps: seq<Process>, i: nat, p: Process, j: nat, q: Process)
    requires i < |ps| && j < |ps| && i != j
    ensures ps[i := p][j := q] == ps[j := q][i := p]
  {}

  /** The unsafe boot: slot `j` boots as `p`, whose scan names an upload that a live process holds. */
  ghost predicate UnsafeBoot(w: World, j: nat, p: Process, id: Id) {
    && j < |w.ps| && w.ps[j] == DOWN && Booted(w.db, p) && id in p.recovery && HeldIn(w, id) > 0
  }

  function AfterBoot(w: World, j: nat, p: Process): World
    requires j < |w.ps|
  {
    World(w.db, w.ps[j := p])
  }

  lemma BothEngage(w: World, j: nat, p: Process, id: Id)
      returns (db: Db, i: nat, pi: Process, g: nat, q: Process)
    requires WorldInv(w) && UnsafeBoot(w, j, p, id)
    ensures BothWork(AfterBoot(w, j, p), db, w.ps, i, pi, g, j, q, id) && SameFor(w.db, db, id)
    ensures pi.gos[g] == Picked(id) || (pi == w.ps[i] && WorksAt(w.ps[i], g, id))
  {
    var w0, ps := AfterBoot(w, j, p), w.ps;
    i := Holder(ps, id);
    HolderWorks(w, i, id);
    forall g, h | 0 <= g < h < |ps[i].gos| && ps[i].gos[g] == Created(id) ensures ps[i].gos[h] != Created(id) {
      CreatedOnce(w, i, id, g, h);
    }
    LeadsSelf(w0);
    assert ps[j := p][i := ps[i]] == ps[j := p];
    var db1: Db;
    db1, pi, g := HolderEngages(w0, w.db, ps[j := p], i, ps[i], id);
    Swap(ps, i, pi, j, p);
    db, q := BootedLoads(w0, db1, ps[i := pi], j, p, id);
  }

  /** The worker at `i` finishes first, and the one at `j` marks the finished upload as processing. */
  lemma FirstFinishes(w0: World, db: Db, ps: seq<Process>, i: nat, p: Process, g: nat, j: nat, q: Process, id: Id)
      returns (done: World, after: World)
    requires BothWork(w0, db, ps, i, p, g, j, q, id)
    ensures Leads(w0, done) && Leads(w0, after) && Moves(done, Act(j, Work(0, Ok)), after)
    ensures id in done.db.uploads && done.db.uploads[id] == FinalOf(db.uploads[id], p.gos[g])
    ensures id in after.db.uploads && after.db.uploads[id] == done.db.uploads[id].(status := Processing)
    ensures after.db.objects == db.objects && j < |after.ps| && after.ps[j].gos != []
    ensures after.ps[j].gos[0] == Marked(id, db.uploads[id].key)
  {
    var key := db.uploads[id].key;
    Swap(ps, i, p, j, q);
    var db', p' := FinishAs(w0, db, ps[j := q], i, p, g, id, key);
    Swap(ps, i, p', j, q);
    done := World(db', ps[i := p'][j := q]);
    var q' := SetGo(q, 0, Marked(id, key));
    var db'' := PutUpload(db', id, db'.uploads[id].(status := Processing));
    after := World(db'', ps[i := p'][j := q']);
    SlotStep(w0, ps[i := p'], j, db', q, Work(0, Ok), db'', q');
    assert after.ps == done.ps[j := q'];
  }

  /** The worker at `i` is about to report an error; the one at `j` finishes first. */
  lemma SecondFinishes(w0: World, db: Db, ps: seq<Process>, i: nat, p: Process, g: nat, j: nat, q: Process, id: Id)
      returns (done: World, after: World)
    requires BothWork(w0, db, ps, i, p, g, j, q, id) && p.gos[g].Failing? && db.uploads[id].file.Rows?
    ensures Leads(w0, done) && Moves(done, Act(i, Work(g, Ok)), after)
    ensures id in done.db.uploads && done.db.uploads[id].status == Done
    ensures id in after.db.uploads && after.db.uploads[id].status == Error
  {
    var db', q' := FinishAs(w0, db, ps[i := p], j, q, 0, id, db.uploads[id].key);
    done := World(db', ps[i := p][j := q']);
    var p' := SetGo(p, g, Idle);
    after := World(PutUpload(db', id, db'.uploads[id].(status := Error)), ps[i := p'][j := q']);
    assert after.ps == done.ps[i := p'];
  }

  /** Every boot that scans an upload a live replica holds has a continuation in which the upload is
      finished, done if its file parses, and one statement later is not. */
  lemma UnsafeBootRegresses(ws: seq<World>, acts: seq<Action>, n: nat, j: nat, p: Process, id: Id)
      returns (done: World, a: Action, after: World)
    requires SafeRun(ws, acts) && n < |ws| && UnsafeBoot(ws[n], j, p, id)
    ensures Leads(AfterBoot(ws[n], j, p), done) && a.Act? && Moves(done, a, after)
    ensures id in ws[n].db.uploads && id in done.db.uploads && id in after.db.uploads
    ensures done.db.uploads[id].status == if ws[n].db.uploads[id].file.Rows? then Done else Error
    ensures after.db.uploads[id].status != done.db.uploads[id].status
  {
    RunInv(ws, acts, n);
    var w := ws[n];
    var db, i, pi, g, q := BothEngage(w, j, p, id);
    if pi.gos[g].Failing? && db.uploads[id].file.Rows? {
      done, after := SecondFinishes(AfterBoot(w, j, p), db, w.ps, i, pi, g, j, q, id);
      a := Act(i, Work(g, Ok));
    } else {
      done, after := FirstFinishes(AfterBoot(w, j, p), db, w.ps, i, pi, g, j, q, id);
      a := Act(j, Work(0, Ok));
    }
  }

  /** Committed extractions of the upload that the holder's stage accounts for. */
  lemma AttemptsBefore(w: World, i: nat, g: nat, id: Id)
    requires WorldInv(w) && i < |w.ps| && id in w.db.uploads && Unfinished(w.db.uploads[id])
    ensures w.db.uploads[id].attempts >= w.db.uploads[id].lost
    ensures WorksAt(w.ps[i], g, id) && w.ps[i].gos[g].Inserted? ==> w.db.uploads[id].attempts == w.db.uploads[id].lost + 1
  {
    assert UploadInv(w.db, id, StageOf(Gos(w.ps), id));
    if WorksAt(w.ps[i], g, id) && w.ps[i].gos[g].Inserted? {
      PoolHere(w.ps, i);
      StageConcat(Gos(w.ps[..i]) + w.ps[i].gos, Gos(w.ps[i + 1..]), id);
      StageConcat(Gos(w.ps[..i]), w.ps[i].gos, id);
      assert Extracting(w.ps[i].gos, id);
    }
  }

  /** And unless the holder was about to report an error, the rows of a parseable upload end up in the
      ledger at least once more than extractions were cut off and one succeeded. */
  lemma UnsafeBootDuplicates(ws: seq<World>, acts: seq<Action>, n: nat, j: nat, p: Process, id: Id) returns (last: World)
    requires SafeRun(ws, acts) && n < |ws| && UnsafeBoot(ws[n], j, p, id)
    requires id in ws[n].db.uploads && ws[n].db.uploads[id].file.Rows?
    requires forall i: nat, g: nat :: i < |ws[n].ps| && g < |ws[n].ps[i].gos| ==> ws[n].ps[i].gos[g] != Failing(id)
    ensures Leads(AfterBoot(ws[n], j, p), last) && id in last.db.uploads
    ensures var u := last.db.uploads[id];
            && u.lost == ws[n].db.uploads[id].lost && u.attempts >= u.lost + 2
            && u.file == ws[n].db.uploads[id].file && u.ledgerRows == u.attempts * u.file.n
  {
    RunInv(ws, acts, n);
    var w := ws[n];
    var db, i, pi, g, q := BothEngage(w, j, p, id);
    AttemptsBefore(w, i, g, id);
    RowsOfAttempts(w, id);
    last := BothInsert(AfterBoot(w, j, p), db, w.ps, i, pi, g, j, q, id);
  }

  /** The worker at `i` finishes, and the one at `j` inserts the rows again. */
  lemma BothInsert(w0: World, db: Db, ps: seq<Process>, i: nat, p: Process, g: nat, j: nat, q: Process, id: Id)
      returns (last: World)
    requires BothWork(w0, db, ps, i, p, g, j, q, id) && db.uploads[id].file.Rows? && !p.gos[g].Failing?
    requires db.uploads[id].ledgerRows == db.uploads[id].attempts * db.uploads[id].file.n
    requires db.uploads[id].attempts >= db.uploads[id].lost
    requires p.gos[g].Inserted? ==> db.uploads[id].attempts == db.uploads[id].lost + 1
    ensures Leads(w0, last) && id in last.db.uploads
    ensures var u := last.db.uploads[id];
            && u.lost == db.uploads[id].lost && u.attempts >= u.lost + 2
            && u.file == db.uploads[id].file && u.ledgerRows == u.attempts * u.file.n
  {
    FinalRows(db.uploads[id], p.gos[g]);
    var done, after := FirstFinishes(w0, db, ps, i, p, g, j, q, id);
    last := InsertsAgain(w0, after, j, id, db.uploads[id].key);
    CopiesAgain(after.db.uploads[id], last.db.uploads[id]);
  }

  lemma CopiesAgain(u: Upload, v: Upload)
    requires u.file.Rows? && u.ledgerRows == u.attempts * u.file.n && u.attempts >= u.lost + 1
    requires v == u.(ledgerRows := u.ledgerRows + u.file.n, attempts := u.attempts + 1)
    ensures v.attempts >= v.lost + 2 && v.ledgerRows == v.attempts * v.file.n
  {
    OneMoreAttempt(u.attempts, u.file.n);
  }

  /** One copy of the rows per committed extraction, and at least one more of these than were cut off. */
  lemma FinalRows(u: Upload, w: Goroutine)
    requires u.file.Rows? && !w.Failing? && u.ledgerRows == u.attempts * u.file.n
    requires u.attempts >= u.lost && (w.Inserted? ==> u.attempts == u.lost + 1)
    ensures var v := FinalOf(u, w);
            v.file == u.file && v.lost == u.lost && v.attempts >= v.lost + 1 && v.ledgerRows == v.attempts * u.file.n
  {
    OneMoreAttempt(u.attempts, u.file.n);
  }

  lemma RowsOfAttempts(w: World, id: Id)
    requires WorldInv(w) && id in w.db.uploads && w.db.uploads[id].file.Rows?
    ensures w.db.uploads[id].ledgerRows == w.db.uploads[id].attempts * w.db.uploads[id].file.n
  {
    assert UploadInv(w.db, id, StageOf(Gos(w.ps), id));
  }

  lemma InsertsAgain(w0: World, w: World, j: nat, id: Id, key: ObjectKey) returns (last: World)
    requires Leads(w0, w) && j < |w.ps| && w.ps[j].gos != [] && w.ps[j].gos[0] == Marked(id, key)
    requires id in w.db.uploads && w.db.uploads[id].file.Rows?
    requires key.Key? && key.k in w.db.objects && w.db.objects[key.k] == w.db.uploads[id].file
    ensures Leads(w0, last) && id in last.db.uploads
    ensures var u := w.db.uploads[id];
            last.db.uploads[id] == u.(ledgerRows := u.ledgerRows + u.file.n, attempts := u.attempts + 1)
  {
    var u := w.db.uploads[id];
    var db' := PutUpload(w.db, id, u.(ledgerRows := u.ledgerRows + u.file.n, attempts := u.attempts + 1));
    var p' := SetGo(w.ps[j], 0, Inserted(id, key, u.file.n));
    ActLeads(w0, w.db, w.ps, j, Work(0, Ok), db', p');
    last := World(db', w.ps[j := p']);
  }

  // ---------- It happens ----------

  const TWO_IDLE := [Idle, Idle]

  /** The first upload of the first replica, before it is enqueued. */
  function FirstUpload(n: nat): Db {
    WithUpload(EMPTY.(objects := map[0 := Rows(n)]), 0, 0, Rows(n))
  }

  function FirstStored(n: nat): Db {
    EMPTY.(objects := map[0 := Rows(n)])
  }

  function First(gos: seq<Goroutine>): seq<Process> {
    [Process([], [], gos), DOWN]
  }

  lemma FirstSteps(n: nat)
    requires n > 0
    ensures Moves(World(EMPTY, [DOWN, DOWN]), Boot(0, Process([], [], TWO_IDLE)),
                  World(EMPTY, First(TWO_IDLE)))
    ensures Moves(World(EMPTY, First(TWO_IDLE)), Act(0, Store(0, 0, Rows(n))),
                  World(FirstStored(n), First([Stored(0, Rows(n)), Idle])))
    ensures Moves(World(FirstStored(n), First([Stored(0, Rows(n)), Idle])), Act(0, Create(0, 0, Ok)),
                  World(FirstUpload(n), First([Created(0), Idle])))
  {}

  lemma CreatedCounts(gos: seq<Goroutine>, id: Id)
    requires gos != [] && gos[0] == Created(id)
    ensures GoBag(gos)[Job(id)] >= 1
  {
    GoBagUpdate(gos, 0, Idle);
  }

  lemma FirstHolds(n: nat)
    ensures UnsafeBoot(World(FirstUpload(n), First([Created(0), Idle])), 1, Process([], [0], TWO_IDLE), 0)
  {
    SlotBag(First([Created(0), Idle]), 0);
    CreatedCounts([Created(0), Idle], 0);
  }

  lemma ThreeMoves(ws: seq<World>, acts: seq<Action>)
    requires |ws| == 4 && |acts| == 3
    requires ws[0].db == EMPTY && DownFrom(ws[0].ps, 0)
    requires Moves(ws[0], acts[0], ws[1]) && Moves(ws[1], acts[1], ws[2]) && Moves(ws[2], acts[2], ws[3])
    requires SafeAction(ws[0], acts[0]) && SafeAction(ws[1], acts[1]) && SafeAction(ws[2], acts[2])
    ensures SafeRun(ws, acts)
  {
    forall i: nat | i < |acts| ensures MovesAt(ws, acts, i) && SafeAt(ws, acts, i) {
      assert i == 0 || i == 1 || i == 2;
    }
  }

  /** A second replica that starts while the first still handles an upload. */
  lemma ScaleUpIsUnsafe(n: nat) returns (ws: seq<World>, acts: seq<Action>)
    requires n > 0
    ensures SafeRun(ws, acts) && |ws| == 4 && |ws[0].ps| == 2
    ensures UnsafeBoot(ws[3], 1, Process([], [0], TWO_IDLE), 0)
    ensures 0 in ws[3].db.uploads && ws[3].db.uploads[0].file == Rows(n)
  {
    ws := [World(EMPTY, [DOWN, DOWN]), World(EMPTY, First(TWO_IDLE)),
           World(FirstStored(n), First([Stored(0, Rows(n)), Idle])), World(FirstUpload(n), First([Created(0), Idle]))];
    acts := [Boot(0, Process([], [], TWO_IDLE)), Act(0, Store(0, 0, Rows(n))), Act(0, Create(0, 0, Ok))];
    FirstSteps(n);
    FirstHolds(n);
    ThreeMoves(ws, acts);
  }
}
