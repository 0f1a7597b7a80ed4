/** From any state of a safe run, crashes, a restart and no further failure can finish every upload. */
module Recovery {
  import opened Statements
  import opened Queue
  import opened Cluster

  // ---------- Continuations ----------

  ghost predicate StepsAt(ws: seq<World>, acts: seq<Action>, i: nat)
    requires i < |acts| && |ws| == |acts| + 1
  {
    Moves(ws[i], acts[i], ws[i + 1]) && SafeAction(ws[i], acts[i])
  }

  ghost predicate IsPath(ws: seq<World>, acts: seq<Action>, w: World, w': World) {
    && |ws| == |acts| + 1 && ws[0] == w && ws[|acts|] == w'
    && forall i: nat :: i < |acts| ==> StepsAt(ws, acts, i)
  }

  /** `w'` can follow on `w` without an unsafe boot. */
  ghost predicate Leads(w: World, w': World) {
    exists ws, acts :: IsPath(ws, acts, w, w')
  }

  lemma LeadsSelf(w: World)
    ensures Leads(w, w)
  {
    assert IsPath([w], [], w, w);
  }

  lemma PathThen(ws: seq<World>, acts: seq<Action>, w: World, w': World, a: Action, w'': World)
    requires IsPath(ws, acts, w, w') && Moves(w', a, w'') && SafeAction(w', a)
    ensures IsPath(ws + [w''], acts + [a], w, w'')
  {
    forall i: nat | i < |acts + [a]| ensures StepsAt(ws + [w''], acts + [a], i) {
      if i < |acts| {
        EarlierStep(ws, acts, a, w'', i);
      } else {
        LastStep(ws, acts, a, w'');
      }
    }
  }

  lemma EarlierStep(ws: seq<World>, acts: seq<Action>, a: Action, w: World, i: nat)
    requires i < |acts| && |ws| == |acts| + 1 && StepsAt(ws, acts, i)
    ensures StepsAt(ws + [w], acts + [a], i)
  {
    assert (ws + [w])[i] == ws[i] && (ws + [w])[i + 1] == ws[i + 1] && (acts + [a])[i] == acts[i];
  }

  lemma LastStep(ws: seq<World>, acts: seq<Action>, a: Action, w: World)
    requires |ws| == |acts| + 1 && Moves(ws[|acts|], a, w) && SafeAction(ws[|acts|], a)
    ensures StepsAt(ws + [w], acts + [a], |acts|)
  {
    assert (ws + [w])[|acts|] == ws[|acts|] && (ws + [w])[|acts| + 1] == w && (acts + [a])[|acts|] == a;
  }

  lemma LeadsThen(w: World, w': World, a: Action, w'': World)
    requires Leads(w, w') && Moves(w', a, w'') && SafeAction(w', a)
    ensures Leads(w, w'')
  {
    var ws, acts :| IsPath(ws, acts, w, w');
    PathThen(ws, acts, w, w', a, w'');
  }

  lemma PathStepKeepsInv(ws: seq<World>, acts: seq<Action>, i: nat)
    requires |ws| == |acts| + 1 && 0 < i < |ws| && WorldInv(ws[i - 1]) && StepsAt(ws, acts, i - 1)
    ensures WorldInv(ws[i])
  {
    MoveKeepsInv(ws[i - 1], acts[i - 1], ws[i]);
  }

  lemma {:induction false} PathKeepsInv(ws: seq<World>, acts: seq<Action>, i: nat)
    requires |ws| == |acts| + 1 && i < |ws| && WorldInv(ws[0])
    requires forall k: nat :: k < |acts| ==> StepsAt(ws, acts, k)
    ensures WorldInv(ws[i])
    decreases i
  {
    if i > 0 {
      PathKeepsInv(ws, acts, i - 1);
      PathStepKeepsInv(ws, acts, i);
    }
  }

  lemma LeadsKeepsInv(w: World, w': World)
    requires WorldInv(w) && Leads(w, w')
    ensures WorldInv(w')
  {
    var ws, acts :| IsPath(ws, acts, w, w');
    PathKeepsInv(ws, acts, |acts|);
  }

  /** One process takes a step. */
  lemma ActLeads(w0: World, db: Db, ps: seq<Process>, i: nat, step: Step, db': Db, p': Process)
    requires i < |ps| && Leads(w0, World(db, ps)) && ps[i] != DOWN && Next(db, ps[i], step, db', p')
    ensures Leads(w0, World(db', ps[i := p']))
  {
    LeadsThen(w0, World(db, ps), Act(i, step), World(db', ps[i := p']));
  }

  // ---------- Crashing everything ----------

  /** The same uploads, as far as anything but lost extractions goes. */
  ghost predicate SameUploads(db: Db, db': Db) {
    && db'.uploads.Keys == db.uploads.Keys
    && db'.keyOf == db.keyOf
    && forall id :: id in db.uploads ==> db'.uploads[id] == db.uploads[id].(lost := db'.uploads[id].lost)
  }

  ghost predicate DownFrom(ps: seq<Process>, n: nat) {
    forall i :: n <= i < |ps| ==> ps[i] == DOWN
  }

  lemma {:induction false} CrashAll(w0: World, w: World, n: nat) returns (w': World)
    requires Leads(w0, w) && n <= |w.ps| && DownFrom(w.ps, n)
    ensures Leads(w0, w') && |w'.ps| == |w.ps| && DownFrom(w'.ps, 0) && SameUploads(w.db, w'.db)
    decreases n
  {
    if n == 0 {
      w' := w;
    } else {
      var i := n - 1;
      var next := World(AfterCrash(w.db, w.ps[i].gos), w.ps[i := DOWN]);
      LeadsThen(w0, w, Crash(i), next);
      w' := CrashAll(w0, next, i);
    }
  }

  // ---------- Finishing one upload after another ----------

  /** Slot `i` with its first goroutine at `w` while `rest` is still to be recovered. */
  function At(ps: seq<Process>, i: nat, db: Db, rest: seq<Id>, gos: seq<Goroutine>, w: Goroutine): World
    requires i < |ps| && gos != []
  {
    World(db, ps[i := Process([], rest, gos[0 := w])])
  }

  lemma SlotStep(w0: World, ps: seq<Process>, i: nat, db: Db, p: Process, step: Step, db': Db, p': Process)
    requires i < |ps| && Leads(w0, World(db, ps[i := p])) && p != DOWN && Next(db, p, step, db', p')
    ensures Leads(w0, World(db', ps[i := p']))
  {
    ActLeads(w0, db, ps[i := p], i, step, db', p');
    assert ps[i := p][i := p'] == ps[i := p'];
  }

  lemma WorkLeads(w0: World, ps: seq<Process>, i: nat, db: Db, rest: seq<Id>, gos: seq<Goroutine>, w: Goroutine,
                  db': Db, w': Goroutine)
    requires i < |ps| && gos != [] && Leads(w0, At(ps, i, db, rest, gos, w))
    requires IsWorker(w) && WorkOn(db, w, Ok) == (db', w')
    ensures Leads(w0, At(ps, i, db', rest, gos, w'))
  {
    SlotStep(w0, ps, i, db, Process([], rest, gos[0 := w]), Work(0, Ok), db', Process([], rest, gos[0 := w']));
  }

  lemma TakeOne(w0: World, ps: seq<Process>, i: nat, db: Db, x: Id, rest: seq<Id>, gos: seq<Goroutine>)
    requires i < |ps| && gos != [] && gos[0] == Idle
    requires Leads(w0, World(db, ps[i := Process([], [x] + rest, gos)]))
    ensures Leads(w0, At(ps, i, db, rest, gos, Picked(x)))
  {
    assert ([x] + rest)[1..] == rest && Enqueue([], x) == [x];
    SlotStep(w0, ps, i, db, Process([], [x] + rest, gos), RecoverNext, db, Process([x], rest, gos));
    assert [x][1..] == [];
    SlotStep(w0, ps, i, db, Process([x], rest, gos), Take(0), db, Process([], rest, gos[0 := Picked(x)]));
  }

  /** Recover, take, load and mark one unfinished upload. */
  lemma BeginOne(w0: World, ps: seq<Process>, i: nat, db: Db, x: Id, rest: seq<Id>, gos: seq<Goroutine>)
    requires i < |ps| && gos != [] && gos[0] == Idle && x in db.uploads && Unfinished(db.uploads[x])
    requires Leads(w0, World(db, ps[i := Process([], [x] + rest, gos)]))
    ensures Leads(w0, At(ps, i, PutUpload(db, x, db.uploads[x].(status := Processing)), rest, gos, Marked(x, db.uploads[x].key)))
  {
    var u := db.uploads[x];
    TakeOne(w0, ps, i, db, x, rest, gos);
    WorkLeads(w0, ps, i, db, rest, gos, Picked(x), db, Loaded(x, u.key));
    WorkLeads(w0, ps, i, db, rest, gos, Loaded(x, u.key), PutUpload(db, x, u.(status := Processing)), Marked(x, u.key));
  }

  /** The upload as the remaining statements leave it when none fails. */
  function Finished(u: Upload): Upload {
    if u.file.Rows?
    then u.(status := Done, key := NoKey, txnCount := u.file.n,
            ledgerRows := u.ledgerRows + u.file.n, attempts := u.attempts + 1)
    else u.(status := Error)
  }

  lemma EndOne(w0: World, ps: seq<Process>, i: nat, db: Db, x: Id, rest: seq<Id>, gos: seq<Goroutine>) returns (db': Db)
    requires i < |ps| && gos != [] && gos[0] == Idle && x in db.uploads
    requires var u := db.uploads[x];
             u.key.Key? && u.key.k in db.objects && db.objects[u.key.k] == u.file
             && Leads(w0, At(ps, i, db, rest, gos, Marked(x, u.key)))
    ensures Leads(w0, World(db', ps[i := Process([], rest, gos)]))
    ensures db'.uploads == db.uploads[x := Finished(db.uploads[x])] && db'.keyOf == db.keyOf
    ensures db'.objects == db.objects - if db.uploads[x].file.Rows? then {db.uploads[x].key.k} else {}
  {
    var u := db.uploads[x];
    if u.file.Rows? {
      var n := u.file.n;
      var inserted := PutUpload(db, x, u.(ledgerRows := u.ledgerRows + n, attempts := u.attempts + 1));
      WorkLeads(w0, ps, i, db, rest, gos, Marked(x, u.key), inserted, Inserted(x, u.key, n));
      var done := PutUpload(inserted, x, Finished(u));
      WorkLeads(w0, ps, i, inserted, rest, gos, Inserted(x, u.key, n), done, Purging(x, u.key));
      db' := done.(objects := done.objects - {u.key.k});
      WorkLeads(w0, ps, i, done, rest, gos, Purging(x, u.key), db', Idle);
    } else {
      WorkLeads(w0, ps, i, db, rest, gos, Marked(x, u.key), db, Failing(x));
      db' := PutUpload(db, x, Finished(u));
      WorkLeads(w0, ps, i, db, rest, gos, Failing(x), db', Idle);
    }
    assert gos[0 := Idle] == gos;
  }

  /** The upload is finished: done and its file purged if that parsed, else an error. */
  ghost predicate FinishedIn(db: Db, id: Id, db': Db) {
    && id in db.uploads && id in db'.uploads && id in db'.keyOf && !Unfinished(db'.uploads[id])
    && (db.uploads[id].file.Rows? ==> db'.uploads[id].status == Done && db'.keyOf[id] !in db'.objects)
  }

  /** The uploads are the same, and no object is staged that was not before. */
  ghost predicate NothingStaged(db: Db, db': Db) {
    db'.uploads.Keys == db.uploads.Keys && db'.keyOf == db.keyOf && db'.objects.Keys <= db.objects.Keys
  }

  ghost predicate AllFinished(db: Db, ids: seq<Id>, db': Db) {
    forall id :: id in ids ==> FinishedIn(db, id, db')
  }

  lemma FinishedStays(db: Db, one: Db, x: Id, db': Db)
    requires FinishedIn(db, x, one) && NothingStaged(one, db') && db'.uploads[x] == one.uploads[x]
    ensures FinishedIn(db, x, db')
  {}

  lemma FinishOne(w0: World, ps: seq<Process>, i: nat, db: Db, x: Id, rest: seq<Id>, gos: seq<Goroutine>) returns (db': Db)
    requires i < |ps| && gos != [] && gos[0] == Idle && x in db.uploads && Unfinished(db.uploads[x])
    requires WorldInv(World(db, ps[i := Process([], [x] + rest, gos)]))
    requires Leads(w0, World(db, ps[i := Process([], [x] + rest, gos)]))
    ensures Leads(w0, World(db', ps[i := Process([], rest, gos)]))
    ensures NothingStaged(db, db')
    ensures forall id :: id in db.uploads && id != x ==> db'.uploads[id] == db.uploads[id]
    ensures FinishedIn(db, x, db')
  {
    assert UploadInv(db, x, StageOf(Gos(ps[i := Process([], [x] + rest, gos)]), x));
    BeginOne(w0, ps, i, db, x, rest, gos);
    db' := EndOne(w0, ps, i, PutUpload(db, x, db.uploads[x].(status := Processing)), x, rest, gos);
  }

  /** Every upload the recovery list names can be finished, one after another. */
  lemma {:induction false} FinishAll(w0: World, ps: seq<Process>, i: nat, db: Db, ids: seq<Id>, gos: seq<Goroutine>)
      returns (db': Db)
    requires i < |ps| && gos != [] && gos[0] == Idle && WorldInv(w0)
    requires Leads(w0, World(db, ps[i := Process([], ids, gos)]))
    requires forall k, l :: 0 <= k < l < |ids| ==> ids[k] != ids[l]
    requires forall id :: id in ids ==> id in db.uploads && Unfinished(db.uploads[id])
    ensures Leads(w0, World(db', ps[i := Process([], [], gos)]))
    ensures NothingStaged(db, db') && AllFinished(db, ids, db')
    ensures forall id :: id in db.uploads && id !in ids ==> db'.uploads[id] == db.uploads[id]
    decreases |ids|
  {
    if ids == [] {
      return db;
    }
    var x, rest := ids[0], ids[1..];
    assert ids == [x] + rest && x in ids && x !in rest;
    LeadsKeepsInv(w0, World(db, ps[i := Process([], ids, gos)]));
    var one := FinishOne(w0, ps, i, db, x, rest, gos);
    forall id | id in rest ensures id in one.uploads && Unfinished(one.uploads[id]) {
      assert id in ids;
    }
    db' := FinishAll(w0, ps, i, one, rest, gos);
    FinishedStays(db, one, x, db');
    forall id | id in ids ensures FinishedIn(db, id, db') {
      if id != x {
        assert id in rest && FinishedIn(one, id, db');
      }
    }
  }

  lemma AllDownHoldsNothing(w: World, id: Id)
    requires DownFrom(w.ps, 0)
    ensures HeldIn(w, id) == 0
  {
    AllDown(w.ps);
  }

  lemma ScanAgain(db: Db, db': Db, ids: seq<Id>)
    requires Scan(db, ids) && SameUploads(db, db')
    ensures Scan(db', ids)
  {}

  /** Nothing is lost for good: from any state of a safe run, if every replica crashes and any one slot
      boots with any scan order, a run without further failures ends with every upload finished, and
      every parseable one done. */
  lemma EveryUploadCanFinish(ws: seq<World>, acts: seq<Action>, n: nat, i: nat, p: Process) returns (last: World)
    requires SafeRun(ws, acts) && n < |ws| && i < |ws[n].ps|
    requires Booted(ws[n].db, p) && Scan(ws[n].db, p.recovery)
    ensures Leads(ws[n], last) && last.db.uploads.Keys == ws[n].db.uploads.Keys
    ensures forall id :: id in ws[n].db.uploads ==>
              && !Unfinished(last.db.uploads[id])
              && (Unfinished(ws[n].db.uploads[id]) && ws[n].db.uploads[id].file.Rows?
                  ==> last.db.uploads[id].status == Done && id in ws[n].db.keyOf && ws[n].db.keyOf[id] !in last.db.objects)
  {
    var w := ws[n];
    RunInv(ws, acts, n);
    LeadsSelf(w);
    var down := CrashAll(w, w, |w.ps|);
    forall id | id in p.recovery ensures HeldIn(down, id) == 0 {
      AllDownHoldsNothing(down, id);
    }
    ScanAgain(w.db, down.db, p.recovery);
    LeadsThen(w, down, Boot(i, p), World(down.db, down.ps[i := p]));
    assert p == Process([], p.recovery, p.gos);
    var db' := FinishAll(w, down.ps, i, down.db, p.recovery, p.gos);
    last := World(db', down.ps[i := Process([], [], p.gos)]);
  }
}
