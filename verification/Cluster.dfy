/** Any number of backend replicas over one database and one object store. Each may crash at any point and
    boot again with a recovery scan. What holds over every run in which no boot scans an upload that a
    live replica still holds; with a single replica every run is of that kind. */
module Cluster {
  import opened Statements
  import opened Queue

  datatype World = World(db: Db, ps: seq<Process>)

  datatype Action =
    | Act(i: nat, step: Step)
    | Crash(i: nat)
    | Boot(i: nat, p: Process)

  ghost predicate Moves(w: World, a: Action, w': World) {
    match a
    case Act(i, step) =>
      && i < |w.ps| == |w'.ps| && w.ps[i] != DOWN
      && Next(w.db, w.ps[i], step, w'.db, w'.ps[i])
      && w'.ps == w.ps[i := w'.ps[i]]
    case Crash(i) =>
      i < |w.ps| && w' == World(AfterCrash(w.db, w.ps[i].gos), w.ps[i := DOWN])
    case Boot(i, p) =>
      i < |w.ps| && w.ps[i] == DOWN && Booted(w.db, p) && w' == w.(ps := w.ps[i := p])
  }

  // ---------- All processes as one pool ----------

  function Waiting(p: Process): multiset<Id> {
    multiset(p.channel) + multiset(p.recovery)
  }

  function Queued(ps: seq<Process>): multiset<Id> {
    if ps == [] then multiset{} else Queued(ps[..|ps| - 1]) + Waiting(ps[|ps| - 1])
  }

  function Gos(ps: seq<Process>): seq<Goroutine> {
    if ps == [] then [] else Gos(ps[..|ps| - 1]) + ps[|ps| - 1].gos
  }

  function PoolOf(ps: seq<Process>): Pool {
    Pool(Queued(ps), Gos(ps))
  }

  lemma Regroup<T>(a: seq<T>, b: seq<T>)
    requires b != []
    ensures a + b == a + b[..|b| - 1] + [b[|b| - 1]]
  {}

  lemma Assoc<T>(a: seq<T>, b: seq<T>, c: seq<T>)
    ensures a + b + c == a + (b + c)
  {}

  lemma {:induction false} GosConcat(a: seq<Process>, b: seq<Process>)
    ensures Gos(a + b) == Gos(a) + Gos(b)
    decreases |b|
  {
    if b == [] {
      assert a + b == a;
    } else {
      var b', p := b[..|b| - 1], b[|b| - 1];
      GosConcat(a, b');
      GosLast(a + b', p);
      Regroup(a, b);
      Assoc(Gos(a), Gos(b'), p.gos);
    }
  }

  lemma GosLast(ps: seq<Process>, p: Process)
    ensures Gos(ps + [p]) == Gos(ps) + p.gos
  {
    assert (ps + [p])[..|ps|] == ps;
  }

  lemma {:induction false} QueuedConcat(a: seq<Process>, b: seq<Process>)
    ensures Queued(a + b) == Queued(a) + Queued(b)
    decreases |b|
  {
    if b == [] {
      assert a + b == a;
    } else {
      QueuedConcat(a, b[..|b| - 1]);
      QueuedLast(a + b[..|b| - 1], b[|b| - 1]);
      Regroup(a, b);
    }
  }

  lemma QueuedLast(ps: seq<Process>, p: Process)
    ensures Queued(ps + [p]) == Queued(ps) + Waiting(p)
  {
    assert (ps + [p])[..|ps|] == ps;
  }

  /** What the processes other than `i` have waiting. */
  function Others(ps: seq<Process>, i: nat): multiset<Id>
    requires i < |ps|
  {
    Queued(ps[..i]) + Queued(ps[i + 1..])
  }

  lemma GosAt(ps: seq<Process>, i: nat, p: Process)
    requires i < |ps|
    ensures Gos(ps[i := p]) == Gos(ps[..i]) + p.gos + Gos(ps[i + 1..])
  {
    assert ps[i := p] == ps[..i] + [p] + ps[i + 1..];
    GosConcat(ps[..i] + [p], ps[i + 1..]);
    GosLast(ps[..i], p);
  }

  lemma QueuedAt(ps: seq<Process>, i: nat, p: Process)
    requires i < |ps|
    ensures Queued(ps[i := p]) == Others(ps, i) + Waiting(p)
  {
    assert ps[i := p] == ps[..i] + [p] + ps[i + 1..];
    QueuedConcat(ps[..i] + [p], ps[i + 1..]);
    QueuedLast(ps[..i], p);
  }

  /** Process `i` among the others. */
  lemma PoolAt(ps: seq<Process>, i: nat, p: Process)
    requires i < |ps|
    ensures PoolOf(ps[i := p]) == Pool(Others(ps, i) + Waiting(p), Gos(ps[..i]) + p.gos + Gos(ps[i + 1..]))
  {
    GosAt(ps, i, p);
    QueuedAt(ps, i, p);
  }

  lemma PoolHere(ps: seq<Process>, i: nat)
    requires i < |ps|
    ensures PoolOf(ps) == Pool(Others(ps, i) + Waiting(ps[i]), Gos(ps[..i]) + ps[i].gos + Gos(ps[i + 1..]))
  {
    PoolAt(ps, i, ps[i]);
    assert ps[i := ps[i]] == ps;
  }

  /** What one process's goroutines hold is held by the pool. */
  lemma SlotBag(ps: seq<Process>, i: nat)
    requires i < |ps|
    ensures GoBag(ps[i].gos) <= GoBag(Gos(ps))
  {
    GosAt(ps, i, ps[i]);
    assert ps[i := ps[i]] == ps;
    GoBagConcat(Gos(ps[..i]) + ps[i].gos, Gos(ps[i + 1..]));
    GoBagConcat(Gos(ps[..i]), ps[i].gos);
  }

  /** The position in the pool of a process's goroutine. */
  function Shift(step: Step, n: nat): Step {
    match step
    case RecoverNext => step
    case Store(g, k, file) => Store(n + g, k, file)
    case Create(g, id, o) => Create(n + g, id, o)
    case Submit(g) => Submit(n + g)
    case Take(g) => Take(n + g)
    case Work(g, o) => Work(n + g, o)
    case Delete(_) => step
  }

  lemma UpdateInside(a: seq<Goroutine>, gos: seq<Goroutine>, b: seq<Goroutine>, g: nat, w: Goroutine)
    requires g < |gos|
    ensures (a + gos + b)[|a| + g] == gos[g]
    ensures (a + gos + b)[|a| + g := w] == a + gos[g := w] + b
  {}

  /** A process beside the goroutines `a` and `b` and the ids `rest` of the others. */
  function Beside(p: Process, a: seq<Goroutine>, b: seq<Goroutine>, rest: multiset<Id>): Pool {
    Pool(rest + Waiting(p), a + p.gos + b)
  }

  lemma EnqueueBag(channel: seq<Id>, id: Id)
    ensures multiset(Enqueue(channel, id)) <= multiset(channel) + multiset{id}
  {}

  lemma RecoverNextInPool(db: Db, p: Process, step: Step, db': Db, p': Process,
                    a: seq<Goroutine>, b: seq<Goroutine>, rest: multiset<Id>)
    requires Next(db, p, step, db', p') && step.RecoverNext?
    ensures PoolNext(db, Beside(p, a, b, rest), Shift(step, |a|), db', Beside(p', a, b, rest))
  {
    HeadBag(p.recovery);
    EnqueueBag(p.channel, p.recovery[0]);
  }

  lemma SubmitInPool(db: Db, p: Process, step: Step, db': Db, p': Process,
                    a: seq<Goroutine>, b: seq<Goroutine>, rest: multiset<Id>)
    requires Next(db, p, step, db', p') && step.Submit?
    ensures PoolNext(db, Beside(p, a, b, rest), Shift(step, |a|), db', Beside(p', a, b, rest))
  {
    UpdateInside(a, p.gos, b, step.g, Idle);
    EnqueueBag(p.channel, p.gos[step.g].id);
  }

  lemma TakeInPool(db: Db, p: Process, step: Step, db': Db, p': Process,
                    a: seq<Goroutine>, b: seq<Goroutine>, rest: multiset<Id>)
    requires Next(db, p, step, db', p') && step.Take?
    ensures PoolNext(db, Beside(p, a, b, rest), Shift(step, |a|), db', Beside(p', a, b, rest))
  {
    var id := p.channel[0];
    UpdateInside(a, p.gos, b, step.g, Picked(id));
    HeadBag(p.channel);
    assert Beside(p, a, b, rest).queued == Beside(p', a, b, rest).queued + multiset{id};
  }

  lemma StoreInPool(db: Db, p: Process, step: Step, db': Db, p': Process,
                    a: seq<Goroutine>, b: seq<Goroutine>, rest: multiset<Id>)
    requires Next(db, p, step, db', p') && step.Store?
    ensures PoolNext(db, Beside(p, a, b, rest), Shift(step, |a|), db', Beside(p', a, b, rest))
  {
    UpdateInside(a, p.gos, b, step.g, Stored(step.k, step.file));
  }

  lemma CreateInPool(db: Db, p: Process, step: Step, db': Db, p': Process,
                    a: seq<Goroutine>, b: seq<Goroutine>, rest: multiset<Id>)
    requires Next(db, p, step, db', p') && step.Create?
    ensures PoolNext(db, Beside(p, a, b, rest), Shift(step, |a|), db', Beside(p', a, b, rest))
  {
    UpdateInside(a, p.gos, b, step.g, p'.gos[step.g]);
  }

  lemma WorkInPool(db: Db, p: Process, step: Step, db': Db, p': Process,
                    a: seq<Goroutine>, b: seq<Goroutine>, rest: multiset<Id>)
    requires Next(db, p, step, db', p') && step.Work?
    ensures PoolNext(db, Beside(p, a, b, rest), Shift(step, |a|), db', Beside(p', a, b, rest))
  {
    assert Waiting(p') == Waiting(p);
    UpdateInside(a, p.gos, b, step.g, p'.gos[step.g]);
  }

  lemma StepInPool(db: Db, p: Process, step: Step, db': Db, p': Process,
                    a: seq<Goroutine>, b: seq<Goroutine>, rest: multiset<Id>)
    requires Next(db, p, step, db', p')
    ensures PoolNext(db, Beside(p, a, b, rest), Shift(step, |a|), db', Beside(p', a, b, rest))
  {
    match step
    case RecoverNext => RecoverNextInPool(db, p, step, db', p', a, b, rest);
    case Store(_, _, _) => StoreInPool(db, p, step, db', p', a, b, rest);
    case Create(_, _, _) => CreateInPool(db, p, step, db', p', a, b, rest);
    case Submit(_) => SubmitInPool(db, p, step, db', p', a, b, rest);
    case Take(_) => TakeInPool(db, p, step, db', p', a, b, rest);
    case Work(_, _) => WorkInPool(db, p, step, db', p', a, b, rest);
    case Delete(_) =>
  }

  /** A statement of one process is a statement of the pool. */
  lemma ActIsPoolStep(db: Db, ps: seq<Process>, i: nat, step: Step, db': Db, p': Process)
    requires i < |ps| && Next(db, ps[i], step, db', p')
    ensures PoolNext(db, PoolOf(ps), Shift(step, |Gos(ps[..i])|), db', PoolOf(ps[i := p']))
  {
    PoolHere(ps, i);
    PoolAt(ps, i, p');
    StepInPool(db, ps[i], step, db', p', Gos(ps[..i]), Gos(ps[i + 1..]), Others(ps, i));
  }

  // ---------- Safe runs ----------

  /** How often an id is held by all live processes together. */
  function HeldIn(w: World, id: Id): nat {
    Held(PoolOf(w.ps), id)
  }

  /** A booting process must not scan an upload that a live one still holds. */
  ghost predicate SafeAction(w: World, a: Action) {
    a.Boot? ==> forall id :: id in a.p.recovery ==> HeldIn(w, id) == 0
  }

  ghost predicate MovesAt(ws: seq<World>, acts: seq<Action>, i: nat)
    requires i < |acts| && |ws| == |acts| + 1
  {
    Moves(ws[i], acts[i], ws[i + 1])
  }

  /** From the empty database with every slot down. */
  ghost predicate Run(ws: seq<World>, acts: seq<Action>) {
    && |ws| == |acts| + 1
    && ws[0].db == EMPTY && (forall i :: 0 <= i < |ws[0].ps| ==> ws[0].ps[i] == DOWN)
    && forall i: nat :: i < |acts| ==> MovesAt(ws, acts, i)
  }

  ghost predicate SafeAt(ws: seq<World>, acts: seq<Action>, i: nat)
    requires i < |acts| && |ws| == |acts| + 1
  {
    SafeAction(ws[i], acts[i])
  }

  ghost predicate SafeRun(ws: seq<World>, acts: seq<Action>) {
    Run(ws, acts) && forall i: nat :: i < |acts| ==> SafeAt(ws, acts, i)
  }

  ghost predicate ProcessInv(p: Process) {
    |p.channel| <= CAPACITY && (p == DOWN || |p.gos| >= 2)
  }

  ghost predicate ProcessesInv(ps: seq<Process>) {
    forall i :: 0 <= i < |ps| ==> ProcessInv(ps[i])
  }

  ghost predicate WorldInv(w: World) {
    Inv(w.db, PoolOf(w.ps)) && ProcessesInv(w.ps)
  }

  lemma ActKeepsProcess(db: Db, p: Process, step: Step, db': Db, p': Process)
    requires ProcessInv(p) && p != DOWN && Next(db, p, step, db', p')
    ensures ProcessInv(p')
  {}

  lemma MoveKeepsProcesses(w: World, a: Action, w': World)
    requires ProcessesInv(w.ps) && Moves(w, a, w')
    ensures ProcessesInv(w'.ps)
  {
    if a.Act? {
      ActKeepsProcess(w.db, w.ps[a.i], a.step, w'.db, w'.ps[a.i]);
    }
  }

  /** The pool with slot `i` occupied, and with the slot down. */
  lemma SlotDown(ps: seq<Process>, i: nat, p: Process)
    requires i < |ps|
    ensures PoolOf(ps[i := DOWN]).gos == Gos(ps[..i]) + Gos(ps[i + 1..])
    ensures PoolOf(ps[i := p]).gos == Gos(ps[..i]) + p.gos + Gos(ps[i + 1..])
    ensures PoolOf(ps[i := p]).queued == PoolOf(ps[i := DOWN]).queued + Waiting(p)
  {
    GosAt(ps, i, DOWN);
    GosAt(ps, i, p);
    assert Gos(ps[..i]) + [] + Gos(ps[i + 1..]) == Gos(ps[..i]) + Gos(ps[i + 1..]);
    QueuedAt(ps, i, DOWN);
    QueuedAt(ps, i, p);
  }

  lemma CrashKeepsWorld(db: Db, ps: seq<Process>, i: nat)
    requires i < |ps| && Inv(db, PoolOf(ps))
    ensures Inv(AfterCrash(db, ps[i].gos), PoolOf(ps[i := DOWN]))
  {
    assert ps[i := ps[i]] == ps;
    SlotDown(ps, i, ps[i]);
    CrashKeepsInv(db, PoolOf(ps), Gos(ps[..i]), ps[i].gos, Gos(ps[i + 1..]), PoolOf(ps[i := DOWN]));
  }

  lemma BootKeepsWorld(db: Db, ps: seq<Process>, i: nat, p: Process)
    requires i < |ps| && Inv(db, PoolOf(ps)) && ps[i] == DOWN && Booted(db, p)
    requires forall id :: id in p.recovery ==> Held(PoolOf(ps), id) == 0
    ensures Inv(db, PoolOf(ps[i := p]))
  {
    assert ps[i := DOWN] == ps;
    SlotDown(ps, i, p);
    BootKeepsInv(db, PoolOf(ps), Gos(ps[..i]), p.gos, Gos(ps[i + 1..]), p.recovery, PoolOf(ps[i := p]));
  }

  /** Every statement, every crash and every safe boot keeps the invariant. */
  lemma MoveKeepsInv(w: World, a: Action, w': World)
    requires WorldInv(w) && Moves(w, a, w') && SafeAction(w, a)
    ensures WorldInv(w')
  {
    MoveKeepsProcesses(w, a, w');
    match a
    case Act(i, step) =>
      ActIsPoolStep(w.db, w.ps, i, step, w'.db, w'.ps[i]);
      NextKeepsInv(w.db, PoolOf(w.ps), Shift(step, |Gos(w.ps[..i])|), w'.db, PoolOf(w'.ps));
    case Crash(i) => CrashKeepsWorld(w.db, w.ps, i);
    case Boot(i, p) => BootKeepsWorld(w.db, w.ps, i, p);
  }

  lemma {:induction false} AllDown(ps: seq<Process>)
    requires forall i :: 0 <= i < |ps| ==> ps[i] == DOWN
    ensures PoolOf(ps) == Pool(multiset{}, [])
    decreases |ps|
  {
    if ps != [] {
      AllDown(ps[..|ps| - 1]);
    }
  }

  lemma RunStart(ws: seq<World>, acts: seq<Action>)
    requires SafeRun(ws, acts)
    ensures WorldInv(ws[0])
  {
    AllDown(ws[0].ps);
  }

  lemma RunStep(ws: seq<World>, acts: seq<Action>, i: nat)
    requires SafeRun(ws, acts) && 0 < i < |ws| && WorldInv(ws[i - 1])
    ensures WorldInv(ws[i])
  {
    assert MovesAt(ws, acts, i - 1) && SafeAt(ws, acts, i - 1);
    MoveKeepsInv(ws[i - 1], acts[i - 1], ws[i]);
  }

  lemma {:induction false} RunInv(ws: seq<World>, acts: seq<Action>, i: nat)
    requires SafeRun(ws, acts) && i < |ws|
    ensures WorldInv(ws[i])
    decreases i
  {
    if i == 0 {
      RunStart(ws, acts);
    } else {
      RunInv(ws, acts, i - 1);
      RunStep(ws, acts, i);
    }
  }

  lemma {:induction false} SlotsStay(ws: seq<World>, acts: seq<Action>, i: nat)
    requires Run(ws, acts) && i < |ws|
    ensures |ws[i].ps| == |ws[0].ps|
    decreases i
  {
    if i > 0 {
      SlotsStay(ws, acts, i - 1);
      assert MovesAt(ws, acts, i - 1);
    }
  }

  /** With a single replica every run is safe: it is down when it boots. */
  lemma OneReplicaIsSafe(ws: seq<World>, acts: seq<Action>)
    requires Run(ws, acts) && |ws[0].ps| == 1
    ensures SafeRun(ws, acts)
  {
    forall i: nat | i < |acts| ensures SafeAt(ws, acts, i) {
      SlotsStay(ws, acts, i);
      assert MovesAt(ws, acts, i);
      if acts[i].Boot? {
        AllDown(ws[i].ps);
      }
    }
  }

  // ---------- What every safe run keeps ----------

  /** Across all replicas, crashes and restarts, an upload is held at most once. */
  lemma NeverHeldTwice(ws: seq<World>, acts: seq<Action>, i: nat, id: Id)
    requires SafeRun(ws, acts) && i < |ws|
    ensures HeldIn(ws[i], id) <= 1
    ensures forall j :: 0 <= j < |ws[i].ps| ==> |ws[i].ps[j].channel| <= CAPACITY
  {
    RunInv(ws, acts, i);
    assert forall j :: 0 <= j < |ws[i].ps| ==> ProcessInv(ws[i].ps[j]);
  }

  lemma SlotGosInv(w: World, i: nat)
    requires WorldInv(w) && i < |w.ps|
    ensures GosInv(w.db, w.ps[i].gos)
  {
    PoolHere(w.ps, i);
    GosInvConcat(w.db, Gos(w.ps[..i]) + w.ps[i].gos, Gos(w.ps[i + 1..]));
    GosInvConcat(w.db, Gos(w.ps[..i]), w.ps[i].gos);
  }

  /** A finished upload keeps its whole row in every move unless it is deleted. */
  lemma MoveKeepsFinal(w: World, a: Action, w': World, id: Id, u: Upload)
    requires WorldInv(w) && Moves(w, a, w') && RowIs(w.db, id, u) && !Unfinished(u)
    ensures RowIs(w'.db, id, u)
  {
    match a
    case Act(i, step) =>
      ActIsPoolStep(w.db, w.ps, i, step, w'.db, w'.ps[i]);
      NextKeepsFinal(w.db, PoolOf(w.ps), Shift(step, |Gos(w.ps[..i])|), w'.db, PoolOf(w'.ps), id, u);
    case Crash(i) =>
      SlotGosInv(w, i);
      CrashKeepsFinal(w.db, w.ps[i].gos, id, u);
    case Boot(_, _) =>
  }

  lemma RowIsItself(ws: seq<World>, acts: seq<Action>, i: nat, id: Id)
    requires SafeRun(ws, acts) && i < |ws| && id in ws[i].db.uploads
    ensures RowIs(ws[i].db, id, ws[i].db.uploads[id])
  {
    RunInv(ws, acts, i);
  }

  lemma FinalStaysOnce(ws: seq<World>, acts: seq<Action>, j: nat, id: Id, u: Upload)
    requires SafeRun(ws, acts) && j < |acts| && RowIs(ws[j].db, id, u) && !Unfinished(u)
    ensures RowIs(ws[j + 1].db, id, u)
  {
    RunInv(ws, acts, j);
    assert MovesAt(ws, acts, j);
    MoveKeepsFinal(ws[j], acts[j], ws[j + 1], id, u);
  }

  /** `done` and `error` never change again, nor do the row count and the ledger rows of the upload. */
  lemma {:induction false} FinalStays(ws: seq<World>, acts: seq<Action>, i: nat, j: nat, id: Id)
    requires SafeRun(ws, acts) && i <= j < |ws|
    requires id in ws[i].db.uploads && !Unfinished(ws[i].db.uploads[id])
    ensures RowIs(ws[j].db, id, ws[i].db.uploads[id])
    decreases j - i
  {
    if i == j {
      RowIsItself(ws, acts, i, id);
    } else {
      FinalStays(ws, acts, i, j - 1, id);
      FinalStaysOnce(ws, acts, j - 1, id, ws[i].db.uploads[id]);
    }
  }

  /** The conservation law of at-least-once ingest: the ledger holds one copy of the file's rows per
      committed extraction; a done upload reports the file's row count, and holds exactly one copy
      unless some extraction was cut off from its mark-done. */
  lemma IngestConserves(ws: seq<World>, acts: seq<Action>, i: nat, id: Id)
    requires SafeRun(ws, acts) && i < |ws| && id in ws[i].db.uploads
    ensures var u := ws[i].db.uploads[id];
            && u.ledgerRows == u.attempts * (if u.file.Rows? then u.file.n else 0)
            && (u.status == Done ==> u.file == Rows(u.txnCount) && u.txnCount > 0 && u.attempts == u.lost + 1)
            && (u.status == Done && u.lost == 0 ==> u.ledgerRows == u.txnCount)
            && (u.status != Done ==> u.lost <= u.attempts <= u.lost + 1)
  {
    RunInv(ws, acts, i);
    assert UploadInv(ws[i].db, id, StageOf(Gos(ws[i].ps), id));
  }

  /** Whatever was dropped or interrupted, an unfinished upload still has the file that was uploaded, and
      a successful recovery scan lists it exactly once. */
  lemma Recoverable(ws: seq<World>, acts: seq<Action>, i: nat, id: Id, scan: seq<Id>)
    requires SafeRun(ws, acts) && i < |ws|
    requires id in ws[i].db.uploads && Unfinished(ws[i].db.uploads[id]) && Scan(ws[i].db, scan)
    ensures var (db, key) := (ws[i].db, ws[i].db.uploads[id].key);
            key.Key? && key.k in db.objects && db.objects[key.k] == db.uploads[id].file
    ensures multiset(scan)[id] == 1
  {
    RunInv(ws, acts, i);
    assert UploadInv(ws[i].db, id, StageOf(Gos(ws[i].ps), id));
    DistinctBag(scan, id);
    assert id in scan;
    assert id in multiset(scan);
  }

  /** The status tells how far the upload has come, whatever was lost or interrupted: pending until a worker
      takes it, and no row of it in the ledger; processing while one extracts it; done once it is marked. */
  lemma StatusShowsProgress(ws: seq<World>, acts: seq<Action>, i: nat, j: nat, g: nat)
    requires SafeRun(ws, acts) && i < |ws| && j < |ws[i].ps| && g < |ws[i].ps[j].gos|
    ensures var (db, v) := (ws[i].db, ws[i].ps[j].gos[g]);
            && (v.Created? && v.id in db.uploads ==> db.uploads[v.id].status == Pending)
            && (v.Marked? || v.Inserted? || v.Failing? ==> v.id in db.uploads ==> db.uploads[v.id].status == Processing)
            && (v.Purging? && v.id in db.uploads ==> db.uploads[v.id].status == Done)
    ensures forall id :: id in ws[i].db.uploads && ws[i].db.uploads[id].status == Pending ==> ws[i].db.uploads[id].ledgerRows == 0
  {
    RunInv(ws, acts, i);
    SlotGosInv(ws[i], j);
    assert GoInv(ws[i].db, ws[i].ps[j].gos[g]);
    forall id | id in ws[i].db.uploads && ws[i].db.uploads[id].status == Pending ensures ws[i].db.uploads[id].ledgerRows == 0 {
      assert UploadInv(ws[i].db, id, StageOf(Gos(ws[i].ps), id));
    }
  }

  // ---------- What every run keeps, unsafe boots included ----------

  /** No worker is past the check whether the upload is done already. */
  ghost predicate NonePast(gos: seq<Goroutine>, id: Id) {
    forall g :: 0 <= g < |gos| && (gos[g].Loaded? || gos[g].Marked? || gos[g].Inserted? || gos[g].Failing?) ==> gos[g].id != id
  }

  ghost predicate NobodyPast(w: World, id: Id) {
    forall j :: 0 <= j < |w.ps| ==> NonePast(w.ps[j].gos, id)
  }

  lemma {:induction false} UploadsAreKnown(ws: seq<World>, acts: seq<Action>, i: nat)
    requires Run(ws, acts) && i < |ws|
    ensures ws[i].db.uploads.Keys <= ws[i].db.keyOf.Keys
    decreases i
  {
    if i > 0 {
      UploadsAreKnown(ws, acts, i - 1);
      assert MovesAt(ws, acts, i - 1);
    }
  }

  lemma NextKeepsDone(db: Db, p: Process, step: Step, db': Db, p': Process, id: Id, u: Upload)
    requires Next(db, p, step, db', p') && RowIs(db, id, u) && u.status == Done && NonePast(p.gos, id)
    ensures RowIs(db', id, u) && NonePast(p'.gos, id)
  {}

  lemma MoveKeepsDone(w: World, a: Action, w': World, id: Id, u: Upload)
    requires Moves(w, a, w') && RowIs(w.db, id, u) && u.status == Done && NobodyPast(w, id)
    ensures RowIs(w'.db, id, u) && NobodyPast(w', id)
  {
    if a.Act? {
      NextKeepsDone(w.db, w.ps[a.i], a.step, w'.db, w'.ps[a.i], id, u);
    }
  }

  /** With any number of replicas and any boots: once an upload is done and no worker is past the check for
      that, it is never processed again, however often it is queued. */
  lemma {:induction false} DoneIsNotRedone(ws: seq<World>, acts: seq<Action>, i: nat, j: nat, id: Id)
    requires Run(ws, acts) && i <= j < |ws|
    requires id in ws[i].db.uploads && ws[i].db.uploads[id].status == Done && NobodyPast(ws[i], id)
    ensures RowIs(ws[j].db, id, ws[i].db.uploads[id]) && NobodyPast(ws[j], id)
    decreases j - i
  {
    if i == j {
      UploadsAreKnown(ws, acts, i);
    } else {
      DoneIsNotRedone(ws, acts, i, j - 1, id);
      assert MovesAt(ws, acts, j - 1);
      MoveKeepsDone(ws[j - 1], acts[j - 1], ws[j], id, ws[i].db.uploads[id]);
    }
  }

  // ---------- What becomes of the staged file ----------

  ghost predicate PurgingAt(w: World, j: nat, id: Id) {
    j < |w.ps| && exists g: nat :: g < |w.ps[j].gos| && w.ps[j].gos[g].Purging? && w.ps[j].gos[g].id == id
  }

  ghost predicate AnyPurging(w: World, id: Id) {
    exists j: nat :: PurgingAt(w, j, id)
  }

  lemma {:induction false} PurgeDueIff(db: Db, ps: seq<Process>, id: Id)
    ensures PurgeDue(Gos(ps), id) <==> AnyPurging(World(db, ps), id)
    decreases |ps|
  {
    var w := World(db, ps);
    if ps != [] {
      var n := |ps| - 1;
      var w' := World(db, ps[..n]);
      PurgeDueIff(db, ps[..n], id);
      StageConcat(Gos(ps[..n]), ps[n].gos, id);
      forall j: nat ensures PurgingAt(w, j, id) <==> PurgingAt(w', j, id) || (j == n && PurgingAt(w, n, id)) {}
      assert PurgingAt(w, n, id) <==> PurgeDue(ps[n].gos, id);
    }
  }

  /** The action cuts off the purge of this upload: a crash, a refused purge, or a mark-done that committed
      without the worker learning of it. */
  ghost predicate CutsOff(w: World, a: Action, id: Id) {
    match a
    case Crash(i) => PurgingAt(w, i, id)
    case Act(i, Work(g, o)) =>
      && i < |w.ps| && g < |w.ps[i].gos|
      && var v := w.ps[i].gos[g];
         (o == Refused && v.Purging? && v.id == id) || (o == Lost && v.Inserted? && v.id == id)
    case _ => false
  }

  ghost predicate CutOffAt(ws: seq<World>, acts: seq<Action>, n: nat, id: Id) {
    n < |ws| && n < |acts| && CutsOff(ws[n], acts[n], id)
  }

  ghost predicate CutOffBefore(ws: seq<World>, acts: seq<Action>, i: nat, id: Id) {
    exists n: nat :: n < i && CutOffAt(ws, acts, n, id)
  }

  lemma UnpurgedStep(w: World, a: Action, w': World, id: Id)
    requires Moves(w, a, w')
    ensures id in w'.db.unpurged <==> id in w.db.unpurged || CutsOff(w, a, id)
  {
    if a.Crash? {
      AfterCrashUnpurged(w.db, w.ps[a.i].gos, id);
    }
  }

  lemma {:induction false} UnpurgedIff(ws: seq<World>, acts: seq<Action>, i: nat, id: Id)
    requires Run(ws, acts) && i < |ws|
    ensures id in ws[i].db.unpurged <==> CutOffBefore(ws, acts, i, id)
    decreases i
  {
    if i > 0 {
      UnpurgedIff(ws, acts, i - 1, id);
      assert MovesAt(ws, acts, i - 1);
      UnpurgedStep(ws[i - 1], acts[i - 1], ws[i], id);
      if CutOffBefore(ws, acts, i, id) {
        var n: nat :| n < i && CutOffAt(ws, acts, n, id);
        assert n == i - 1 || CutOffBefore(ws, acts, i - 1, id);
      }
      assert CutsOff(ws[i - 1], acts[i - 1], id) <==> CutOffAt(ws, acts, i - 1, id);
    }
  }

  /** The file of a done upload is still staged exactly while a worker has yet to purge it, or for good if
      something cut the purge off. That of any other upload is staged as it was uploaded. */
  lemma StagedIff(ws: seq<World>, acts: seq<Action>, i: nat, id: Id)
    requires SafeRun(ws, acts) && i < |ws| && id in ws[i].db.uploads
    ensures id in ws[i].db.keyOf
    ensures var (db, k) := (ws[i].db, ws[i].db.keyOf[id]);
            if db.uploads[id].status == Done
            then k in db.objects <==> AnyPurging(ws[i], id) || CutOffBefore(ws, acts, i, id)
            else k in db.objects && db.objects[k] == db.uploads[id].file
  {
    RunInv(ws, acts, i);
    assert UploadInv(ws[i].db, id, StageOf(Gos(ws[i].ps), id));
    PurgeDueIff(ws[i].db, ws[i].ps, id);
    UnpurgedIff(ws, acts, i, id);
  }

  /** The upload was created with key `k`, and no object is staged under it. */
  ghost predicate Gone(db: Db, id: Id, k: nat) {
    id in db.keyOf && db.keyOf[id] == k && k !in db.objects
  }

  lemma MoveKeepsGone(w: World, a: Action, w': World, id: Id, k: nat)
    requires Moves(w, a, w') && Gone(w.db, id, k)
    ensures Gone(w'.db, id, k)
  {}

  lemma {:induction false} GoneStays(ws: seq<World>, acts: seq<Action>, i: nat, j: nat, id: Id, k: nat)
    requires Run(ws, acts) && i <= j < |ws| && Gone(ws[i].db, id, k)
    ensures Gone(ws[j].db, id, k)
    decreases j - i
  {
    if i < j {
      GoneStays(ws, acts, i, j - 1, id, k);
      assert MovesAt(ws, acts, j - 1);
      MoveKeepsGone(ws[j - 1], acts[j - 1], ws[j], id, k);
    }
  }

  lemma PurgeRemoves(w: World, i: nat, g: nat, o: Outcome, w': World)
    requires WorldInv(w) && Moves(w, Act(i, Work(g, o)), w') && o != Refused && w.ps[i].gos[g].Purging?
    ensures var id := w.ps[i].gos[g].id; id in w.db.keyOf && Gone(w'.db, id, w.db.keyOf[id])
  {
    SlotGosInv(w, i);
    assert GoInv(w.db, w.ps[i].gos[g]);
  }

  /** Once the delete of a worker that marked its upload done has reached the store, the uploaded file is
      gone, in every later state and across crashes. */
  lemma PurgedForGood(ws: seq<World>, acts: seq<Action>, n: nat, i: nat, g: nat, o: Outcome, m: nat)
    requires SafeRun(ws, acts) && n < |acts| && acts[n] == Act(i, Work(g, o)) && o != Refused && n < m < |ws|
    requires i < |ws[n].ps| && g < |ws[n].ps[i].gos| && ws[n].ps[i].gos[g].Purging?
    ensures var id := ws[n].ps[i].gos[g].id;
            id in ws[n].db.keyOf && Gone(ws[m].db, id, ws[n].db.keyOf[id])
  {
    RunInv(ws, acts, n);
    assert MovesAt(ws, acts, n);
    PurgeRemoves(ws[n], i, g, o, ws[n + 1]);
    var id := ws[n].ps[i].gos[g].id;
    GoneStays(ws, acts, n + 1, m, id, ws[n].db.keyOf[id]);
  }
}
