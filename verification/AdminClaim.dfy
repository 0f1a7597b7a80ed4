/** "The first login becomes administrator", as a step system over the committed users table, the
    advisory lock and any number of concurrent logins. Each statement sees the rows committed before
    it started; a transaction's own writes become visible when it commits. */
module AdminClaim {

  type Id = nat
  type Pid = nat

  datatype User = User(email: string, admin: bool)

  /** Where a login stands. From `Locked` to `Decided` it is inside the claim transaction. */
  datatype Pc =
    | Begun
    | Checked(claimed: bool)
    | Locked
    | Upserted(id: Id, admin: bool)
    | Decided(id: Id, admin: bool)
    | Done(id: Id, admin: bool)
    | Failed

  /** `since` is how many administrators had been deleted when the login began. */
  datatype Login = Login(email: string, pc: Pc, since: nat)

  datatype Lock = Free | Held(holder: Pid)

  datatype State = State(
    users: map<Id, User>,        // committed rows
    logins: map<Pid, Login>,
    lock: Lock,
    used: set<Id>,               // ids ever generated
    deleted: set<Id>,
    adminsDeleted: nat)

  datatype Step =
    | Begin(p: Pid, email: string)
    | Check(p: Pid)
    | PlainUpsert(p: Pid, newId: Id, acknowledged: bool)
    | Acquire(p: Pid)
    | Upsert(p: Pid, newId: Id)
    | Claim(p: Pid)
    | Commit(p: Pid, acknowledged: bool)
    | Abort(p: Pid)
    | Delete(id: Id)

  ghost predicate AdminExists(users: map<Id, User>) {
    exists i :: i in users && users[i].admin
  }

  ghost predicate AtMostOneAdmin(users: map<Id, User>) {
    forall i, j :: i in users && j in users && users[i].admin && users[j].admin ==> i == j
  }

  /** The table's unique constraint: one account per email. */
  ghost predicate DistinctEmails(users: map<Id, User>) {
    forall i, j :: i in users && j in users && users[i].email == users[j].email ==> i == j
  }

  ghost predicate Unknown(users: map<Id, User>, email: string) {
    forall i :: i in users ==> users[i].email != email
  }

  ghost predicate At(s: State, p: Pid) {
    p in s.logins
  }

  /** Some open transaction has written the row of this email, so other writers of it wait. */
  ghost predicate RowBusy(s: State, email: string) {
    exists p :: At(s, p) && s.logins[p].email == email && (s.logins[p].pc.Upserted? || s.logins[p].pc.Decided?)
  }

  predicate InTransaction(pc: Pc) {
    pc.Locked? || pc.Upserted? || pc.Decided?
  }

  /** The row an upsert by email lands on: the one that has the email, or a new one. */
  ghost predicate Lands(s: State, email: string, newId: Id, id: Id, admin: bool) {
    if exists i :: i in s.users && s.users[i].email == email
    then id in s.users && s.users[id] == User(email, admin)
    else newId !in s.used && id == newId && !admin
  }

  ghost function Put(s: State, p: Pid, pc: Pc): State
    requires At(s, p)
  {
    s.(logins := s.logins[p := s.logins[p].(pc := pc)])
  }

  function Release(lock: Lock, p: Pid): Lock {
    if lock == Held(p) then Free else lock
  }

  /** One step. With `locking` false, the lock statement is left out. */
  ghost predicate Next(locking: bool, s: State, step: Step, s': State) {
    match step
    case Begin(p, email) =>
      !At(s, p) && s' == s.(logins := s.logins[p := Login(email, Begun, s.adminsDeleted)])
    case Check(p) =>
      At(s, p) && s.logins[p].pc == Begun && s' == Put(s, p, Checked(AdminExists(s.users)))
    case PlainUpsert(p, newId, acknowledged) =>
      && At(s, p) && s.logins[p].pc == Checked(true) && !RowBusy(s, s.logins[p].email)
      && exists id, admin :: Lands(s, s.logins[p].email, newId, id, admin)
           && s' == Put(s, p, if acknowledged then Done(id, admin) else Failed).(
                      users := s.users[id := User(s.logins[p].email, admin)], used := s.used + {id})
    case Acquire(p) =>
      && At(s, p) && s.logins[p].pc == Checked(false)
      && (locking ==> s.lock == Free)
      && s' == Put(s, p, Locked).(lock := if locking then Held(p) else s.lock)
    case Upsert(p, newId) =>
      && At(s, p) && s.logins[p].pc == Locked && !RowBusy(s, s.logins[p].email)
      && exists id, admin :: Lands(s, s.logins[p].email, newId, id, admin)
           && s' == Put(s, p, Upserted(id, admin)).(used := s.used + {id})
    case Claim(p) =>
      && At(s, p) && s.logins[p].pc.Upserted?
      && var u := s.logins[p].pc;
         s' == Put(s, p, Decided(u.id, u.admin || !AdminExists(s.users)))
    case Commit(p, acknowledged) =>
      && At(s, p) && s.logins[p].pc.Decided?
      && var u := s.logins[p].pc;
         s' == Put(s, p, if acknowledged then Done(u.id, u.admin) else Failed).(
                 users := s.users[u.id := User(s.logins[p].email, u.admin)], lock := Release(s.lock, p))
    case Abort(p) =>
      && At(s, p) && !s.logins[p].pc.Done? && !s.logins[p].pc.Failed?
      && s' == Put(s, p, Failed).(lock := Release(s.lock, p))
    case Delete(id) =>
      && id in s.users && !RowBusy(s, s.users[id].email)
      && s' == s.(users := s.users - {id}, deleted := s.deleted + {id},
                  adminsDeleted := s.adminsDeleted + if s.users[id].admin then 1 else 0)
  }

  ghost predicate Init(s: State) {
    && AtMostOneAdmin(s.users) && DistinctEmails(s.users) && s.logins == map[] && s.lock == Free
    && s.used == s.users.Keys && s.deleted == {} && s.adminsDeleted == 0
  }

  // ---------- The invariant ----------

  /** Only the lock holder is inside the claim transaction. */
  ghost predicate Exclusive(s: State) {
    && (s.lock.Held? ==> At(s, s.lock.holder))
    && forall p :: At(s, p) ==> (InTransaction(s.logins[p].pc) <==> s.lock == Held(p))
  }

  ghost predicate IdsInv(s: State) {
    s.users.Keys <= s.used && s.deleted <= s.used && s.users.Keys !! s.deleted
  }

  /** The row an open transaction has written stays as the transaction saw it, or its email unknown. */
  ghost predicate PendingInv(s: State, l: Login) {
    match l.pc
    case Upserted(id, admin) =>
      && id in s.used && id !in s.deleted
      && (if id in s.users then s.users[id] == User(l.email, admin) else !admin && Unknown(s.users, l.email))
    case Decided(id, admin) =>
      && id in s.used && id !in s.deleted
      && (if id in s.users then s.users[id].email == l.email else Unknown(s.users, l.email))
      && (admin ==> forall i :: i in s.users && s.users[i].admin ==> i == id)
      && (!admin ==> id in s.users ==> !s.users[id].admin)
    case _ => true
  }

  /** A login's account keeps its email, and an administrator report stands, until that account is deleted. */
  ghost predicate ReportInv(s: State, l: Login) {
    l.pc.Done? ==>
      && l.pc.id in s.used
      && (l.pc.id in s.deleted || (l.pc.id in s.users && s.users[l.pc.id].email == l.email
                                   && (l.pc.admin ==> s.users[l.pc.id].admin)))
  }

  predicate AdminSeen(pc: Pc) {
    pc.Done? || pc == Checked(true) || (pc.Decided? && !pc.admin)
  }

  /** A login that saw an administrator, or committed, leaves one, unless one was deleted meanwhile. */
  ghost predicate SeatInv(s: State, l: Login) {
    && l.since <= s.adminsDeleted
    && (AdminSeen(l.pc) ==> AdminExists(s.users) || l.since < s.adminsDeleted)
  }

  ghost predicate LoginInv(s: State, l: Login) {
    PendingInv(s, l) && ReportInv(s, l) && SeatInv(s, l)
  }

  ghost predicate Inv(s: State) {
    && AtMostOneAdmin(s.users) && DistinctEmails(s.users) && Exclusive(s) && IdsInv(s)
    && forall p :: At(s, p) ==> LoginInv(s, s.logins[p])
  }

  lemma InitInv(s: State)
    requires Init(s)
    ensures Inv(s)
  {}

  /** Steps of one login that leave the users table alone keep the invariant of every other login. */
  lemma LocalStep(s: State, s': State, p: Pid, pc: Pc)
    requires Inv(s) && At(s, p)
    requires s'.logins == s.logins[p := s.logins[p].(pc := pc)]
    requires s'.users == s.users && s.used <= s'.used && s'.deleted == s.deleted && s'.adminsDeleted == s.adminsDeleted
    requires LoginInv(s', s'.logins[p]) && Exclusive(s') && IdsInv(s')
    ensures Inv(s')
  {
    forall q | At(s', q) ensures LoginInv(s', s'.logins[q]) {
      if q != p {
        assert At(s, q);
      }
    }
  }

  lemma BeginKeeps(s: State, p: Pid, email: string, s': State)
    requires Inv(s) && Next(true, s, Begin(p, email), s')
    ensures Inv(s')
  {
    forall q | At(s', q) ensures LoginInv(s', s'.logins[q]) {
      if q != p {
        assert At(s, q) && LoginInv(s, s.logins[q]);
      }
    }
  }

  lemma CheckKeeps(s: State, p: Pid, s': State)
    requires Inv(s) && Next(true, s, Check(p), s')
    ensures Inv(s')
  {
    assert LoginInv(s, s.logins[p]);
    LocalStep(s, s', p, Checked(AdminExists(s.users)));
  }

  lemma AcquireKeeps(s: State, p: Pid, s': State)
    requires Inv(s) && Next(true, s, Acquire(p), s')
    ensures Inv(s')
  {
    assert LoginInv(s, s.logins[p]);
    LocalStep(s, s', p, Locked);
  }

  lemma UpsertKeeps(s: State, p: Pid, newId: Id, s': State)
    requires Inv(s) && Next(true, s, Upsert(p, newId), s')
    ensures Inv(s')
  {
    assert LoginInv(s, s.logins[p]);
    var id, admin :| Lands(s, s.logins[p].email, newId, id, admin)
      && s' == Put(s, p, Upserted(id, admin)).(used := s.used + {id});
    LocalStep(s, s', p, Upserted(id, admin));
  }

  lemma ClaimKeeps(s: State, p: Pid, s': State)
    requires Inv(s) && Next(true, s, Claim(p), s')
    ensures Inv(s')
  {
    var u := s.logins[p].pc;
    assert LoginInv(s, s.logins[p]);
    LocalStep(s, s', p, Decided(u.id, u.admin || !AdminExists(s.users)));
  }

  lemma AbortKeeps(s: State, p: Pid, s': State)
    requires Inv(s) && Next(true, s, Abort(p), s')
    ensures Inv(s')
  {
    assert LoginInv(s, s.logins[p]);
    LocalStep(s, s', p, Failed);
  }

  predicate Pending(pc: Pc) {
    pc.Upserted? || pc.Decided?
  }

  /** A new non-administrator row, with an id never used before and an email that no open transaction
      writes, disturbs no other login. */
  lemma InsertKeepsOther(s: State, s': State, id: Id, email: string, l: Login)
    requires Inv(s) && LoginInv(s, l) && id !in s.used && (Pending(l.pc) ==> l.email != email)
    requires s'.users == s.users[id := User(email, false)] && s'.used == s.used + {id}
    requires s'.deleted == s.deleted && s'.adminsDeleted == s.adminsDeleted
    ensures LoginInv(s', l)
  {
    assert forall i :: i in s.users ==> i in s'.users && s'.users[i] == s.users[i];
  }

  /** The upsert lands on the row that has the email already. */
  lemma PlainUpsertAgain(s: State, p: Pid, pc: Pc, id: Id, admin: bool, s': State)
    requires Inv(s) && At(s, p) && s.logins[p].pc == Checked(true) && (pc == Done(id, admin) || pc == Failed)
    requires id in s.users && s.users[id] == User(s.logins[p].email, admin)
    requires s' == Put(s, p, pc).(users := s.users[id := User(s.logins[p].email, admin)], used := s.used + {id})
    ensures Inv(s')
  {
    assert LoginInv(s, s.logins[p]);
    assert s'.users == s.users;
    LocalStep(s, s', p, pc);
  }

  /** The upsert inserts a new row. */
  lemma PlainUpsertInserts(s: State, p: Pid, pc: Pc, id: Id, s': State)
    requires Inv(s) && At(s, p) && s.logins[p].pc == Checked(true) && (pc == Done(id, false) || pc == Failed)
    requires id !in s.used && Unknown(s.users, s.logins[p].email) && !RowBusy(s, s.logins[p].email)
    requires s' == Put(s, p, pc).(users := s.users[id := User(s.logins[p].email, false)], used := s.used + {id})
    ensures Inv(s')
  {
    assert LoginInv(s, s.logins[p]);
    InsertKeepsOther(s, s', id, s.logins[p].email, s.logins[p]);
    forall q | At(s', q) ensures LoginInv(s', s'.logins[q]) {
      if q != p {
        assert At(s, q);
        InsertKeepsOther(s, s', id, s.logins[p].email, s.logins[q]);
      }
    }
  }

  lemma PlainUpsertKeeps(s: State, p: Pid, newId: Id, acknowledged: bool, s': State)
    requires Inv(s) && Next(true, s, PlainUpsert(p, newId, acknowledged), s')
    ensures Inv(s')
  {
    var email := s.logins[p].email;
    var id, admin :| Lands(s, email, newId, id, admin)
      && s' == Put(s, p, if acknowledged then Done(id, admin) else Failed).(
                 users := s.users[id := User(email, admin)], used := s.used + {id});
    var pc := if acknowledged then Done(id, admin) else Failed;
    if id in s.users {
      PlainUpsertAgain(s, p, pc, id, admin, s');
    } else {
      PlainUpsertInserts(s, p, pc, id, s');
    }
  }

  lemma CommitKeeps(s: State, p: Pid, acknowledged: bool, s': State)
    requires Inv(s) && Next(true, s, Commit(p, acknowledged), s')
    ensures Inv(s')
    ensures s'.adminsDeleted == s.logins[p].since ==> AdminExists(s'.users)
  {
    var u := s.logins[p].pc;
    assert LoginInv(s, s.logins[p]);
    CommitKeepsSeat(s, p, s');
    forall q | At(s', q) ensures LoginInv(s', s'.logins[q]) {
      assert At(s, q);
      CommitKeepsLogin(s, p, acknowledged, s', q);
    }
  }

  /** The committed row carries the decision, and no administrator disappears. */
  lemma CommitKeepsSeat(s: State, p: Pid, s': State)
    requires At(s, p) && s.logins[p].pc.Decided? && PendingInv(s, s.logins[p])
    requires s'.users == s.users[s.logins[p].pc.id := User(s.logins[p].email, s.logins[p].pc.admin)]
    ensures AdminExists(s.users) || s.logins[p].pc.admin ==> AdminExists(s'.users)
  {
    var u := s.logins[p].pc;
    assert u.id in s'.users && (u.admin ==> s'.users[u.id].admin);
    if i :| i in s.users && s.users[i].admin {
      assert i in s'.users && s'.users[i].admin;
    }
  }

  lemma CommitKeepsLogin(s: State, p: Pid, acknowledged: bool, s': State, q: Pid)
    requires Inv(s) && Next(true, s, Commit(p, acknowledged), s') && At(s, q)
    ensures LoginInv(s', s'.logins[q])
  {
    assert LoginInv(s, s.logins[p]) && LoginInv(s, s.logins[q]);
    CommitKeepsSeat(s, p, s');
  }

  lemma DeleteKeeps(s: State, id: Id, s': State)
    requires Inv(s) && Next(true, s, Delete(id), s')
    ensures Inv(s')
  {
    forall q | At(s', q) ensures LoginInv(s', s'.logins[q]) {
      assert At(s, q);
      assert LoginInv(s, s.logins[q]);
      if AdminExists(s.users) && !s.users[id].admin {
        var i :| i in s.users && s.users[i].admin;
        assert i in s'.users && s'.users[i].admin;
      }
    }
  }

  lemma NextKeepsInv(s: State, step: Step, s': State)
    requires Inv(s) && Next(true, s, step, s')
    ensures Inv(s')
  {
    match step
    case Begin(p, email) => BeginKeeps(s, p, email, s');
    case Check(p) => CheckKeeps(s, p, s');
    case PlainUpsert(p, newId, acknowledged) => PlainUpsertKeeps(s, p, newId, acknowledged, s');
    case Acquire(p) => AcquireKeeps(s, p, s');
    case Upsert(p, newId) => UpsertKeeps(s, p, newId, s');
    case Claim(p) => ClaimKeeps(s, p, s');
    case Commit(p, acknowledged) => CommitKeeps(s, p, acknowledged, s');
    case Abort(p) => AbortKeeps(s, p, s');
    case Delete(id) => DeleteKeeps(s, id, s');
  }

  // ---------- Runs ----------

  ghost predicate Follows(locking: bool, states: seq<State>, steps: seq<Step>, i: nat)
    requires i < |steps| && |states| == |steps| + 1
  {
    Next(locking, states[i], steps[i], states[i + 1])
  }

  ghost predicate Run(locking: bool, states: seq<State>, steps: seq<Step>) {
    && |states| == |steps| + 1 && Init(states[0])
    && forall i: nat :: i < |steps| ==> Follows(locking, states, steps, i)
  }

  lemma {:induction false} RunInv(states: seq<State>, steps: seq<Step>, n: nat)
    requires Run(true, states, steps) && n < |states|
    ensures Inv(states[n])
    decreases n
  {
    if n == 0 {
      InitInv(states[0]);
    } else {
      RunInv(states, steps, n - 1);
      assert Follows(true, states, steps, n - 1);
      NextKeepsInv(states[n - 1], steps[n - 1], states[n]);
    }
  }

  /** Under every interleaving, each email has at most one account. */
  lemma NeverTwoAccounts(states: seq<State>, steps: seq<Step>, n: nat, i: Id, j: Id)
    requires Run(true, states, steps) && n < |states| && i in states[n].users && j in states[n].users
    requires states[n].users[i].email == states[n].users[j].email
    ensures i == j
  {
    RunInv(states, steps, n);
  }

  /** A finished login is logged in to the account of its own email, unless that was deleted; so two logins
      of one email are logged in to one account. */
  lemma OwnAccount(states: seq<State>, steps: seq<Step>, n: nat, p: Pid, q: Pid)
    requires Run(true, states, steps) && n < |states|
    requires At(states[n], p) && states[n].logins[p].pc.Done? && states[n].logins[p].pc.id !in states[n].deleted
    requires At(states[n], q) && states[n].logins[q].pc.Done? && states[n].logins[q].pc.id !in states[n].deleted
    ensures var (s, id) := (states[n], states[n].logins[p].pc.id);
            id in s.users && s.users[id].email == s.logins[p].email
    ensures var logins := states[n].logins;
            logins[p].email == logins[q].email <==> logins[p].pc.id == logins[q].pc.id
  {
    RunInv(states, steps, n);
    assert LoginInv(states[n], states[n].logins[p]) && LoginInv(states[n], states[n].logins[q]);
  }

  /** The statement that finishes a login reports exactly what its row then says. */
  lemma ReportIsAccurate(states: seq<State>, steps: seq<Step>, n: nat, p: Pid)
    requires Run(true, states, steps) && n < |steps|
    requires At(states[n], p) && !states[n].logins[p].pc.Done?
    requires At(states[n + 1], p) && states[n + 1].logins[p].pc.Done?
    ensures var (s, l) := (states[n + 1], states[n + 1].logins[p]);
            l.pc.id in s.users && s.users[l.pc.id] == User(l.email, l.pc.admin)
  {
    assert Follows(true, states, steps, n);
  }

  /** While that account exists, a login of the administrator's email lands on it as administrator. */
  ghost predicate Seated(s: State, p: Pid, a: Id) {
    && At(s, p) && a in s.used
    && (a !in s.deleted ==>
          && a in s.users && s.users[a] == User(s.logins[p].email, true)
          && var pc := s.logins[p].pc;
             pc.Upserted? || pc.Decided? || pc.Done? ==> pc.id == a && pc.admin)
  }

  ghost predicate RowStands(s: State, a: Id, email: string) {
    a in s.used && (a !in s.deleted ==> a in s.users && s.users[a] == User(email, true))
  }

  lemma RowStandsStep(s: State, step: Step, s': State, a: Id, email: string)
    requires Inv(s) && Next(true, s, step, s') && RowStands(s, a, email)
    ensures RowStands(s', a, email)
  {
    if step.Commit? {
      assert LoginInv(s, s.logins[step.p]);
    }
  }

  /** The login's own statement, on the row the account's email finds. */
  lemma SeatedOwn(s: State, step: Step, s': State, p: Pid, a: Id)
    requires Inv(s) && Next(true, s, step, s') && Seated(s, p, a) && a !in s'.deleted
    requires At(s', p) && s'.logins[p] != s.logins[p]
    ensures var pc := s'.logins[p].pc; pc.Upserted? || pc.Decided? || pc.Done? ==> pc.id == a && pc.admin
  {}

  lemma SeatedStep(s: State, step: Step, s': State, p: Pid, a: Id)
    requires Inv(s) && Next(true, s, step, s') && Seated(s, p, a)
    ensures Seated(s', p, a)
  {
    LoginStays(s, step, s', p);
    RowStandsStep(s, step, s', a, s.logins[p].email);
    if a !in s'.deleted && s'.logins[p] != s.logins[p] {
      SeatedOwn(s, step, s', p, a);
    }
  }

  lemma LoginStays(s: State, step: Step, s': State, p: Pid)
    requires Next(true, s, step, s') && At(s, p)
    ensures At(s', p) && s'.logins[p].email == s.logins[p].email && s.deleted <= s'.deleted
  {}

  lemma {:induction false} StaysSeated(states: seq<State>, steps: seq<Step>, n: nat, m: nat, p: Pid, a: Id)
    requires Run(true, states, steps) && n <= m < |states| && Seated(states[n], p, a)
    ensures Seated(states[m], p, a)
    decreases m - n
  {
    if n < m {
      StaysSeated(states, steps, n, m - 1, p, a);
      RunInv(states, steps, m - 1);
      assert Follows(true, states, steps, m - 1);
      SeatedStep(states[m - 1], steps[m - 1], states[m], p, a);
    }
  }

  /** A login of the administrator's email, begun after the claim committed, is told so and is logged in to
      that account, if it finishes while the account exists. */
  lemma AdministratorIsRecognised(states: seq<State>, steps: seq<Step>, n: nat, m: nat, p: Pid, email: string, a: Id)
    requires Run(true, states, steps) && n < m < |states| && steps[n] == Begin(p, email)
    requires a in states[n].users && states[n].users[a] == User(email, true)
    requires At(states[m], p) && states[m].logins[p].pc.Done? && a !in states[m].deleted
    ensures states[m].logins[p].pc == Done(a, true)
  {
    RunInv(states, steps, n);
    assert Follows(true, states, steps, n);
    assert Seated(states[n + 1], p, a);
    StaysSeated(states, steps, n + 1, m, p, a);
  }

  /** No step but the deletion of an administrator empties the seat. */
  lemma SeatStays(s: State, step: Step, s': State)
    requires Inv(s) && Next(true, s, step, s') && AdminExists(s.users)
    ensures s'.adminsDeleted >= s.adminsDeleted
    ensures s'.adminsDeleted == s.adminsDeleted ==> AdminExists(s'.users)
  {
    var i :| i in s.users && s.users[i].admin;
    if step.Commit? {
      assert LoginInv(s, s.logins[step.p]);
    }
    assert s'.adminsDeleted == s.adminsDeleted ==> i in s'.users && s'.users[i].admin;
  }

  lemma {:induction false} DeletionsOnlyGrow(states: seq<State>, steps: seq<Step>, n: nat, m: nat)
    requires Run(true, states, steps) && n <= m < |states|
    ensures states[n].adminsDeleted <= states[m].adminsDeleted
    decreases m - n
  {
    if n < m {
      DeletionsOnlyGrow(states, steps, n, m - 1);
      assert Follows(true, states, steps, m - 1);
    }
  }

  lemma PlainStep(s: State, step: Step, s': State, p: Pid)
    requires Next(true, s, step, s') && At(s, p) && Plain(s.logins[p].pc) && AdminExists(s.users)
    ensures At(s', p) && Plain(s'.logins[p].pc)
  {}

  /** Outside the claim transaction, or not yet looking. */
  predicate Plain(pc: Pc) {
    pc == Begun || pc == Checked(true) || pc.Done? || pc == Failed
  }

  /** A login begun while there is an administrator never waits for the lock, unless one was deleted. */
  lemma {:induction false} PlainOnceClaimed(states: seq<State>, steps: seq<Step>, n: nat, m: nat, p: Pid, email: string)
    requires Run(true, states, steps) && n < m < |states| && steps[n] == Begin(p, email)
    requires AdminExists(states[n].users) && states[m].adminsDeleted == states[n].adminsDeleted
    ensures At(states[m], p) && Plain(states[m].logins[p].pc) && AdminExists(states[m].users)
    decreases m
  {
    assert Follows(true, states, steps, m - 1);
    if n + 1 < m {
      DeletionsOnlyGrow(states, steps, n, m - 1);
      DeletionsOnlyGrow(states, steps, m - 1, m);
      PlainOnceClaimed(states, steps, n, m - 1, p, email);
      RunInv(states, steps, m - 1);
      SeatStays(states[m - 1], steps[m - 1], states[m]);
      PlainStep(states[m - 1], steps[m - 1], states[m], p);
    }
  }

  /** Under every interleaving, at most one row is ever administrator. */
  lemma NeverTwoAdmins(states: seq<State>, steps: seq<Step>, n: nat)
    requires Run(true, states, steps) && n < |states|
    ensures AtMostOneAdmin(states[n].users)
  {
    RunInv(states, steps, n);
  }

  /** Logins that were told "you are administrator", and whose accounts still exist, name one account. */
  lemma ReportsAgree(states: seq<State>, steps: seq<Step>, n: nat, p: Pid, q: Pid)
    requires Run(true, states, steps) && n < |states|
    requires At(states[n], p) && states[n].logins[p].pc.Done? && states[n].logins[p].pc.admin
    requires At(states[n], q) && states[n].logins[q].pc.Done? && states[n].logins[q].pc.admin
    requires states[n].logins[p].pc.id !in states[n].deleted && states[n].logins[q].pc.id !in states[n].deleted
    ensures states[n].logins[p].pc.id == states[n].logins[q].pc.id
  {
    RunInv(states, steps, n);
    assert LoginInv(states[n], states[n].logins[p]) && LoginInv(states[n], states[n].logins[q]);
  }

  /** A finished login leaves an administrator in place, unless one was deleted since it began. */
  lemma SeatIsTaken(states: seq<State>, steps: seq<Step>, n: nat, p: Pid)
    requires Run(true, states, steps) && n < |states|
    requires At(states[n], p) && states[n].logins[p].pc.Done?
    requires states[n].adminsDeleted == states[n].logins[p].since
    ensures AdminExists(states[n].users)
  {
    RunInv(states, steps, n);
    assert LoginInv(states[n], states[n].logins[p]);
  }

  // ---------- Without the lock ----------

  function Both(users: map<Id, User>, pc1: Pc, pc2: Pc, used: set<Id>): State {
    State(users, map[1 := Login("a", pc1, 0), 2 := Login("b", pc2, 0)], Free, used, {}, 0)
  }

  lemma BothUpsert()
    ensures Next(false, Both(map[], Locked, Locked, {}), Upsert(1, 1), Both(map[], Upserted(1, false), Locked, {1}))
    ensures Next(false, Both(map[], Upserted(1, false), Locked, {1}), Upsert(2, 2),
                 Both(map[], Upserted(1, false), Upserted(2, false), {1, 2}))
  {
    var s, t := Both(map[], Locked, Locked, {}), Both(map[], Upserted(1, false), Locked, {1});
    assert Lands(s, "a", 1, 1, false) && !RowBusy(s, "a");
    assert t == Put(s, 1, Upserted(1, false)).(used := s.used + {1});
    assert Lands(t, "b", 2, 2, false) && !RowBusy(t, "b");
    assert Both(map[], Upserted(1, false), Upserted(2, false), {1, 2}) == Put(t, 2, Upserted(2, false)).(used := t.used + {2});
  }

  lemma BothClaimAndCommit(a: map<Id, User>, b: map<Id, User>)
    requires a == map[1 := User("a", true)] && b == a[2 := User("b", true)]
    ensures Next(false, Both(map[], Upserted(1, false), Upserted(2, false), {1, 2}), Claim(1),
                 Both(map[], Decided(1, true), Upserted(2, false), {1, 2}))
    ensures Next(false, Both(map[], Decided(1, true), Upserted(2, false), {1, 2}), Claim(2),
                 Both(map[], Decided(1, true), Decided(2, true), {1, 2}))
    ensures Next(false, Both(map[], Decided(1, true), Decided(2, true), {1, 2}), Commit(1, true),
                 Both(a, Done(1, true), Decided(2, true), {1, 2}))
    ensures Next(false, Both(a, Done(1, true), Decided(2, true), {1, 2}), Commit(2, true),
                 Both(b, Done(1, true), Done(2, true), {1, 2}))
  {}

  lemma BothReachTheTransaction(init: State, one: State)
    requires init == State(map[], map[], Free, {}, {}, 0)
    requires one == State(map[], map[1 := Login("a", Begun, 0)], Free, {}, {}, 0)
    ensures Next(false, init, Begin(1, "a"), one)
    ensures Next(false, one, Begin(2, "b"), Both(map[], Begun, Begun, {}))
    ensures Next(false, Both(map[], Begun, Begun, {}), Check(1), Both(map[], Checked(false), Begun, {}))
    ensures Next(false, Both(map[], Checked(false), Begun, {}), Check(2), Both(map[], Checked(false), Checked(false), {}))
    ensures Next(false, Both(map[], Checked(false), Checked(false), {}), Acquire(1), Both(map[], Locked, Checked(false), {}))
    ensures Next(false, Both(map[], Locked, Checked(false), {}), Acquire(2), Both(map[], Locked, Locked, {}))
  {}

  ghost predicate Reachable(locking: bool, s: State) {
    exists states, steps :: Run(locking, states, steps) && states[|steps|] == s
  }

  lemma Start(s: State)
    requires Init(s)
    ensures Reachable(false, s)
  {
    var steps: seq<Step> := [];
    assert Run(false, [s], steps) && [s][|steps|] == s;
  }

  lemma Advance(s: State, step: Step, s': State)
    requires Reachable(false, s) && Next(false, s, step, s')
    ensures Reachable(false, s')
  {
    var states, steps :| Run(false, states, steps) && states[|steps|] == s;
    var states', steps' := states + [s'], steps + [step];
    forall i: nat | i < |steps'| ensures Follows(false, states', steps', i) {
      if i < |steps| {
        assert Follows(false, states, steps, i);
      }
    }
    assert states'[0] == states[0] && states'[|steps'|] == s';
  }

  lemma BothCanHoldTheTransaction()
    ensures Reachable(false, Both(map[], Locked, Locked, {}))
  {
    var init, one := State(map[], map[], Free, {}, {}, 0), State(map[], map[1 := Login("a", Begun, 0)], Free, {}, {}, 0);
    var c := Checked(false);
    Start(init);
    BothReachTheTransaction(init, one);
    Advance(init, Begin(1, "a"), one);
    Advance(one, Begin(2, "b"), Both(map[], Begun, Begun, {}));
    Advance(Both(map[], Begun, Begun, {}), Check(1), Both(map[], c, Begun, {}));
    Advance(Both(map[], c, Begun, {}), Check(2), Both(map[], c, c, {}));
    Advance(Both(map[], c, c, {}), Acquire(1), Both(map[], Locked, c, {}));
    Advance(Both(map[], Locked, c, {}), Acquire(2), Both(map[], Locked, Locked, {}));
  }

  /** Both have written their rows. */
  lemma BothCanWrite()
    ensures Reachable(false, Both(map[], Upserted(1, false), Upserted(2, false), {1, 2}))
  {
    var u, v := Upserted(1, false), Upserted(2, false);
    BothCanHoldTheTransaction();
    BothUpsert();
    Advance(Both(map[], Locked, Locked, {}), Upsert(1, 1), Both(map[], u, Locked, {1}));
    Advance(Both(map[], u, Locked, {1}), Upsert(2, 2), Both(map[], u, v, {1, 2}));
  }

  lemma BothCanWin(a: map<Id, User>, b: map<Id, User>)
    requires a == map[1 := User("a", true)] && b == a[2 := User("b", true)]
    ensures Reachable(false, Both(b, Done(1, true), Done(2, true), {1, 2}))
  {
    var u, v, d, e := Upserted(1, false), Upserted(2, false), Decided(1, true), Decided(2, true);
    BothCanWrite();
    BothClaimAndCommit(a, b);
    Advance(Both(map[], u, v, {1, 2}), Claim(1), Both(map[], d, v, {1, 2}));
    Advance(Both(map[], d, v, {1, 2}), Claim(2), Both(map[], d, e, {1, 2}));
    Advance(Both(map[], d, e, {1, 2}), Commit(1, true), Both(a, Done(1, true), e, {1, 2}));
    Advance(Both(a, Done(1, true), e, {1, 2}), Commit(2, true), Both(b, Done(1, true), Done(2, true), {1, 2}));
  }

  /** Leaving out the lock statement lets two first logins both win. */
  lemma TwoWinnersWithoutLock() returns (s: State)
    ensures Reachable(false, s) && !AtMostOneAdmin(s.users)
    ensures At(s, 1) && At(s, 2) && s.logins[1].pc == Done(1, true) && s.logins[2].pc == Done(2, true)
  {
    var a := map[1 := User("a", true)];
    var b := a[2 := User("b", true)];
    BothCanWin(a, b);
    s := Both(b, Done(1, true), Done(2, true), {1, 2});
    assert 1 in b && 2 in b && b[1].admin && b[2].admin;
  }
}
