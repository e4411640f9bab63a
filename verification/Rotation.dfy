/**
 Refresh-token rotation and session versions.

 Every SQL statement is atomic; a request is several statements long, and any number of
 requests interleave.  `Exec` is one statement of one request, `Step` schedules it inside
 the whole system, and `Run` is an arbitrary schedule.
 */
module Rotation {
  import opened Common

  type Id = nat
  type Digest = nat

  datatype Status = Active | Suspended | PendingVerification

  /** A row of `refresh_tokens`. */
  datatype Row = Row(id: Id, user: Id, family: Id, hash: Digest, prev: Option<Id>,
                     usedAt: Option<int>, revokedAt: Option<int>, expires: int, version: nat)
  {
    predicate Live() {
      usedAt.None? && revokedAt.None?
    }

    /** Equal up to the two timestamps that updates may set. */
    predicate SameToken(r: Row) {
      && id == r.id && user == r.user && family == r.family && hash == r.hash
      && prev == r.prev && expires == r.expires && version == r.version
    }
  }

  /** The columns of a `users` row that sessions depend on. */
  datatype User = User(status: Status, deleted: bool, hasPassword: bool, version: nat)

  type Rows = map<Id, Row>
  datatype Db = Db(rows: Rows, users: map<Id, User>)

  // ---------------------------------------------------------------- statements

  predicate Swappable(rows: Rows, id: Id) {
    id in rows && rows[id].Live()
  }

  /** The compare-and-swap UPDATE; it changes the table exactly when `Swappable`. */
  function Swapped(rows: Rows, id: Id, now: int): Rows {
    if Swappable(rows, id) then
      rows[id := rows[id].(usedAt := Some(now), revokedAt := Some(now))]
    else
      rows
  }

  function Revoked(rows: Rows, family: Id, now: int): Rows {
    map id | id in rows ::
      if rows[id].family == family && rows[id].revokedAt.None?
      then rows[id].(revokedAt := Some(now))
      else rows[id]
  }

  predicate Visible(db: Db, user: Id) {
    user in db.users && !db.users[user].deleted
  }

  function Bumped(db: Db, user: Id): Db {
    if Visible(db, user)
    then db.(users := db.users[user := db.users[user].(version := db.users[user].version + 1)])
    else db
  }

  // ---------------------------------------------------------------- one request

  datatype Error =
    | InvalidRefresh | RefreshExpired | RefreshReuse | AccountSuspended
    | InvalidCredentials | OneTimeCodeInvalid | StoreError

  datatype Outcome = Pair(token: Id) | LoggedOut | Failed(error: Error)

  /** Where a request stands: each constructor names the statement it will run next. */
  datatype Call =
    | Refreshing(id: Id, hash: Digest)                  // SELECT the presented token
    | Marking(rt: Row, now: int)                        // the compare-and-swap
    | Validating(rt: Row, now: int)                     // swap won; SELECT the user
    | Rotating(rt: Row, u: User)                        // swap won; INSERT the successor
    | Revoking(rt: Row, now: int, answer: Outcome)        // UPDATE the whole family
    | LoggingIn(user: Id, verified: bool)               // SELECT the user by email
    | Exchanging(user: Id)                              // SELECT the user of a consumed code
    | Opening(user: Id, u: User)                        // INSERT the first row of a new family
    | LoggingOut(id: Id, hash: Digest)                  // SELECT the presented token
    | Finished(out: Outcome)
  {
    predicate Entry() {
      Refreshing? || LoggingIn? || Exchanging? || LoggingOut?
    }

    /** Past a successful swap and neither issued nor failed. */
    predicate Winner() {
      Validating? || Rotating?
    }
  }

  /** Everything a statement takes from outside: clock, fresh random values, faults. */
  datatype Env = Env(now: int, newId: Id, newFamily: Id, newHash: Digest, expires: int, fault: Fault)

  predicate FreshFamily(rows: Rows, family: Id) {
    forall id :: id in rows ==> rows[id].family != family
  }

  function NewRow(user: Id, family: Id, prev: Option<Id>, version: nat, e: Env): Row {
    Row(e.newId, user, family, e.newHash, prev, None, None, e.expires, version)
  }

  /** INSERT with a fresh primary key; the random id never repeats, so otherwise nothing happens. */
  function Insert(db: Db, c: Call, r: Row, e: Env): (Db, Call) {
    if r.id in db.rows then (db, c)
    else match e.fault
      case NoFault => (db.(rows := db.rows[r.id := r]), Finished(Pair(r.id)))
      case NotApplied => (db, Finished(Failed(StoreError)))
      case AnswerLost => (db.(rows := db.rows[r.id := r]), Finished(Failed(StoreError)))
  }

  /** One statement of a request together with the local checks that follow it. */
  function Exec(db: Db, c: Call, e: Env): (Db, Call) {
    match c
    case Refreshing(id, hash) =>
      if !e.fault.NoFault? || id !in db.rows || db.rows[id].hash != hash
      then (db, Finished(Failed(InvalidRefresh)))
      else if e.now > db.rows[id].expires then (db, Finished(Failed(RefreshExpired)))
      else (db, Marking(db.rows[id], e.now))
    case Marking(rt, now) =>
      var swapped := db.(rows := Swapped(db.rows, rt.id, now));
      (match e.fault
       case NotApplied => (db, Finished(Failed(StoreError)))
       case AnswerLost => (swapped, Finished(Failed(StoreError)))
       case NoFault =>
         if Swappable(db.rows, rt.id) then (swapped, Validating(rt, now))
         else (db, Revoking(rt, now, Failed(RefreshReuse))))
    case Validating(rt, now) =>
      if !e.fault.NoFault? || !Visible(db, rt.user) then (db, Finished(Failed(InvalidRefresh)))
      else
        var u := db.users[rt.user];
        if u.status.Suspended? then (db, Revoking(rt, now, Failed(AccountSuspended)))
        else if rt.version != u.version then (db, Revoking(rt, now, Failed(InvalidRefresh)))
        else (db, Rotating(rt, u))
    case Rotating(rt, u) =>
      Insert(db, c, NewRow(rt.user, rt.family, Some(rt.id), u.version, e), e)
    case Revoking(rt, now, answer) =>
      // Refresh only logs a failed revocation; Logout returns it.
      var reply := if !e.fault.NoFault? && answer.LoggedOut? then Failed(StoreError) else answer;
      if e.fault.NotApplied? then (db, Finished(reply))
      else (db.(rows := Revoked(db.rows, rt.family, now)), Finished(reply))
    case LoggingIn(user, verified) =>
      if !e.fault.NoFault? then (db, Finished(Failed(StoreError)))
      else if !Visible(db, user) || !db.users[user].hasPassword || !verified
      then (db, Finished(Failed(InvalidCredentials)))
      else if db.users[user].status.Suspended? then (db, Finished(Failed(AccountSuspended)))
      else (db, Opening(user, db.users[user]))
    case Exchanging(user) =>
      if !e.fault.NoFault? || !Visible(db, user) then (db, Finished(Failed(OneTimeCodeInvalid)))
      else if db.users[user].status.Suspended? then (db, Finished(Failed(AccountSuspended)))
      else (db, Opening(user, db.users[user]))
    case Opening(user, u) =>
      if !FreshFamily(db.rows, e.newFamily) then (db, c)
      else Insert(db, c, NewRow(user, e.newFamily, None, u.version, e), e)
    case LoggingOut(id, hash) =>
      if !e.fault.NoFault? || id !in db.rows || db.rows[id].hash != hash
      then (db, Finished(Failed(InvalidRefresh)))
      else (db, Revoking(db.rows[id], e.now, LoggedOut))
    case Finished(_) => (db, c)
  }

  // ---------------------------------------------------------------- the whole system

  /** The ids inserted into one family, oldest first, and the session they belong to. */
  datatype Lineage = Lineage(user: Id, version: nat, ids: seq<Id>)
  {
    function Tip(): Option<Id> {
      if ids == [] then None else Some(ids[|ids| - 1])
    }
  }

  /** `families` is a history variable: no step reads it. */
  datatype Sys = Sys(db: Db, calls: map<Id, Call>, families: map<Id, Lineage>)

  datatype Action =
    | Begin(pid: Id, call: Call)                            // a request arrives
    | Next(pid: Id, env: Env)                               // it runs its next statement
    | BumpVersion(user: Id)                                 // LogoutAll, or a committed ResetPassword
    | SetStatus(user: Id, status: Status, deleted: bool)    // suspension and its reversal; deletion is final
    | AddUser(user: Id, row: User)

  function Record(families: map<Id, Lineage>, r: Row): map<Id, Lineage> {
    if r.family in families
    then families[r.family := families[r.family].(ids := families[r.family].ids + [r.id])]
    else families[r.family := Lineage(r.user, r.version, [r.id])]
  }

  function Step(s: Sys, a: Action): Sys {
    match a
    case Begin(pid, call) =>
      if pid in s.calls || !call.Entry() then s else s.(calls := s.calls[pid := call])
    case Next(pid, e) =>
      if pid !in s.calls then s
      else
        var (db, c) := Exec(s.db, s.calls[pid], e);
        Sys(db, s.calls[pid := c],
            if e.newId in db.rows && e.newId !in s.db.rows then Record(s.families, db.rows[e.newId])
            else s.families)
    case BumpVersion(user) => s.(db := Bumped(s.db, user))
    case SetStatus(user, status, deleted) =>
      if user !in s.db.users then s
      else
        var u := s.db.users[user];
        s.(db := s.db.(users := s.db.users[user := u.(status := status, deleted := u.deleted || deleted)]))
    case AddUser(user, row) =>
      if user in s.db.users then s else s.(db := s.db.(users := s.db.users[user := row]))
  }

  function Run(s: Sys, acts: seq<Action>): Sys
    decreases |acts|
  {
    if acts == [] then s else Run(Step(s, acts[0]), acts[1..])
  }

  /** Any users, no tokens, no requests. */
  function Start(users: map<Id, User>): Sys {
    Sys(Db(map[], users), map[], map[])
  }

  ghost predicate Reachable(s: Sys) {
    exists users, acts :: s == Run(Start(users), acts)
  }

  // ---------------------------------------------------------------- the inductive invariant

  /** The i-th row of a family: whose it is, what it follows, and that only the last may be unused. */
  ghost predicate LinkOk(rows: Rows, f: Id, l: Lineage, i: int) {
    0 <= i < |l.ids| ==>
      && l.ids[i] in rows
      && rows[l.ids[i]].family == f
      && rows[l.ids[i]].user == l.user
      && rows[l.ids[i]].version == l.version
      && rows[l.ids[i]].prev == (if i == 0 then None else Some(l.ids[i - 1]))
      && (i < |l.ids| - 1 ==> rows[l.ids[i]].usedAt.Some?)
  }

  ghost predicate NoRepeat(ids: seq<Id>) {
    forall i, j :: 0 <= i < j < |ids| ==> ids[i] != ids[j]
  }

  ghost predicate LineageOk(db: Db, f: Id, l: Lineage) {
    && l.ids != []
    && (forall i :: LinkOk(db.rows, f, l, i))
    && NoRepeat(l.ids)
    && l.user in db.users
    && l.version <= db.users[l.user].version
  }

  ghost predicate RowOk(s: Sys, id: Id) {
    id in s.db.rows ==>
      && s.db.rows[id].id == id
      && s.db.rows[id].family in s.families
      && id in s.families[s.db.rows[id].family].ids
  }

  ghost predicate Known(s: Sys, rt: Row) {
    && rt.id in s.db.rows
    && rt.SameToken(s.db.rows[rt.id])
    && rt.family in s.families
  }

  /** A winner's token is consumed and is still the newest of its family. */
  ghost predicate WinnerOk(s: Sys, rt: Row) {
    && Known(s, rt)
    && s.db.rows[rt.id].usedAt.Some?
    && s.families[rt.family].Tip() == Some(rt.id)
  }

  ghost predicate CallOk(s: Sys, c: Call) {
    match c
    case Marking(rt, _) => Known(s, rt)
    case Revoking(rt, _, _) => Known(s, rt)
    case Validating(rt, _) => WinnerOk(s, rt)
    case Rotating(rt, u) => WinnerOk(s, rt) && u.version == rt.version
    case Opening(user, u) => user in s.db.users && u.version <= s.db.users[user].version
    case _ => true
  }

  /** No two requests have won the swap on the same token. */
  ghost predicate OneWinner(calls: map<Id, Call>) {
    forall p, q ::
      (&& p in calls && q in calls && calls[p].Winner() && calls[q].Winner()
       && calls[p].rt.id == calls[q].rt.id) ==> p == q
  }

  ghost predicate Inv(s: Sys) {
    && (forall f :: f in s.families ==> LineageOk(s.db, f, s.families[f]))
    && (forall id :: RowOk(s, id))
    && (forall p :: p in s.calls ==> CallOk(s, s.calls[p]))
    && OneWinner(s.calls)
  }

  /** Updates only set timestamps, versions only grow. */
  ghost predicate Evolves(a: Db, b: Db) {
    && a.rows.Keys == b.rows.Keys
    && (forall id :: id in a.rows ==>
          a.rows[id].SameToken(b.rows[id]) && (a.rows[id].usedAt.Some? ==> b.rows[id].usedAt.Some?))
    && (forall u :: u in a.users ==> u in b.users && a.users[u].version <= b.users[u].version)
  }

  lemma LineageEvolves(a: Db, b: Db, f: Id, l: Lineage)
    requires LineageOk(a, f, l) && Evolves(a, b)
    ensures LineageOk(b, f, l)
  {
    forall i ensures LinkOk(b.rows, f, l, i) {
      assert LinkOk(a.rows, f, l, i);
    }
  }

  /** A step that inserts nothing and keeps the calls in order keeps the invariant. */
  lemma InvUpdate(s: Sys, t: Sys)
    requires Inv(s) && Evolves(s.db, t.db) && t.families == s.families
    requires forall p :: p in t.calls ==> CallOk(t, t.calls[p])
    requires OneWinner(t.calls)
    ensures Inv(t)
  {
    forall f | f in t.families ensures LineageOk(t.db, f, t.families[f]) {
      LineageEvolves(s.db, t.db, f, s.families[f]);
    }
    forall id ensures RowOk(t, id) {
      assert RowOk(s, id);
    }
  }

  lemma CallOkEvolves(s: Sys, t: Sys, c: Call)
    requires CallOk(s, c) && Evolves(s.db, t.db) && t.families == s.families
    ensures CallOk(t, c)
  {
  }

  /** The tip of a lineage is the only row of its family that may be unused. */
  lemma UnusedIsTip(s: Sys, id: Id)
    requires Inv(s) && id in s.db.rows && s.db.rows[id].usedAt.None?
    ensures s.db.rows[id].family in s.families && s.families[s.db.rows[id].family].Tip() == Some(id)
  {
    var f := s.db.rows[id].family;
    assert RowOk(s, id);
    var l := s.families[f];
    assert LineageOk(s.db, f, l);
    var i :| 0 <= i < |l.ids| && l.ids[i] == id;
    assert LinkOk(s.db.rows, f, l, i);
  }

  /** A statement that inserts nothing only sets timestamps. */
  lemma ExecEvolves(db: Db, c: Call, e: Env)
    requires !c.Rotating? && !c.Opening?
    ensures Evolves(db, Exec(db, c, e).0)
    ensures Exec(db, c, e).0.users == db.users
  {
  }

  /** Every statement except the two INSERTs and the swap leaves its own request in order. */
  lemma ExecCallOk(s: Sys, c: Call, e: Env)
    requires Inv(s) && CallOk(s, c) && !c.Rotating? && !c.Opening? && !c.Marking?
    ensures var (db, d) := Exec(s.db, c, e); CallOk(s.(db := db), d)
    ensures Exec(s.db, c, e).1.Winner() ==> c.Validating? && Exec(s.db, c, e).1.rt == c.rt
  {
    ExecEvolves(s.db, c, e);
    match c
    case Refreshing(id, _) => assert RowOk(s, id);
    case LoggingOut(id, _) => assert RowOk(s, id);
    case _ =>
  }

  /** One request moves on, nothing is inserted: the invariant survives if that request stays in order. */
  lemma InvAdvance(s: Sys, pid: Id, db: Db, c: Call)
    requires Inv(s) && pid in s.calls && Evolves(s.db, db) && CallOk(s.(db := db), c)
    requires c.Winner() ==> forall q :: q in s.calls && q != pid && s.calls[q].Winner() ==> s.calls[q].rt.id != c.rt.id
    ensures Inv(Sys(db, s.calls[pid := c], s.families))
  {
    var t := Sys(db, s.calls[pid := c], s.families);
    forall p | p in t.calls ensures CallOk(t, t.calls[p]) {
      if p != pid { CallOkEvolves(s, t, s.calls[p]); }
    }
    InvUpdate(s, t);
  }

  lemma InvMarking(s: Sys, pid: Id, e: Env)
    requires Inv(s) && pid in s.calls && s.calls[pid].Marking?
    ensures Inv(Step(s, Next(pid, e)))
  {
    var rt := s.calls[pid].rt;
    var (db, c) := Exec(s.db, s.calls[pid], e);
    assert CallOk(s, s.calls[pid]);
    ExecEvolves(s.db, s.calls[pid], e);
    if c.Validating? {
      UnusedIsTip(s, rt.id);
      forall q | q in s.calls && s.calls[q].Winner() ensures s.calls[q].rt.id != rt.id {
        assert CallOk(s, s.calls[q]);
      }
    }
    InvAdvance(s, pid, db, c);
  }

  lemma InvQuiet(s: Sys, pid: Id, e: Env)
    requires Inv(s) && pid in s.calls
    requires !s.calls[pid].Marking? && !s.calls[pid].Rotating? && !s.calls[pid].Opening?
    ensures Inv(Step(s, Next(pid, e)))
  {
    var (db, c) := Exec(s.db, s.calls[pid], e);
    assert CallOk(s, s.calls[pid]);
    ExecEvolves(s.db, s.calls[pid], e);
    ExecCallOk(s, s.calls[pid], e);
    InvAdvance(s, pid, db, c);
  }

  /** `r` may follow the tip of its family, or open a new one. */
  ghost predicate Attaches(s: Sys, r: Row) {
    && r.id !in s.db.rows
    && if r.family in s.families then
         && r.prev.Some?
         && s.families[r.family].Tip() == r.prev
         && r.prev.value in s.db.rows
         && s.db.rows[r.prev.value].usedAt.Some?
         && s.families[r.family].user == r.user
         && s.families[r.family].version == r.version
       else
         && r.prev.None?
         && r.user in s.db.users
         && r.version <= s.db.users[r.user].version
  }

  lemma LineageInsert(s: Sys, r: Row, f: Id)
    requires Inv(s) && Attaches(s, r) && f in Record(s.families, r)
    ensures LineageOk(s.db.(rows := s.db.rows[r.id := r]), f, Record(s.families, r)[f])
  {
    var db := s.db.(rows := s.db.rows[r.id := r]);
    var l := Record(s.families, r)[f];
    if f in s.families {
      var k := s.families[f];
      assert LineageOk(s.db, f, k);
      forall i ensures LinkOk(db.rows, f, l, i) {
        assert LinkOk(s.db.rows, f, k, i);
      }
      forall i, j | 0 <= i < j < |l.ids| ensures l.ids[i] != l.ids[j] {
        assert LinkOk(s.db.rows, f, k, i);
      }
    }
  }

  lemma InvInsert(s: Sys, pid: Id, r: Row, out: Outcome)
    requires Inv(s) && pid in s.calls && Attaches(s, r)
    requires forall q :: (q in s.calls && q != pid && s.calls[q].Winner()) ==> s.calls[q].rt.family != r.family
    ensures Inv(Sys(s.db.(rows := s.db.rows[r.id := r]), s.calls[pid := Finished(out)], Record(s.families, r)))
  {
    var t := Sys(s.db.(rows := s.db.rows[r.id := r]), s.calls[pid := Finished(out)], Record(s.families, r));
    forall f | f in t.families ensures LineageOk(t.db, f, t.families[f]) {
      LineageInsert(s, r, f);
    }
    forall id ensures RowOk(t, id) {
      assert RowOk(s, id);
    }
    forall p | p in t.calls ensures CallOk(t, t.calls[p]) {
      if p != pid { assert CallOk(s, s.calls[p]); }
    }
  }

  /** Requests that won on the same family won on the same token, hence are one request. */
  lemma OneWinnerPerFamily(s: Sys, p: Id, q: Id)
    requires Inv(s) && p in s.calls && q in s.calls && s.calls[p].Winner() && s.calls[q].Winner()
    requires s.calls[p].rt.family == s.calls[q].rt.family
    ensures p == q
  {
    assert CallOk(s, s.calls[p]) && CallOk(s, s.calls[q]);
  }

  lemma InvRotating(s: Sys, pid: Id, e: Env)
    requires Inv(s) && pid in s.calls && s.calls[pid].Rotating?
    ensures Inv(Step(s, Next(pid, e)))
  {
    var c := s.calls[pid];
    var t := Step(s, Next(pid, e));
    assert CallOk(s, c);
    var r := NewRow(c.rt.user, c.rt.family, Some(c.rt.id), c.u.version, e);
    if e.newId !in s.db.rows && !e.fault.NotApplied? {
      var l := s.families[c.rt.family];
      assert LineageOk(s.db, c.rt.family, l);
      assert LinkOk(s.db.rows, c.rt.family, l, |l.ids| - 1);
      forall q | q in s.calls && q != pid && s.calls[q].Winner() ensures s.calls[q].rt.family != c.rt.family {
        if s.calls[q].rt.family == c.rt.family { OneWinnerPerFamily(s, pid, q); }
      }
      InvInsert(s, pid, r, t.calls[pid].out);
    } else {
      InvAdvance(s, pid, s.db, t.calls[pid]);
    }
  }

  lemma KnownFamilyHasRow(s: Sys, f: Id)
    requires Inv(s) && f in s.families
    ensures !FreshFamily(s.db.rows, f)
  {
    assert LineageOk(s.db, f, s.families[f]);
    assert LinkOk(s.db.rows, f, s.families[f], 0);
  }

  lemma InvOpening(s: Sys, pid: Id, e: Env)
    requires Inv(s) && pid in s.calls && s.calls[pid].Opening?
    ensures Inv(Step(s, Next(pid, e)))
  {
    var c := s.calls[pid];
    var t := Step(s, Next(pid, e));
    assert CallOk(s, c);
    var r := NewRow(c.user, e.newFamily, None, c.u.version, e);
    if FreshFamily(s.db.rows, e.newFamily) && e.newId !in s.db.rows && !e.fault.NotApplied? {
      if e.newFamily in s.families { KnownFamilyHasRow(s, e.newFamily); }
      forall q | q in s.calls && q != pid && s.calls[q].Winner() ensures s.calls[q].rt.family != e.newFamily {
        assert CallOk(s, s.calls[q]);
      }
      InvInsert(s, pid, r, t.calls[pid].out);
    } else {
      InvAdvance(s, pid, s.db, t.calls[pid]);
    }
  }

  lemma InvBegin(s: Sys, pid: Id, call: Call)
    requires Inv(s) && pid !in s.calls && call.Entry()
    ensures Inv(s.(calls := s.calls[pid := call]))
  {
    var t := s.(calls := s.calls[pid := call]);
    forall p | p in t.calls ensures CallOk(t, t.calls[p]) {
      if p != pid { CallOkEvolves(s, t, s.calls[p]); }
    }
    InvUpdate(s, t);
  }

  /** Changes to the users that lower no version. */
  lemma InvUsers(s: Sys, users: map<Id, User>)
    requires Inv(s)
    requires forall u :: u in s.db.users ==> u in users && s.db.users[u].version <= users[u].version
    ensures Inv(s.(db := s.db.(users := users)))
  {
    var t := s.(db := s.db.(users := users));
    forall p | p in t.calls ensures CallOk(t, t.calls[p]) {
      CallOkEvolves(s, t, s.calls[p]);
    }
    InvUpdate(s, t);
  }

  lemma InvStep(s: Sys, a: Action)
    requires Inv(s)
    ensures Inv(Step(s, a))
  {
    if a.Begin? {
      if a.pid !in s.calls && a.call.Entry() { InvBegin(s, a.pid, a.call); }
    } else if !a.Next? {
      InvUsers(s, Step(s, a).db.users);
    } else if a.pid in s.calls {
      match s.calls[a.pid]
      case Marking(_, _) => InvMarking(s, a.pid, a.env);
      case Rotating(_, _) => InvRotating(s, a.pid, a.env);
      case Opening(_, _) => InvOpening(s, a.pid, a.env);
      case _ => InvQuiet(s, a.pid, a.env);
    }
  }

  lemma {:induction false} InvRun(s: Sys, acts: seq<Action>)
    requires Inv(s)
    ensures Inv(Run(s, acts))
    decreases |acts|
  {
    if acts != [] {
      InvStep(s, acts[0]);
      InvRun(Step(s, acts[0]), acts[1..]);
    }
  }

  lemma ReachableInv(s: Sys)
    requires Reachable(s)
    ensures Inv(s)
  {
    var users, acts :| s == Run(Start(users), acts);
    InvRun(Start(users), acts);
  }
}
