/**
 Password reset and email verification.

 A transaction is several statements.  Its writes stay in the request until COMMIT; the rows it has
 updated are locked until then, and an UPDATE of a locked row waits.  SELECTs read committed rows.
 */
module Accounts {
  import opened Common

  type Id = nat
  type Digest = nat
  type Hash = nat            // an argon2id hash string

  datatype Kind = Reset | Verify

  /** A token row, in the table of its kind, by its unique token_hash. */
  datatype Ref = Ref(kind: Kind, hash: Digest)

  /** `used` is used_at, or consumed_at of a verification token. */
  datatype Token = Token(user: Id, expires: int, used: Option<int>)

  datatype User = User(verified: bool, password: Option<Hash>, suspended: bool, deleted: bool, version: nat)

  datatype Db = Db(tokens: map<Ref, Token>, users: map<Id, User>)

  const RESET_TTL := 1800
  const VERIFY_TTL := 86400

  function Ttl(kind: Kind): int {
    if kind.Reset? then RESET_TTL else VERIFY_TTL
  }

  predicate Visible(db: Db, u: Id) {
    u in db.users && !db.users[u].deleted
  }

  // ---------------------------------------------------------------- statements

  /** The guard of the single-use UPDATE; only the reset statement checks the expiry again. */
  predicate Claimable(db: Db, ref: Ref, now: int) {
    ref in db.tokens && db.tokens[ref].used.None? && (ref.kind.Reset? ==> now < db.tokens[ref].expires)
  }

  predicate Outstanding(db: Db, ref: Ref, kind: Kind, user: Id) {
    ref in db.tokens && ref.kind == kind && db.tokens[ref].user == user && db.tokens[ref].used.None?
  }

  function Invalidated(db: Db, kind: Kind, user: Id, now: int): Db {
    db.(tokens := map r | r in db.tokens ::
      if Outstanding(db, r, kind, user) then db.tokens[r].(used := Some(now)) else db.tokens[r])
  }

  function Bump(u: User): User {
    u.(version := u.version + 1)
  }

  // ---------------------------------------------------------------- one request

  datatype Error = InvalidToken | WeakPassword | NotFound | StoreError

  datatype Outcome = Silent | Done(ref: Ref) | Failed(error: Error)

  /** The next statement of a request.  `token` and `row` are uncommitted row versions. */
  datatype Pc =
    | Requesting(kind: Kind, user: Id)                        // SELECT the user, then the gates
    | Invalidating(kind: Kind, user: Id, now: int)
    | Issuing(kind: Kind, user: Id, now: int)
    | Presenting(ref: Ref, chosen: Option<Hash>)              // SELECT by hash; None: too weak a password
    | Claiming(ref: Ref, hash: Hash, now: int)                // BEGIN; the guarded UPDATE
    | Replacing(ref: Ref, hash: Hash, token: Token)           // UPDATE users SET password_hash
    | Bumping(ref: Ref, hash: Hash, token: Token, row: User)  // UPDATE users SET token_version
    | Confirming(ref: Ref, token: Token)                      // UPDATE users SET email_verified
    | Committing(ref: Ref, hash: Hash, token: Token, row: User)
    | Finished(out: Outcome)
  {
    predicate Entry() {
      Requesting? || Presenting?
    }

    /** A transaction that has updated, hence locked, the token row `ref`. */
    predicate HoldsToken() {
      Replacing? || Bumping? || Confirming? || Committing?
    }

    /** A transaction that has also updated, hence locked, the row of `token.user`. */
    predicate HoldsUser() {
      Bumping? || Committing?
    }
  }

  datatype Env = Env(now: int, later: int, newHash: Digest, fault: Fault)

  predicate Eligible(db: Db, kind: Kind, user: Id) {
    && Visible(db, user)
    && (var u := db.users[user];
        if kind.Reset? then u.verified && u.password.Some? && !u.suspended else !u.verified)
  }

  /** One statement and the local checks after it, when it need not wait. */
  function Exec(db: Db, c: Pc, e: Env): (Db, Pc) {
    match c
    case Requesting(kind, user) =>
      if !e.fault.NoFault? || !Eligible(db, kind, user) then (db, Finished(Silent))
      else (db, Invalidating(kind, user, e.now))
    case Invalidating(kind, user, now) =>
      if e.fault.NotApplied? then (db, Finished(Silent))
      else (Invalidated(db, kind, user, now),
            if e.fault.AnswerLost? then Finished(Silent) else Issuing(kind, user, now))
    case Issuing(kind, user, now) =>
      // the random token never repeats, so a used hash leaves everything as it is
      if Ref(kind, e.newHash) in db.tokens then (db, c)
      else if e.fault.NotApplied? then (db, Finished(Silent))
      else (db.(tokens := db.tokens[Ref(kind, e.newHash) := Token(user, now + Ttl(kind), None)]), Finished(Silent))
    case Presenting(ref, chosen) =>
      if !e.fault.NoFault? then (db, Finished(Failed(StoreError)))
      else if ref !in db.tokens || db.tokens[ref].used.Some? || e.now > db.tokens[ref].expires
      then (db, Finished(Failed(InvalidToken)))
      else if chosen.None? && ref.kind.Reset? then (db, Finished(Failed(WeakPassword)))
      else (db, Claiming(ref, if chosen.Some? then chosen.value else 0, e.later))
    case Claiming(ref, hash, now) =>
      if !e.fault.NoFault? then (db, Finished(Failed(StoreError)))
      else if !Claimable(db, ref, now) then (db, Finished(Failed(InvalidToken)))
      else
        var token := db.tokens[ref].(used := Some(now));
        (db, if ref.kind.Reset? then Replacing(ref, hash, token) else Confirming(ref, token))
    case Replacing(ref, hash, token) =>
      if !e.fault.NoFault? then (db, Finished(Failed(StoreError)))
      else if !Visible(db, token.user) then (db, Finished(Failed(NotFound)))
      else (db, Bumping(ref, hash, token, db.users[token.user].(password := Some(hash))))
    case Bumping(ref, hash, token, row) =>
      if !e.fault.NoFault? then (db, Finished(Failed(StoreError)))
      else (db, Committing(ref, hash, token, Bump(row)))
    case Confirming(ref, token) =>
      if !e.fault.NoFault? then (db, Finished(Failed(StoreError)))
      else if !Visible(db, token.user) then (db, Finished(Failed(NotFound)))
      else (db, Committing(ref, 0, token, db.users[token.user].(verified := true)))
    case Committing(ref, hash, token, row) =>
      if e.fault.NotApplied? then (db, Finished(Failed(StoreError)))
      else (Db(db.tokens[ref := token], db.users[token.user := row]),
            Finished(if e.fault.AnswerLost? then Failed(StoreError) else Done(ref)))
    case Finished(_) => (db, c)
  }

  // ---------------------------------------------------------------- the whole system

  /** A committed transaction. */
  datatype Entry = Entry(pid: Id, ref: Ref, user: Id, hash: Hash)

  /** `log`, `logouts` and `base` are history: commits, other version bumps, rows as first inserted. */
  datatype Sys = Sys(db: Db, calls: map<Id, Pc>, log: seq<Entry>, logouts: multiset<Id>, base: map<Id, User>)

  predicate TokenLocked(s: Sys, ref: Ref) {
    exists q :: q in s.calls && s.calls[q].HoldsToken() && s.calls[q].ref == ref
  }

  predicate UserLocked(s: Sys, user: Id) {
    exists q :: q in s.calls && s.calls[q].HoldsUser() && s.calls[q].token.user == user
  }

  /** The request's next statement updates a row that another transaction has locked. */
  predicate Waits(s: Sys, c: Pc) {
    match c
    case Claiming(ref, _, _) => TokenLocked(s, ref)
    case Invalidating(kind, user, _) => exists r ::
      r in s.db.tokens && Outstanding(s.db, r, kind, user) && TokenLocked(s, r)
    case Replacing(_, _, token) => UserLocked(s, token.user)
    case Confirming(_, token) => UserLocked(s, token.user)
    case _ => false
  }

  datatype Action =
    | Begin(pid: Id, pc: Pc)
    | Next(pid: Id, env: Env)
    | LogoutAll(user: Id)
    | SetUser(user: Id, suspended: bool, deleted: bool)
    | AddUser(user: Id, row: User)

  function Step(s: Sys, a: Action): Sys {
    match a
    case Begin(pid, pc) =>
      if pid in s.calls || !pc.Entry() then s else s.(calls := s.calls[pid := pc])
    case Next(pid, e) =>
      if pid !in s.calls || Waits(s, s.calls[pid]) then s
      else
        var c := s.calls[pid];
        var (db, d) := Exec(s.db, c, e);
        s.(db := db, calls := s.calls[pid := d],
           log := if c.Committing? && !e.fault.NotApplied? then s.log + [Entry(pid, c.ref, c.token.user, c.hash)]
                  else s.log)
    case LogoutAll(user) =>
      if !Visible(s.db, user) || UserLocked(s, user) then s
      else s.(db := s.db.(users := s.db.users[user := Bump(s.db.users[user])]), logouts := s.logouts + multiset{user})
    case SetUser(user, suspended, deleted) =>
      if user !in s.db.users || UserLocked(s, user) then s
      else
        var u := s.db.users[user];
        s.(db := s.db.(users := s.db.users[user := u.(suspended := suspended, deleted := u.deleted || deleted)]))
    case AddUser(user, row) =>
      if user in s.db.users then s
      else s.(db := s.db.(users := s.db.users[user := row]), base := s.base[user := row])
  }

  function Run(s: Sys, acts: seq<Action>): Sys
    decreases |acts|
  {
    if acts == [] then s else Run(Step(s, acts[0]), acts[1..])
  }

  const START := Sys(Db(map[], map[]), map[], [], multiset{}, map[])

  ghost predicate Reachable(s: Sys) {
    exists acts :: s == Run(START, acts)
  }

  // ---------------------------------------------------------------- what the log implies

  function ResetsOf(log: seq<Entry>, user: Id): nat {
    if log == [] then 0
    else
      var last := log[|log| - 1];
      ResetsOf(log[..|log| - 1], user) + if last.ref.kind.Reset? && last.user == user then 1 else 0
  }

  function PasswordOf(log: seq<Entry>, user: Id, initial: Option<Hash>): Option<Hash> {
    if log == [] then initial
    else
      var last := log[|log| - 1];
      if last.ref.kind.Reset? && last.user == user then Some(last.hash)
      else PasswordOf(log[..|log| - 1], user, initial)
  }

  predicate VerifiedIn(log: seq<Entry>, user: Id) {
    exists i :: 0 <= i < |log| && log[i].ref.kind.Verify? && log[i].user == user
  }

  /** The row is its first version with every committed reset, logout and verification applied. */
  ghost predicate UserOk(s: Sys, u: Id) {
    if u !in s.db.users then s.logouts[u] == 0
    else
      && u in s.base
      && s.db.users[u].version == s.base[u].version + ResetsOf(s.log, u) + s.logouts[u]
      && s.db.users[u].password == PasswordOf(s.log, u, s.base[u].password)
      && (s.db.users[u].verified <==> s.base[u].verified || VerifiedIn(s.log, u))
  }

  // ---------------------------------------------------------------- invariants

  /** A transaction's token version is the committed, still claimable row with `used` set. */
  ghost predicate TokenHeld(db: Db, ref: Ref, token: Token) {
    && ref in db.tokens
    && db.tokens[ref].used.None?
    && token.used.Some?
    && token == db.tokens[ref].(used := token.used)
    && (ref.kind.Reset? ==> token.used.value < token.expires)
  }

  ghost predicate PcOk(db: Db, c: Pc) {
    match c
    case Replacing(ref, _, token) => ref.kind.Reset? && TokenHeld(db, ref, token)
    case Confirming(ref, token) => ref.kind.Verify? && TokenHeld(db, ref, token)
    case Bumping(ref, hash, token, row) =>
      && ref.kind.Reset? && TokenHeld(db, ref, token) && Visible(db, token.user)
      && row == db.users[token.user].(password := Some(hash))
    case Committing(ref, hash, token, row) =>
      && TokenHeld(db, ref, token) && Visible(db, token.user)
      && row == (if ref.kind.Reset? then Bump(db.users[token.user].(password := Some(hash)))
                 else db.users[token.user].(verified := true))
    case _ => true
  }

  /** No row is locked twice. */
  ghost predicate Exclusive(calls: map<Id, Pc>) {
    && (forall p, q :: (p in calls && q in calls && calls[p].HoldsToken() && calls[q].HoldsToken()
                        && calls[p].ref == calls[q].ref) ==> p == q)
    && (forall p, q :: (p in calls && q in calls && calls[p].HoldsUser() && calls[q].HoldsUser()
                        && calls[p].token.user == calls[q].token.user) ==> p == q)
  }

  ghost predicate Logged(log: seq<Entry>, pid: Id, ref: Ref) {
    exists i :: 0 <= i < |log| && log[i].pid == pid && log[i].ref == ref
  }

  ghost predicate EntryOk(s: Sys, i: int) {
    0 <= i < |s.log| ==>
      && s.log[i].ref in s.db.tokens
      && s.db.tokens[s.log[i].ref].used.Some?
      && s.db.tokens[s.log[i].ref].user == s.log[i].user
      && s.log[i].user in s.db.users
      && s.log[i].pid in s.calls
      && (|| s.calls[s.log[i].pid] == Finished(Done(s.log[i].ref))
          || s.calls[s.log[i].pid] == Finished(Failed(StoreError)))
  }

  ghost predicate LogOk(log: seq<Entry>) {
    forall i, j :: 0 <= i < j < |log| ==> log[i].ref != log[j].ref && log[i].pid != log[j].pid
  }

  ghost predicate DoneOk(s: Sys, p: Id) {
    p in s.calls && s.calls[p].Finished? && s.calls[p].out.Done? ==> Logged(s.log, p, s.calls[p].out.ref)
  }

  ghost predicate Inv(s: Sys) {
    && (forall p :: p in s.calls ==> PcOk(s.db, s.calls[p]))
    && Exclusive(s.calls)
    && (forall u :: UserOk(s, u))
    && LogOk(s.log)
    && (forall i :: EntryOk(s, i))
    && (forall p :: DoneOk(s, p))
  }

  // ---------------------------------------------------------------- preservation

  /** What a transaction in flight relies on: the rows it has locked stay as they are. */
  ghost predicate Keeps(a: Db, b: Db, c: Pc) {
    && (c.HoldsToken() && c.ref in a.tokens ==> c.ref in b.tokens && b.tokens[c.ref] == a.tokens[c.ref])
    && (c.HoldsUser() && c.token.user in a.users ==>
          c.token.user in b.users && b.users[c.token.user] == a.users[c.token.user])
  }

  lemma PcOkKept(a: Db, b: Db, c: Pc)
    requires PcOk(a, c) && Keeps(a, b, c)
    ensures PcOk(b, c)
  {
  }

  /** Statements outside COMMIT touch no user and only unlocked or new token rows. */
  lemma ExecKeeps(s: Sys, c: Pc, e: Env, q: Id)
    requires Inv(s) && !Waits(s, c) && !c.Committing? && q in s.calls
    ensures Keeps(s.db, Exec(s.db, c, e).0, s.calls[q])
  {
    assert PcOk(s.db, s.calls[q]);
    if s.calls[q].HoldsToken() { assert TokenLocked(s, s.calls[q].ref); }
  }

  lemma ExecPcOk(s: Sys, pid: Id, e: Env)
    requires Inv(s) && pid in s.calls
    ensures var (db, d) := Exec(s.db, s.calls[pid], e); PcOk(db, d)
  {
    assert PcOk(s.db, s.calls[pid]);
  }

  /** A request takes a lock only when no other holds it. */
  lemma ExecExclusive(s: Sys, pid: Id, e: Env)
    requires Inv(s) && pid in s.calls && !Waits(s, s.calls[pid])
    ensures Exclusive(s.calls[pid := Exec(s.db, s.calls[pid], e).1])
  {
    var c, d := s.calls[pid], Exec(s.db, s.calls[pid], e).1;
    forall q | q in s.calls && q != pid && d.HoldsToken() && s.calls[q].HoldsToken() ensures s.calls[q].ref != d.ref {
      assert TokenLocked(s, s.calls[q].ref);
    }
    forall q | q in s.calls && q != pid && d.HoldsUser() && s.calls[q].HoldsUser()
      ensures s.calls[q].token.user != d.token.user
    {
      assert UserLocked(s, s.calls[q].token.user);
    }
  }

  /** Outside COMMIT, token rows only appear or become used, and nothing is Done. */
  lemma ExecQuiet(db: Db, c: Pc, e: Env)
    requires !c.Committing?
    ensures var (after, d) := Exec(db, c, e);
      && after.users == db.users
      && (forall r :: r in db.tokens ==>
            && r in after.tokens
            && after.tokens[r].user == db.tokens[r].user
            && (db.tokens[r].used.Some? ==> after.tokens[r].used.Some?))
      && (d == c || !(d.Finished? && d.out.Done?))
      && (c.Finished? ==> d == c)
  {
  }

  lemma LogQuiet(s: Sys, pid: Id, db: Db, d: Pc)
    requires Inv(s) && pid in s.calls
    requires db.users == s.db.users
    requires forall r :: r in s.db.tokens ==>
      && r in db.tokens && db.tokens[r].user == s.db.tokens[r].user
      && (s.db.tokens[r].used.Some? ==> db.tokens[r].used.Some?)
    requires d == s.calls[pid] || (!(d.Finished? && d.out.Done?) && !s.calls[pid].Finished?)
    ensures var t := s.(db := db, calls := s.calls[pid := d]);
      && (forall u :: UserOk(t, u))
      && (forall i :: EntryOk(t, i))
      && (forall p :: DoneOk(t, p))
  {
    var t := s.(db := db, calls := s.calls[pid := d]);
    forall u ensures UserOk(t, u) { assert UserOk(s, u); }
    forall i ensures EntryOk(t, i) { assert EntryOk(s, i); }
    forall p ensures DoneOk(t, p) { assert DoneOk(s, p); }
  }

  lemma InvQuiet(s: Sys, pid: Id, e: Env)
    requires Inv(s) && pid in s.calls && !s.calls[pid].Committing? && !Waits(s, s.calls[pid])
    ensures Inv(Step(s, Next(pid, e)))
  {
    var (db, d) := Exec(s.db, s.calls[pid], e);
    ExecQuiet(s.db, s.calls[pid], e);
    LogQuiet(s, pid, db, d);
    ExecExclusive(s, pid, e);
    var calls := s.calls[pid := d];
    forall q | q in calls ensures PcOk(db, calls[q]) {
      if q == pid { ExecPcOk(s, pid, e); } else {
        ExecKeeps(s, s.calls[pid], e, q);
        PcOkKept(s.db, db, s.calls[q]);
      }
    }
  }

  // ---------------------------------------------------------------- COMMIT

  lemma LogAppend(log: seq<Entry>, x: Entry, user: Id, initial: Option<Hash>)
    ensures var mine := x.ref.kind.Reset? && x.user == user;
      && ResetsOf(log + [x], user) == ResetsOf(log, user) + (if mine then 1 else 0)
      && PasswordOf(log + [x], user, initial) == (if mine then Some(x.hash) else PasswordOf(log, user, initial))
    ensures VerifiedIn(log + [x], user) <==> VerifiedIn(log, user) || (x.ref.kind.Verify? && x.user == user)
  {
    assert (log + [x])[..|log|] == log;
    if VerifiedIn(log, user) {
      var i :| 0 <= i < |log| && log[i].ref.kind.Verify? && log[i].user == user;
      assert (log + [x])[i] == log[i];
    }
    if x.ref.kind.Verify? && x.user == user { assert (log + [x])[|log|] == x; }
  }

  function Committed(s: Sys, pid: Id, out: Outcome): Sys
    requires pid in s.calls && s.calls[pid].Committing?
  {
    var c := s.calls[pid];
    s.(db := Db(s.db.tokens[c.ref := c.token], s.db.users[c.token.user := c.row]),
       calls := s.calls[pid := Finished(out)],
       log := s.log + [Entry(pid, c.ref, c.token.user, c.hash)])
  }

  lemma CommitUsers(s: Sys, pid: Id, out: Outcome, u: Id)
    requires Inv(s) && pid in s.calls && s.calls[pid].Committing?
    ensures UserOk(Committed(s, pid, out), u)
  {
    var c := s.calls[pid];
    assert PcOk(s.db, c) && UserOk(s, u);
    if u in s.base { LogAppend(s.log, Entry(pid, c.ref, c.token.user, c.hash), u, s.base[u].password); }
  }

  lemma CommitLog(s: Sys, pid: Id, out: Outcome)
    requires Inv(s) && pid in s.calls && s.calls[pid].Committing?
    requires out == Done(s.calls[pid].ref) || out == Failed(StoreError)
    ensures var t := Committed(s, pid, out);
      LogOk(t.log) && (forall i :: EntryOk(t, i)) && (forall p :: DoneOk(t, p))
  {
    var c := s.calls[pid];
    var t := Committed(s, pid, out);
    assert PcOk(s.db, c);
    forall i ensures EntryOk(t, i) { assert EntryOk(s, i); }
    forall i, j | 0 <= i < j < |t.log| ensures t.log[i].ref != t.log[j].ref && t.log[i].pid != t.log[j].pid {
      assert EntryOk(s, i);
    }
    forall p ensures DoneOk(t, p) {
      assert DoneOk(s, p);
      if p == pid {
        assert t.log[|s.log|].pid == p;
      } else if p in s.calls && s.calls[p].Finished? && s.calls[p].out.Done? {
        var i :| 0 <= i < |s.log| && s.log[i].pid == p && s.log[i].ref == s.calls[p].out.ref;
        assert t.log[i] == s.log[i];
      }
    }
  }

  lemma InvCommit(s: Sys, pid: Id, out: Outcome)
    requires Inv(s) && pid in s.calls && s.calls[pid].Committing?
    requires out == Done(s.calls[pid].ref) || out == Failed(StoreError)
    ensures Inv(Committed(s, pid, out))
  {
    var t := Committed(s, pid, out);
    CommitLog(s, pid, out);
    forall u ensures UserOk(t, u) { CommitUsers(s, pid, out, u); }
    forall q | q in t.calls ensures PcOk(t.db, t.calls[q]) {
      if q != pid {
        assert PcOk(s.db, s.calls[q]);
        PcOkKept(s.db, t.db, s.calls[q]);
      }
    }
  }

  lemma InvNext(s: Sys, pid: Id, e: Env)
    requires Inv(s)
    ensures Inv(Step(s, Next(pid, e)))
  {
    if pid in s.calls && !Waits(s, s.calls[pid]) {
      if !s.calls[pid].Committing? {
        InvQuiet(s, pid, e);
      } else if e.fault.NotApplied? {
        var d := Finished(Failed(StoreError));
        LogQuiet(s, pid, s.db, d);
        assert forall q :: q in s.calls ==> PcOk(s.db, s.calls[q]);
      } else {
        InvCommit(s, pid, Exec(s.db, s.calls[pid], e).1.out);
      }
    }
  }

  // ---------------------------------------------------------------- other actions

  /** Changes to unlocked user rows that keep the accounts balanced. */
  lemma InvUsers(s: Sys, t: Sys)
    requires Inv(s) && t.calls == s.calls && t.log == s.log && t.db.tokens == s.db.tokens
    requires forall u :: u in s.db.users ==> u in t.db.users && (UserLocked(s, u) ==> t.db.users[u] == s.db.users[u])
    requires forall u :: UserOk(t, u)
    ensures Inv(t)
  {
    forall q | q in t.calls ensures PcOk(t.db, t.calls[q]) {
      assert PcOk(s.db, s.calls[q]);
      if s.calls[q].HoldsUser() { assert UserLocked(s, s.calls[q].token.user); }
      PcOkKept(s.db, t.db, s.calls[q]);
    }
    forall i ensures EntryOk(t, i) { assert EntryOk(s, i); }
    forall p ensures DoneOk(t, p) { assert DoneOk(s, p); }
  }

  lemma InvBegin(s: Sys, pid: Id, pc: Pc)
    requires Inv(s) && pid !in s.calls && pc.Entry()
    ensures Inv(s.(calls := s.calls[pid := pc]))
  {
    var t := s.(calls := s.calls[pid := pc]);
    forall q | q in t.calls ensures PcOk(t.db, t.calls[q]) {
      if q != pid { assert PcOk(s.db, s.calls[q]); }
    }
    forall u ensures UserOk(t, u) { assert UserOk(s, u); }
    forall i ensures EntryOk(t, i) { assert EntryOk(s, i); }
    forall p ensures DoneOk(t, p) { assert DoneOk(s, p); }
  }

  /** No commit names a user that does not exist. */
  lemma NewUserIsUnlogged(s: Sys, n: nat, user: Id, initial: Option<Hash>)
    requires Inv(s) && user !in s.db.users && n <= |s.log|
    ensures ResetsOf(s.log[..n], user) == 0 && PasswordOf(s.log[..n], user, initial) == initial
    ensures !VerifiedIn(s.log[..n], user)
    decreases n
  {
    if n > 0 {
      assert EntryOk(s, n - 1);
      assert s.log[..n][..n - 1] == s.log[..n - 1];
      NewUserIsUnlogged(s, n - 1, user, initial);
    }
    forall i | 0 <= i < n ensures s.log[..n][i].user != user {
      assert EntryOk(s, i);
    }
  }

  lemma InvAddUser(s: Sys, user: Id, row: User)
    requires Inv(s) && user !in s.db.users
    ensures Inv(Step(s, AddUser(user, row)))
  {
    var t := Step(s, AddUser(user, row));
    assert s.log[..|s.log|] == s.log;
    NewUserIsUnlogged(s, |s.log|, user, row.password);
    forall u ensures UserOk(t, u) {
      assert UserOk(s, u);
    }
    InvUsers(s, t);
  }

  lemma InvUpdateUser(s: Sys, a: Action)
    requires Inv(s) && (a.LogoutAll? || a.SetUser?)
    ensures Inv(Step(s, a))
  {
    var t := Step(s, a);
    forall u ensures UserOk(t, u) {
      assert UserOk(s, u);
    }
    InvUsers(s, t);
  }

  lemma InvStep(s: Sys, a: Action)
    requires Inv(s)
    ensures Inv(Step(s, a))
  {
    match a
    case Begin(pid, pc) => if pid !in s.calls && pc.Entry() { InvBegin(s, pid, pc); }
    case Next(pid, e) => InvNext(s, pid, e);
    case AddUser(user, row) => if user !in s.db.users { InvAddUser(s, user, row); }
    case _ => InvUpdateUser(s, a);
  }

  lemma {:induction false} InvRun(s: Sys, acts: seq<Action>)
    requires Inv(s)
    ensures Inv(Run(s, acts))
    decreases |acts|
  {
    if acts != [] {
      InvStep(s, acts[0]);
      InvRun(Step(s, acts[0]), acts[1..]);
    }
  }

  lemma ReachableInv(s: Sys)
    requires Reachable(s)
    ensures Inv(s)
  {
    var acts :| s == Run(START, acts);
    InvRun(START, acts);
  }
}
