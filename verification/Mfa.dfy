/**
 TOTP enrolment as interleaved requests: a guarded enable, an unguarded clear, and backup codes
 stored only as hashes.
 */
module Mfa {
  import opened Common

  type Id = nat
  type Secret = nat
  type Buffer = seq<bv8>

  const BACKUP_CODES := 10

  /** SHA-256, the TOTP check (length, skew and HMAC) and base32, uninterpreted. */
  datatype Crypto = Crypto(hash: string -> string, totp: (string, Secret, int) -> bool, base32: Buffer -> string)

  /** No two different codes hash alike. */
  ghost predicate Injective(k: Crypto) {
    forall a, b :: k.hash(a) == k.hash(b) ==> a == b
  }

  function Hashes(k: Crypto, raw: seq<string>): seq<string> {
    seq(|raw|, i requires 0 <= i < |raw| => k.hash(raw[i]))
  }

  function Codes(k: Crypto, entropy: nat -> Buffer, n: nat): seq<string> {
    seq(n, (i: nat) => k.base32(entropy(i)))
  }

  datatype User = User(deleted: bool, enabled: bool, secret: Option<Secret>, codes: Option<seq<string>>,
    enrolledAt: Option<int>)

  type Users = map<Id, User>

  predicate Visible(us: Users, u: Id) {
    u in us && !us[u].deleted
  }

  /** The backup-code branch of Disable. */
  predicate Matches(k: Crypto, stored: Option<seq<string>>, code: string) {
    stored.Some? && code != "" && k.hash(code) in stored.value
  }

  // ---------------------------------------------------------------- requests

  datatype Error = NotFound | AlreadyEnabled | NotEnrolled | InvalidCode | StoreError

  datatype Outcome = Enrolled(secret: Secret) | Confirmed(raw: seq<string>) | Disabled | Failed(error: Error)

  datatype Pc =
    | Enrolling(user: Id)                            // SELECT the user
    | Storing(user: Id, secret: Secret)              // UPDATE the pending secret
    | Confirming(user: Id, code: string)             // SELECT the user, check the code
    | Enabling(user: Id, raw: seq<string>)           // the UPDATE guarded by mfa_enabled = false
    | Disabling(user: Id, code: string)              // SELECT the user, check the code
    | Clearing(user: Id)                             // UPDATE that clears every MFA column
    | Finished(out: Outcome)
  {
    predicate Entry() {
      Enrolling? || Confirming? || Disabling?
    }
  }

  datatype Env = Env(now: int, secret: Secret, entropy: nat -> Buffer, fault: Fault)

  function Enabled(k: Crypto, u: User, raw: seq<string>, now: int): User {
    u.(enabled := true, codes := Some(Hashes(k, raw)), enrolledAt := Some(now))
  }

  function Cleared(u: User): User {
    u.(enabled := false, secret := None, codes := None, enrolledAt := None)
  }

  function Answer(e: Env, out: Outcome): Pc {
    Finished(if e.fault.NoFault? then out else Failed(StoreError))
  }

  /** One statement and the local checks after it. */
  function Exec(k: Crypto, us: Users, c: Pc, e: Env): (Users, Pc) {
    if c.Finished? then (us, c)
    else if e.fault.NotApplied? || (c.Entry() && !e.fault.NoFault?) then (us, Finished(Failed(StoreError)))
    else if !Visible(us, c.user) then (us, Answer(e, Failed(NotFound)))
    else
      var u := us[c.user];
      match c
      case Enrolling(user) =>
        (us, if u.enabled then Finished(Failed(AlreadyEnabled)) else Storing(user, e.secret))
      case Storing(user, secret) => (us[user := u.(secret := Some(secret))], Answer(e, Enrolled(secret)))
      case Confirming(user, code) =>
        (us, if u.enabled then Finished(Failed(AlreadyEnabled))
             else if u.secret.None? then Finished(Failed(NotEnrolled))
             else if !k.totp(code, u.secret.value, e.now) then Finished(Failed(InvalidCode))
             else Enabling(user, Codes(k, e.entropy, BACKUP_CODES)))
      case Enabling(user, raw) =>
        if u.enabled then (us, Answer(e, Failed(AlreadyEnabled)))
        else (us[user := Enabled(k, u, raw, e.now)], Answer(e, Confirmed(raw)))
      case Disabling(user, code) =>
        (us, if !u.enabled || u.secret.None? then Finished(Failed(NotEnrolled))
             else if !k.totp(code, u.secret.value, e.now) && !Matches(k, u.codes, code)
             then Finished(Failed(InvalidCode))
             else Clearing(user))
      case Clearing(user) => (us[user := Cleared(u)], Answer(e, Disabled))
  }

  // ---------------------------------------------------------------- the whole system

  /** What happened to a user's MFA: a Confirm won the guarded UPDATE, or a Disable cleared it. */
  datatype Event = Won(user: Id, pid: Id, raw: seq<string>) | Wiped(user: Id)

  /** `events` is history. */
  datatype Sys = Sys(users: Users, calls: map<Id, Pc>, events: seq<Event>)

  datatype Action =
    | Begin(pid: Id, pc: Pc)
    | Next(pid: Id, env: Env)
    | AddUser(user: Id)
    | DeleteUser(user: Id)

  predicate Applies(us: Users, c: Pc, e: Env) {
    !c.Finished? && !e.fault.NotApplied? && Visible(us, c.user)
  }

  function Events(us: Users, pid: Id, c: Pc, e: Env): seq<Event> {
    if c.Enabling? && Applies(us, c, e) && !us[c.user].enabled then [Won(c.user, pid, c.raw)]
    else if c.Clearing? && Applies(us, c, e) then [Wiped(c.user)]
    else []
  }

  function Step(k: Crypto, s: Sys, a: Action): Sys {
    match a
    case Begin(pid, pc) => if pid in s.calls || !pc.Entry() then s else s.(calls := s.calls[pid := pc])
    case Next(pid, e) =>
      if pid !in s.calls then s
      else
        var (users, c) := Exec(k, s.users, s.calls[pid], e);
        Sys(users, s.calls[pid := c], s.events + Events(s.users, pid, s.calls[pid], e))
    case AddUser(user) =>
      if user in s.users then s else s.(users := s.users[user := User(false, false, None, None, None)])
    case DeleteUser(user) =>
      if user !in s.users then s else s.(users := s.users[user := s.users[user].(deleted := true)])
  }

  function Run(k: Crypto, s: Sys, acts: seq<Action>): Sys
    decreases |acts|
  {
    if acts == [] then s else Run(k, Step(k, s, acts[0]), acts[1..])
  }

  const START := Sys(map[], map[], [])

  ghost predicate Reachable(k: Crypto, s: Sys) {
    exists acts :: s == Run(k, START, acts)
  }

  // ---------------------------------------------------------------- invariants

  /** The codes of the last Confirm that won for `u`, unless a Disable has wiped them since. */
  function Standing(events: seq<Event>, u: Id): Option<seq<string>> {
    if events == [] then None
    else
      var last := events[|events| - 1];
      if last.user != u then Standing(events[..|events| - 1], u)
      else if last.Won? then Some(last.raw) else None
  }

  /** Between two wins for one user lies a wipe. */
  ghost predicate Separated(events: seq<Event>) {
    forall i, j :: 0 <= i < j < |events| && events[i].Won? && events[j].Won? && events[i].user == events[j].user ==>
      WipedBetween(events, i, j, events[i].user)
  }

  predicate WipedBetween(events: seq<Event>, i: int, j: int, u: Id) {
    exists m :: i < m < j && 0 <= m < |events| && events[m] == Wiped(u)
  }

  ghost predicate UserOk(k: Crypto, s: Sys, u: Id) {
    if u !in s.users then forall i :: 0 <= i < |s.events| ==> s.events[i].user != u
    else
      var (r, standing) := (s.users[u], Standing(s.events, u));
      && (r.enabled <==> standing.Some?)
      && (r.enrolledAt.Some? <==> standing.Some?)
      && r.codes == if standing.Some? then Some(Hashes(k, standing.value)) else None
  }

  ghost predicate WinOk(s: Sys, i: int) {
    0 <= i < |s.events| && s.events[i].Won? ==>
      && s.events[i].pid in s.calls
      && (s.calls[s.events[i].pid] == Finished(Confirmed(s.events[i].raw))
          || s.calls[s.events[i].pid] == Finished(Failed(StoreError)))
  }

  /** A request wins at most once. */
  ghost predicate OneWinEach(events: seq<Event>) {
    forall i, j :: 0 <= i < j < |events| && events[i].Won? && events[j].Won? ==> events[i].pid != events[j].pid
  }

  ghost predicate CallOk(s: Sys, p: Id) {
    p in s.calls && s.calls[p].Finished? && s.calls[p].out.Confirmed? ==>
      exists i :: 0 <= i < |s.events| && s.events[i].Won? && s.events[i].pid == p
                  && s.events[i].raw == s.calls[p].out.raw
  }

  ghost predicate Inv(k: Crypto, s: Sys) {
    && (forall u :: UserOk(k, s, u))
    && Separated(s.events)
    && OneWinEach(s.events)
    && (forall i :: WinOk(s, i))
    && (forall p :: CallOk(s, p))
  }

  lemma StandingAppend(events: seq<Event>, x: Event, u: Id)
    ensures Standing(events + [x], u) ==
      if x.user != u then Standing(events, u) else if x.Won? then Some(x.raw) else None
  {
    assert (events + [x])[..|events|] == events;
  }

  /** Nothing stands after the i-th event only because a wipe came later. */
  lemma {:induction false} FallenMeansWiped(events: seq<Event>, u: Id, i: nat)
    requires Standing(events, u).None? && i < |events| && events[i].Won? && events[i].user == u
    ensures WipedBetween(events, i, |events|, u)
    decreases |events|
  {
    var n := |events| - 1;
    if events[n].user != u {
      FallenMeansWiped(events[..n], u, i);
      var m :| i < m < n && events[..n][m] == Wiped(u);
      assert events[m] == Wiped(u);
    } else {
      assert events[n] == Wiped(u);
    }
  }

  lemma SeparatedAppend(events: seq<Event>, x: Event)
    requires Separated(events) && (x.Won? ==> Standing(events, x.user).None?)
    ensures Separated(events + [x])
  {
    var all := events + [x];
    forall i, j | 0 <= i < j < |all| && all[i].Won? && all[j].Won? && all[i].user == all[j].user
      ensures WipedBetween(all, i, j, all[i].user)
    {
      if j == |events| { FallenMeansWiped(events, x.user, i); }
      assert WipedBetween(events, i, j, all[i].user);
      var m :| i < m < j && 0 <= m < |events| && events[m] == Wiped(all[i].user);
      assert all[m] == events[m];
    }
  }

  /** A statement without an event leaves the columns an event sets. */
  lemma QuietExec(k: Crypto, us: Users, pid: Id, c: Pc, e: Env)
    requires Events(us, pid, c, e) == []
    ensures var (after, d) := Exec(k, us, c, e);
      && after.Keys == us.Keys
      && (forall u :: u in us ==> after[u] == us[u].(secret := after[u].secret))
      && (d == c || !(d.Finished? && d.out.Confirmed?))
      && (c.Finished? ==> d == c)
  {
  }

  lemma InvQuiet(k: Crypto, s: Sys, pid: Id, e: Env)
    requires Inv(k, s) && pid in s.calls && Events(s.users, pid, s.calls[pid], e) == []
    ensures Inv(k, Step(k, s, Next(pid, e)))
  {
    var t := Step(k, s, Next(pid, e));
    QuietExec(k, s.users, pid, s.calls[pid], e);
    assert t.events == s.events;
    forall u ensures UserOk(k, t, u) { assert UserOk(k, s, u); }
    forall i ensures WinOk(t, i) { assert WinOk(s, i); }
    forall p ensures CallOk(t, p) { assert CallOk(s, p); }
  }

  /** A request that wins now has not finished, so it has not won before. */
  lemma OneWinAppend(s: Sys, pid: Id, x: Event)
    requires OneWinEach(s.events) && (forall i :: WinOk(s, i))
    requires pid in s.calls && !s.calls[pid].Finished? && (x.Won? ==> x.pid == pid)
    ensures OneWinEach(s.events + [x])
  {
    var all := s.events + [x];
    forall i, j | 0 <= i < j < |all| && all[i].Won? && all[j].Won? ensures all[i].pid != all[j].pid {
      assert WinOk(s, i) && all[i] == s.events[i];
    }
  }

  lemma EventCalls(s: Sys, pid: Id, users: Users, d: Pc, x: Event)
    requires (forall i :: WinOk(s, i)) && (forall p :: CallOk(s, p))
    requires pid in s.calls && !s.calls[pid].Finished?
    requires x.Won? ==> x.pid == pid && (d == Finished(Confirmed(x.raw)) || d == Finished(Failed(StoreError)))
    requires d.Finished? && d.out.Confirmed? ==> x.Won? && x.raw == d.out.raw
    ensures var t := Sys(users, s.calls[pid := d], s.events + [x]);
      (forall i :: WinOk(t, i)) && (forall p :: CallOk(t, p))
  {
    var t := Sys(users, s.calls[pid := d], s.events + [x]);
    forall i ensures WinOk(t, i) { assert WinOk(s, i); }
    forall p ensures CallOk(t, p) {
      assert CallOk(s, p);
      if p == pid {
        assert t.events[|s.events|] == x;
      } else if p in s.calls && s.calls[p].Finished? && s.calls[p].out.Confirmed? {
        var i :| 0 <= i < |s.events| && s.events[i].Won? && s.events[i].pid == p
                 && s.events[i].raw == s.calls[p].out.raw;
        assert t.events[i] == s.events[i];
      }
    }
  }

  /** A winning Confirm or a Disable's wipe. */
  lemma InvEvent(k: Crypto, s: Sys, pid: Id, e: Env)
    requires Inv(k, s) && pid in s.calls && Events(s.users, pid, s.calls[pid], e) != []
    ensures Inv(k, Step(k, s, Next(pid, e)))
  {
    var c, t := s.calls[pid], Step(k, s, Next(pid, e));
    var x := Events(s.users, pid, c, e)[0];
    assert t.events == s.events + [x];
    assert UserOk(k, s, c.user);
    SeparatedAppend(s.events, x);
    OneWinAppend(s, pid, x);
    EventCalls(s, pid, t.users, t.calls[pid], x);
    forall u ensures UserOk(k, t, u) {
      assert UserOk(k, s, u);
      StandingAppend(s.events, x, u);
    }
  }

  lemma {:induction false} NothingStands(events: seq<Event>, u: Id)
    requires forall i :: 0 <= i < |events| ==> events[i].user != u
    ensures Standing(events, u).None?
    decreases |events|
  {
    if events != [] { NothingStands(events[..|events| - 1], u); }
  }

  lemma InvStep(k: Crypto, s: Sys, a: Action)
    requires Inv(k, s)
    ensures Inv(k, Step(k, s, a))
  {
    var t := Step(k, s, a);
    if a.Next? && a.pid in s.calls {
      if Events(s.users, a.pid, s.calls[a.pid], a.env) == [] {
        InvQuiet(k, s, a.pid, a.env);
      } else {
        InvEvent(k, s, a.pid, a.env);
      }
    } else {
      forall u ensures UserOk(k, t, u) {
        assert UserOk(k, s, u);
        if u !in s.users { NothingStands(s.events, u); }
      }
      forall i ensures WinOk(t, i) { assert WinOk(s, i); }
      forall p ensures CallOk(t, p) { assert CallOk(s, p); }
    }
  }

  lemma {:induction false} InvRun(k: Crypto, s: Sys, acts: seq<Action>)
    requires Inv(k, s)
    ensures Inv(k, Run(k, s, acts))
    decreases |acts|
  {
    if acts != [] {
      InvStep(k, s, acts[0]);
      InvRun(k, Step(k, s, acts[0]), acts[1..]);
    }
  }

  lemma ReachableInv(k: Crypto, s: Sys)
    requires Reachable(k, s)
    ensures Inv(k, s)
  {
    var acts :| s == Run(k, START, acts);
    InvRun(k, START, acts);
  }
}
