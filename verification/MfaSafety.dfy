/** What holds of MFA in every reachable state, and the imperative service. */
module MfaSafety {
  import opened Common
  import opened Mfa

  /** Enabled, backup codes and enrolled_at go together; the codes are the last winning Confirm's. */
  lemma ColumnsAgree(k: Crypto, s: Sys, u: Id)
    requires Reachable(k, s) && u in s.users
    ensures s.users[u].enabled <==> s.users[u].codes.Some?
    ensures s.users[u].enabled <==> s.users[u].enrolledAt.Some?
    ensures s.users[u].enabled <==> Standing(s.events, u).Some?
    ensures s.users[u].enabled ==> s.users[u].codes == Some(Hashes(k, Standing(s.events, u).value))
  {
    ReachableInv(k, s);
    assert UserOk(k, s, u);
  }

  /** Of two Confirms that win for one user, a Disable took effect in between. */
  lemma WinsAreSeparated(k: Crypto, s: Sys, i: nat, j: nat)
    requires Reachable(k, s) && i < j < |s.events|
    requires s.events[i].Won? && s.events[j].Won? && s.events[i].user == s.events[j].user
    ensures exists m :: i < m < j && s.events[m] == Wiped(s.events[i].user)
  {
    ReachableInv(k, s);
    assert WipedBetween(s.events, i, j, s.events[i].user);
  }

  /** The last event of a user that decides what stands. */
  predicate LastOf(events: seq<Event>, u: Id, i: int) {
    0 <= i < |events| && events[i].user == u && forall j :: i < j < |events| ==> events[j].user != u
  }

  lemma {:induction false} StandingIsLast(events: seq<Event>, u: Id) returns (i: nat)
    requires Standing(events, u).Some?
    ensures LastOf(events, u, i) && events[i].Won? && events[i].raw == Standing(events, u).value
    decreases |events|
  {
    var n := |events| - 1;
    if events[n].user == u {
      i := n;
    } else {
      i := StandingIsLast(events[..n], u);
    }
  }

  /**
   The backup-code loop accepts a code exactly when it is one of those minted by the user's last
   winning Confirm, with no Disable since; only that Confirm can have returned them.
   */
  lemma AcceptedExactlyIfMinted(k: Crypto, s: Sys, u: Id, code: string)
    requires Reachable(k, s) && Injective(k) && u in s.users && code != ""
    ensures Matches(k, s.users[u].codes, code) <==>
      exists i :: LastOf(s.events, u, i) && s.events[i].Won? && code in s.events[i].raw
    ensures forall i :: LastOf(s.events, u, i) && s.events[i].Won? ==>
      && s.events[i].pid in s.calls
      && (s.calls[s.events[i].pid] == Finished(Confirmed(s.events[i].raw))
          || s.calls[s.events[i].pid] == Finished(Failed(StoreError)))
  {
    ReachableInv(k, s);
    assert UserOk(k, s, u);
    forall i | LastOf(s.events, u, i) && s.events[i].Won? ensures WinOk(s, i) {
    }
    if Standing(s.events, u).Some? {
      var n := StandingIsLast(s.events, u);
      HashedIn(k, Standing(s.events, u).value, code);
    } else {
      forall i | LastOf(s.events, u, i) ensures !s.events[i].Won? {
        LastDecides(s.events, u, i);
      }
    }
  }

  lemma {:induction false} LastDecides(events: seq<Event>, u: Id, i: nat)
    requires LastOf(events, u, i)
    ensures Standing(events, u).Some? <==> events[i].Won?
    decreases |events|
  {
    if i < |events| - 1 { LastDecides(events[..|events| - 1], u, i); }
  }

  lemma HashedIn(k: Crypto, raw: seq<string>, code: string)
    requires Injective(k)
    ensures k.hash(code) in Hashes(k, raw) <==> code in raw
  {
    if code in raw {
      var i :| 0 <= i < |raw| && raw[i] == code;
      assert Hashes(k, raw)[i] == k.hash(code);
    }
    if k.hash(code) in Hashes(k, raw) {
      var i :| 0 <= i < |raw| && Hashes(k, raw)[i] == k.hash(code);
      assert raw[i] == code;
    }
  }

  /** Codes are handed out only by a Confirm that won, and each request won at most once. */
  lemma OnlyWinnersReturnCodes(k: Crypto, s: Sys, p: Id) returns (i: nat)
    requires Reachable(k, s) && p in s.calls && s.calls[p].Finished? && s.calls[p].out.Confirmed?
    ensures i < |s.events| && s.events[i].Won? && s.events[i].pid == p && s.events[i].raw == s.calls[p].out.raw
    ensures forall j :: 0 <= j < |s.events| && s.events[j].Won? && s.events[j].pid == p ==> j == i
  {
    ReachableInv(k, s);
    assert CallOk(s, p);
    i :| 0 <= i < |s.events| && s.events[i].Won? && s.events[i].pid == p && s.events[i].raw == s.calls[p].out.raw;
  }

  // ---------------------------------------------------------------- the secret

  /** MFA is on and there is no secret to check codes against. */
  predicate Stranded(us: Users, u: Id) {
    u in us && us[u].enabled && us[u].secret.None?
  }

  /** The guarded enable takes effect for a user whose secret is gone by then. */
  predicate EnablesBlind(s: Sys, a: Action, u: Id) {
    && a.Next? && a.pid in s.calls && s.calls[a.pid].Enabling? && s.calls[a.pid].user == u
    && Applies(s.users, s.calls[a.pid], a.env) && !s.users[u].enabled && s.users[u].secret.None?
  }

  lemma StrandedStep(k: Crypto, s: Sys, a: Action, u: Id)
    requires !Stranded(s.users, u)
    ensures Stranded(Step(k, s, a).users, u) <==> EnablesBlind(s, a, u)
  {
  }

  /** The state a run has reached before its i-th action. */
  function At(k: Crypto, s: Sys, acts: seq<Action>, i: nat): Sys
    requires i <= |acts|
  {
    Run(k, s, acts[..i])
  }

  lemma AtNext(k: Crypto, s: Sys, acts: seq<Action>, i: nat)
    requires i < |acts|
    ensures At(k, s, acts, i + 1) == Step(k, At(k, s, acts, i), acts[i])
  {
    assert acts[..i + 1] == acts[..i] + [acts[i]];
    RunConcat(k, s, acts[..i], [acts[i]]);
    assert [acts[i]][1..] == [];
  }

  lemma {:induction false} FirstStranding(k: Crypto, s: Sys, acts: seq<Action>, u: Id, n: nat) returns (i: nat)
    requires !Stranded(s.users, u) && n <= |acts| && Stranded(At(k, s, acts, n).users, u)
    ensures i < n && EnablesBlind(At(k, s, acts, i), acts[i], u)
    decreases n
  {
    assert acts[..0] == [];
    AtNext(k, s, acts, n - 1);
    if Stranded(At(k, s, acts, n - 1).users, u) {
      i := FirstStranding(k, s, acts, u, n - 1);
    } else {
      i := n - 1;
      StrandedStep(k, At(k, s, acts, i), acts[i], u);
    }
  }

  /**
   "Enabled implies a secret" fails somewhere in a run exactly when the run enables MFA for a user
   whose pending secret has been cleared by then: the guard of EnableMFA does not ask for one.
   */
  lemma EnabledWithoutSecretIff(k: Crypto, s: Sys, acts: seq<Action>, u: Id)
    requires !Stranded(s.users, u)
    ensures (exists n :: 0 <= n <= |acts| && Stranded(At(k, s, acts, n).users, u)) <==>
            (exists i :: 0 <= i < |acts| && EnablesBlind(At(k, s, acts, i), acts[i], u))
  {
    if n :| 0 <= n <= |acts| && Stranded(At(k, s, acts, n).users, u) {
      var i := FirstStranding(k, s, acts, u, n);
    }
    if i :| 0 <= i < |acts| && EnablesBlind(At(k, s, acts, i), acts[i], u) {
      AtNext(k, s, acts, i);
      assert Stranded(At(k, s, acts, i + 1).users, u);
    }
  }

  /**
   One way there: a Confirm past its check that runs after another Confirm and a Disable enables MFA
   with the secret already cleared.
   */
  lemma EnabledWithoutSecret(k: Crypto, s: Sys, user: Id, p: Id, r: Id, e: Env)
    requires p != r && p in s.calls && r in s.calls && e.fault.NoFault? && Visible(s.users, user)
    requires s.calls[p].Enabling? && s.calls[p].user == user && s.calls[r] == Clearing(user)
    ensures var t := Step(k, Step(k, s, Next(r, e)), Next(p, e));
      t.users[user].enabled && t.users[user].secret.None? && t.calls[p] == Finished(Confirmed(s.calls[p].raw))
  {
  }

  lemma ReachableStep(k: Crypto, s: Sys, a: Action)
    requires Reachable(k, s)
    ensures Reachable(k, Step(k, s, a))
  {
    var acts :| s == Run(k, START, acts);
    RunConcat(k, START, acts, [a]);
    assert [a][1..] == [];
    assert Step(k, s, a) == Run(k, START, acts + [a]);
  }

  lemma {:induction false} RunConcat(k: Crypto, s: Sys, a: seq<Action>, b: seq<Action>)
    ensures Run(k, s, a + b) == Run(k, Run(k, s, a), b)
    decreases |a|
  {
    if a == [] {
      assert a + b == b;
    } else {
      assert (a + b)[1..] == a[1..] + b;
      RunConcat(k, Step(k, s, a[0]), a[1..], b);
    }
  }

  lemma Then(k: Crypto, s: Sys, a: Action) returns (t: Sys)
    requires Reachable(k, s)
    ensures t == Step(k, s, a) && Reachable(k, t)
  {
    t := Step(k, s, a);
    ReachableStep(k, s, a);
  }

  /** A request arrives and runs its first statement. */
  lemma Arrive(k: Crypto, s: Sys, pid: Id, pc: Pc, e: Env) returns (t: Sys)
    requires Reachable(k, s) && pid !in s.calls && pc.Entry()
    ensures Reachable(k, t) && t.users == Exec(k, s.users, pc, e).0
    ensures t.calls == s.calls[pid := Exec(k, s.users, pc, e).1]
  {
    t := Then(k, s, Begin(pid, pc));
    t := Then(k, t, Next(pid, e));
  }

  lemma EnrolFirst(k: Crypto, e: Env) returns (t: Sys)
    requires e.fault.NoFault?
    ensures Reachable(k, t) && t.calls == map[0 := Finished(Enrolled(e.secret))]
    ensures t.users == map[0 := User(false, false, Some(e.secret), None, None)]
  {
    assert START == Run(k, START, []);
    t := Then(k, START, AddUser(0));
    t := Arrive(k, t, 0, Enrolling(0), e);
    t := Then(k, t, Next(0, e));
  }

  /** Two Confirms pass their check; one of them wins. */
  lemma ConfirmTwice(k: Crypto, code: string, e: Env) returns (t: Sys)
    requires e.fault.NoFault? && k.totp(code, e.secret, e.now)
    ensures Reachable(k, t) && t.calls.Keys == {0, 1, 2} && t.calls[1].Enabling? && t.calls[1].user == 0
    ensures Visible(t.users, 0) && t.users[0].enabled && t.users[0].secret == Some(e.secret)
  {
    t := EnrolFirst(k, e);
    t := Arrive(k, t, 1, Confirming(0, code), e);
    t := Arrive(k, t, 2, Confirming(0, code), e);
    t := Then(k, t, Next(2, e));
  }

  /** One code the check accepts for the secret is enough to reach such a state. */
  lemma EnabledWithoutSecretIsReachable(k: Crypto, code: string, e: Env) returns (t: Sys)
    requires e.fault.NoFault? && k.totp(code, e.secret, e.now)
    ensures Reachable(k, t) && 0 in t.users && t.users[0].enabled && t.users[0].secret.None?
  {
    t := ConfirmTwice(k, code, e);
    t := Arrive(k, t, 3, Disabling(0, code), e);
    EnabledWithoutSecret(k, t, 0, 1, 3, e);
    t := Then(k, t, Next(3, e));
    t := Then(k, t, Next(1, e));
  }

  /** The user stays enabled and the secret that codes are checked against changes. */
  predicate SwapsSecret(us: Users, after: Users, u: Id) {
    u in us && u in after && us[u].enabled && after[u].enabled && us[u].secret != after[u].secret
  }

  /** An enrolment's UPDATE takes effect on an enabled user; it carries no guard against that. */
  predicate EnrolsOver(s: Sys, a: Action, u: Id) {
    && a.Next? && a.pid in s.calls && s.calls[a.pid].Storing? && s.calls[a.pid].user == u
    && Applies(s.users, s.calls[a.pid], a.env) && s.users[u].enabled && s.users[u].secret != Some(s.calls[a.pid].secret)
  }

  /** An active secret is replaced exactly by an enrolment whose check preceded the enable. */
  lemma ActiveSecretSwapIff(k: Crypto, s: Sys, a: Action, u: Id)
    ensures SwapsSecret(s.users, Step(k, s, a).users, u) <==> EnrolsOver(s, a, u)
  {
  }

  /** Any secret at all, also one that no Confirm ever checked, can become active. */
  lemma UncheckedSecretIsReachable(k: Crypto, code: string, e: Env, other: Secret) returns (t: Sys)
    requires e.fault.NoFault? && k.totp(code, e.secret, e.now)
    ensures Reachable(k, t) && 0 in t.users && t.users[0].enabled && t.users[0].secret == Some(other)
    ensures forall p :: p in t.calls && t.calls[p].Finished? && t.calls[p].out.Confirmed? ==> p == 2
  {
    t := EnrolFirst(k, e);
    t := Arrive(k, t, 1, Enrolling(0), e.(secret := other));
    assert t.calls[1] == Storing(0, other);
    t := Arrive(k, t, 2, Confirming(0, code), e);
    t := Then(k, t, Next(2, e));
    assert t.users[0].enabled && t.calls[1] == Storing(0, other);
    t := Then(k, t, Next(1, e));
  }

  // ---------------------------------------------------------------- whole requests

  /** A request run without interruption. */
  function Alone(k: Crypto, us: Users, c: Pc, e: Env): (Users, Pc) {
    var p := Exec(k, us, c, e);
    Exec(k, p.0, p.1, e)
  }

  ghost predicate SecretsPresent(us: Users) {
    forall u :: u in us && us[u].enabled ==> us[u].secret.Some?
  }

  /** Request by request, an enabled user always has a secret. */
  lemma AloneKeepsSecrets(k: Crypto, us: Users, c: Pc, e: Env)
    requires c.Entry() && SecretsPresent(us)
    ensures SecretsPresent(Alone(k, us, c, e).0)
  {
  }

  class MfaService {
    const k: Crypto
    var users: Users

    constructor (k: Crypto)
      ensures this.k == k && users == map[]
    {
      this.k := k;
      users := map[];
    }

    method GetByID(user: Id) returns (u: Option<User>)
      ensures u == if user in users && !users[user].deleted then Some(users[user]) else None
    {
      if user in users && !users[user].deleted { u := Some(users[user]); } else { u := None; }
    }

    method SetPendingTOTPSecret(user: Id, secret: Secret) returns (ok: bool)
      modifies this`users
      ensures ok <==> user in old(users) && !old(users)[user].deleted
      ensures users == if ok then old(users)[user := old(users)[user].(secret := Some(secret))] else old(users)
    {
      ok := user in users && !users[user].deleted;
      if ok { users := users[user := users[user].(secret := Some(secret))]; }
    }

    method EnableMFA(user: Id, codes: seq<string>, now: int) returns (err: Option<Error>)
      modifies this`users
      ensures err == if user !in old(users) || old(users)[user].deleted then Some(NotFound)
                     else if old(users)[user].enabled then Some(AlreadyEnabled) else None
      ensures users == if err.Some? then old(users) else
        old(users)[user := old(users)[user].(enabled := true, codes := Some(codes), enrolledAt := Some(now))]
    {
      var existed, updated := 0, 0;
      if user in users && !users[user].deleted {
        existed := 1;
        if !users[user].enabled {
          users := users[user := users[user].(enabled := true, codes := Some(codes), enrolledAt := Some(now))];
          updated := 1;
        }
      }
      err := if existed == 0 then Some(NotFound) else if updated == 0 then Some(AlreadyEnabled) else None;
    }

    method DisableMFA(user: Id) returns (ok: bool)
      modifies this`users
      ensures ok <==> user in old(users) && !old(users)[user].deleted
      ensures users == if ok then old(users)[user := User(false, false, None, None, None)] else old(users)
    {
      ok := user in users && !users[user].deleted;
      if ok {
        var u := users[user].(enabled := false, secret := None, codes := None, enrolledAt := None);
        users := users[user := u];
      }
    }

    /** Mints the codes and the hashes that are stored in their place. */
    method GenerateBackupCodes(entropy: nat -> Buffer) returns (raw: seq<string>, hashes: seq<string>)
      ensures raw == Codes(k, entropy, BACKUP_CODES) && hashes == Hashes(k, raw)
      ensures |raw| == |hashes| == 10 && forall i :: 0 <= i < |raw| ==>
        raw[i] == k.base32(entropy(i)) && hashes[i] == k.hash(raw[i])
    {
      raw, hashes := [], [];
      for n := 0 to BACKUP_CODES
        invariant raw == Codes(k, entropy, n)
        invariant hashes == Hashes(k, raw)
      {
        var code := k.base32(entropy(n));
        raw, hashes := raw + [code], hashes + [k.hash(code)];
      }
    }

    /** Compares every stored hash, without an early exit. */
    method MatchBackupCode(stored: Option<seq<string>>, code: string) returns (matched: bool)
      ensures matched <==> Matches(k, stored, code)
      ensures matched <==>
        stored != None && code != "" && exists i :: 0 <= i < |stored.value| && stored.value[i] == k.hash(code)
    {
      matched := false;
      if stored.None? || code == "" { return; }
      var want := k.hash(code);
      for i := 0 to |stored.value|
        invariant matched <==> want in stored.value[..i]
      {
        if stored.value[i] == want { matched := true; }
      }
      assert stored.value[..|stored.value|] == stored.value;
    }

    method Enroll(user: Id, e: Env) returns (out: Outcome)
      requires e.fault.NoFault?
      modifies this`users
      ensures (users, Finished(out)) == Alone(k, old(users), Enrolling(user), e)
      ensures out.Enrolled? ==> user in users && !users[user].enabled && users[user].secret == Some(out.secret)
      ensures out == if user !in old(users) || old(users)[user].deleted then Failed(NotFound)
                     else if old(users)[user].enabled then Failed(AlreadyEnabled) else Enrolled(e.secret)
      ensures users == if out.Enrolled?
        then old(users)[user := old(users)[user].(secret := Some(e.secret))] else old(users)
    {
      var u := GetByID(user);
      if u.None? { return Failed(NotFound); }
      if u.value.enabled { return Failed(AlreadyEnabled); }
      var ok := SetPendingTOTPSecret(user, e.secret);
      out := if ok then Enrolled(e.secret) else Failed(NotFound);
    }

    method Confirm(user: Id, code: string, e: Env) returns (out: Outcome)
      requires e.fault.NoFault?
      modifies this`users
      ensures (users, Finished(out)) == Alone(k, old(users), Confirming(user, code), e)
      ensures out.Confirmed? <==>
        && Visible(old(users), user) && !old(users)[user].enabled && old(users)[user].secret.Some?
        && k.totp(code, old(users)[user].secret.value, e.now)
      ensures out.Confirmed? ==>
        && |out.raw| == BACKUP_CODES && user in users && users[user].enabled
        && users[user].codes == Some(Hashes(k, out.raw))
      ensures !out.Confirmed? ==>
        out == Failed(if user !in old(users) || old(users)[user].deleted then NotFound
                      else if old(users)[user].enabled then AlreadyEnabled
                      else if old(users)[user].secret == None then NotEnrolled else InvalidCode)
      ensures out.Confirmed? ==> user in old(users) && !old(users)[user].deleted
      ensures out.Confirmed? ==>
        && |out.raw| == 10 && users[user].codes.Some? && |users[user].codes.value| == 10
        && (forall i :: 0 <= i < 10 ==> out.raw[i] == k.base32(e.entropy(i)))
        && (forall i :: 0 <= i < 10 ==> users[user].codes.value[i] == k.hash(out.raw[i]))
        && users == old(users)[user :=
             old(users)[user].(enabled := true, codes := users[user].codes, enrolledAt := Some(e.now))]
      ensures !out.Confirmed? ==> users == old(users)
    {
      var u := GetByID(user);
      if u.None? { return Failed(NotFound); }
      if u.value.enabled { return Failed(AlreadyEnabled); }
      if u.value.secret.None? { return Failed(NotEnrolled); }
      if !k.totp(code, u.value.secret.value, e.now) { return Failed(InvalidCode); }
      var raw, hashes := GenerateBackupCodes(e.entropy);
      var err := EnableMFA(user, hashes, e.now);
      match err
      case Some(error) => out := Failed(error);
      case None => out := Confirmed(raw);
    }

    method Disable(user: Id, code: string, e: Env) returns (out: Outcome)
      requires e.fault.NoFault?
      modifies this`users
      ensures (users, Finished(out)) == Alone(k, old(users), Disabling(user, code), e)
      ensures out.Disabled? <==>
        && Visible(old(users), user) && old(users)[user].enabled && old(users)[user].secret.Some?
        && (k.totp(code, old(users)[user].secret.value, e.now) || Matches(k, old(users)[user].codes, code))
      ensures out.Disabled? ==> user in users && users == old(users)[user := Cleared(old(users)[user])]
      ensures out.Disabled? ==> users == old(users)[user := User(false, false, None, None, None)]
      ensures out == if user !in old(users) || old(users)[user].deleted then Failed(NotFound)
                     else if !old(users)[user].enabled || old(users)[user].secret == None then Failed(NotEnrolled)
                     else if k.totp(code, old(users)[user].secret.value, e.now)
                       || (old(users)[user].codes != None && code != "" && k.hash(code) in old(users)[user].codes.value)
                     then Disabled else Failed(InvalidCode)
      ensures !out.Disabled? ==> users == old(users)
    {
      var u := GetByID(user);
      if u.None? { return Failed(NotFound); }
      if !u.value.enabled || u.value.secret.None? { return Failed(NotEnrolled); }
      var ok := k.totp(code, u.value.secret.value, e.now);
      if !ok {
        var matched := MatchBackupCode(u.value.codes, code);
        if !matched { return Failed(InvalidCode); }
      }
      ok := DisableMFA(user);
      out := if ok then Disabled else Failed(NotFound);
    }
  }
}
