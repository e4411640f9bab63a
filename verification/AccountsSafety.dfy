/** What resets and verifications guarantee in every reachable state and every continuation. */
module AccountsSafety {
  import opened Common
  import opened Accounts

  /** Each token is spent by at most one commit and each request commits at most once. */
  lemma EachTokenIsSpentOnce(s: Sys, i: nat, j: nat)
    requires Reachable(s) && i < j < |s.log|
    ensures s.log[i].ref != s.log[j].ref && s.log[i].pid != s.log[j].pid
  {
    ReachableInv(s);
  }

  predicate Resets(x: Entry, user: Id) {
    x.ref.kind.Reset? && x.user == user
  }

  /** The tokens of a user's committed resets. */
  function RefsOf(log: seq<Entry>, user: Id): set<Ref> {
    if log == [] then {}
    else
      var last := log[|log| - 1];
      RefsOf(log[..|log| - 1], user) + if Resets(last, user) then {last.ref} else {}
  }

  lemma {:induction false} RefsComeFrom(log: seq<Entry>, user: Id, ref: Ref) returns (i: nat)
    requires ref in RefsOf(log, user)
    ensures i < |log| && Resets(log[i], user) && log[i].ref == ref
    decreases |log|
  {
    var n := |log| - 1;
    if Resets(log[n], user) && log[n].ref == ref {
      i := n;
    } else {
      i := RefsComeFrom(log[..n], user, ref);
    }
  }

  lemma {:induction false} ResetsCountRefs(log: seq<Entry>, user: Id)
    requires LogOk(log)
    ensures ResetsOf(log, user) == |RefsOf(log, user)|
    decreases |log|
  {
    if log != [] {
      var n := |log| - 1;
      ResetsCountRefs(log[..n], user);
      forall ref | ref in RefsOf(log[..n], user) ensures ref != log[n].ref {
        var i := RefsComeFrom(log[..n], user, ref);
        assert log[..n][i] == log[i];
      }
    }
  }

  /** A password is changed no more often than reset tokens issued to its user were used. */
  lemma ResetsAreBacked(s: Sys, user: Id)
    requires Reachable(s)
    ensures ResetsOf(s.log, user) <=
      |set r | r in s.db.tokens && r.kind.Reset? && s.db.tokens[r].user == user && s.db.tokens[r].used.Some?|
  {
    ReachableInv(s);
    ResetsCountRefs(s.log, user);
    var spent := set r | r in s.db.tokens && r.kind.Reset? && s.db.tokens[r].user == user && s.db.tokens[r].used.Some?;
    forall ref | ref in RefsOf(s.log, user) ensures ref in spent {
      var i := RefsComeFrom(s.log, user, ref);
      assert EntryOk(s, i);
    }
    SubsetSize(RefsOf(s.log, user), spent);
  }

  /**
   Every user row is its first version with the commits applied: the version counts resets and
   logouts, the password is the last reset's, and the email is verified exactly when it began so or a
   verification committed.
   */
  lemma AccountsBalance(s: Sys, user: Id)
    requires Reachable(s) && user in s.db.users
    ensures user in s.base
    ensures s.db.users[user].version == s.base[user].version + ResetsOf(s.log, user) + s.logouts[user]
    ensures s.db.users[user].password == PasswordOf(s.log, user, s.base[user].password)
    ensures s.db.users[user].verified <==> s.base[user].verified || VerifiedIn(s.log, user)
  {
    ReachableInv(s);
    assert UserOk(s, user);
  }

  // ---------------------------------------------------------------- one transaction

  /**
   COMMIT of a reset, whatever else is in flight: one unused, unexpired token becomes used, one live
   user's password is replaced and version advances by exactly one, and no other row changes.
   */
  lemma ResetCommitIsExact(s: Sys, pid: Id, e: Env)
    requires Reachable(s) && pid in s.calls && s.calls[pid].Committing? && s.calls[pid].ref.kind.Reset?
    requires !e.fault.NotApplied?
    ensures var (ref, user, t) := (s.calls[pid].ref, s.calls[pid].token.user, Step(s, Next(pid, e)));
      && ref in s.db.tokens && s.db.tokens[ref].user == user && s.db.tokens[ref].used.None?
      && Visible(s.db, user)
      && ref in t.db.tokens && t.db.tokens[ref].used.Some? && t.db.tokens[ref].used.value < s.db.tokens[ref].expires
      && t.db.tokens == s.db.tokens[ref := s.db.tokens[ref].(used := t.db.tokens[ref].used)]
      && user in t.db.users
      && t.db.users[user]
         == s.db.users[user].(password := Some(s.calls[pid].hash), version := s.db.users[user].version + 1)
      && t.db.users == s.db.users[user := t.db.users[user]]
      && t.log == s.log + [Entry(pid, ref, user, s.calls[pid].hash)]
  {
    ReachableInv(s);
    assert PcOk(s.db, s.calls[pid]);
  }

  /** COMMIT of a verification consumes the token and verifies its user in one step. */
  lemma VerifyCommitIsExact(s: Sys, pid: Id, e: Env)
    requires Reachable(s) && pid in s.calls && s.calls[pid].Committing? && s.calls[pid].ref.kind.Verify?
    requires !e.fault.NotApplied?
    ensures var (ref, user, t) := (s.calls[pid].ref, s.calls[pid].token.user, Step(s, Next(pid, e)));
      && ref in s.db.tokens && s.db.tokens[ref].user == user && s.db.tokens[ref].used.None?
      && Visible(s.db, user)
      && ref in t.db.tokens && t.db.tokens[ref].used.Some?
      && t.db.tokens == s.db.tokens[ref := s.db.tokens[ref].(used := t.db.tokens[ref].used)]
      && user in t.db.users && t.db.users == s.db.users[user := s.db.users[user].(verified := true)]
  {
    ReachableInv(s);
    assert PcOk(s.db, s.calls[pid]);
  }

  /** Until COMMIT succeeds a transaction leaves every table as it was, whichever statement fails. */
  lemma AbortLeavesNoTrace(s: Sys, pid: Id, e: Env)
    requires pid in s.calls && (s.calls[pid].Claiming? || s.calls[pid].HoldsToken())
    requires !s.calls[pid].Committing? || e.fault.NotApplied?
    ensures var t := Step(s, Next(pid, e)); t.db == s.db && t.log == s.log
  {
  }

  /** What a caller may conclude from the answer. */
  lemma AnswerMatchesTheLog(s: Sys, pid: Id)
    requires Reachable(s) && pid in s.calls && s.calls[pid].Finished?
    ensures s.calls[pid].out.Done? ==> Logged(s.log, pid, s.calls[pid].out.ref)
    ensures !s.calls[pid].out.Done? && s.calls[pid].out != Failed(StoreError) ==> forall ref :: !Logged(s.log, pid, ref)
  {
    ReachableInv(s);
    assert DoneOk(s, pid);
    forall ref | Logged(s.log, pid, ref) ensures s.calls[pid].out.Done? || s.calls[pid].out == Failed(StoreError) {
      var i :| 0 <= i < |s.log| && s.log[i].pid == pid && s.log[i].ref == ref;
      assert EntryOk(s, i);
    }
  }

  // ---------------------------------------------------------------- continuations

  ghost predicate Prefix(a: seq<Entry>, b: seq<Entry>) {
    |a| <= |b| && b[..|a|] == a
  }

  lemma {:induction false} LogGrows(s: Sys, acts: seq<Action>)
    ensures Prefix(s.log, Run(s, acts).log)
    decreases |acts|
  {
    if acts != [] {
      var t := Step(s, acts[0]);
      OneStepLogGrows(s, acts[0]);
      LogGrows(t, acts[1..]);
      var u := Run(t, acts[1..]);
      assert u.log[..|s.log|] == u.log[..|t.log|][..|s.log|];
    }
  }

  lemma OneStepLogGrows(s: Sys, a: Action)
    ensures Prefix(s.log, Step(s, a).log)
  {
  }

  /** Once a commit has spent a token, every later presentation or claim of it is refused. */
  lemma SpentStaysSpent(s: Sys, i: nat, acts: seq<Action>, pid: Id, e: Env)
    requires Reachable(s) && i < |s.log| && e.fault.NoFault?
    ensures var t := Run(s, acts);
      pid in t.calls && (t.calls[pid].Presenting? || t.calls[pid].Claiming?) && t.calls[pid].ref == s.log[i].ref
      && !Waits(t, t.calls[pid]) ==>
        Step(t, Next(pid, e)).calls[pid] == Finished(Failed(InvalidToken))
  {
    ReachableInv(s);
    InvRun(s, acts);
    LogGrows(s, acts);
    var t := Run(s, acts);
    assert t.log[i] == s.log[i];
    assert EntryOk(t, i);
  }

  /** A token consumed by VerifyEmail means a verified user from then on. */
  lemma ConsumedMeansVerified(s: Sys, i: nat, acts: seq<Action>)
    requires Reachable(s) && i < |s.log| && s.log[i].ref.kind.Verify?
    ensures var db := Run(s, acts).db;
      s.log[i].user in db.users && db.users[s.log[i].user].verified
  {
    ReachableInv(s);
    InvRun(s, acts);
    LogGrows(s, acts);
    var t := Run(s, acts);
    assert t.log[i] == s.log[i];
    assert EntryOk(t, i) && UserOk(t, s.log[i].user);
  }

  /** Two transactions never hold the same token row or the same user row. */
  lemma LocksAreExclusive(s: Sys, p: Id, q: Id)
    requires Reachable(s) && p in s.calls && q in s.calls && p != q
    ensures s.calls[p].HoldsToken() && s.calls[q].HoldsToken() ==> s.calls[p].ref != s.calls[q].ref
    ensures s.calls[p].HoldsUser() && s.calls[q].HoldsUser() ==> s.calls[p].token.user != s.calls[q].token.user
  {
    ReachableInv(s);
  }
}
