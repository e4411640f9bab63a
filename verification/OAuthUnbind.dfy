/** Whether Unbind leaves a way to log in: alone, in a step, in a run, and how a run can fail to. */
module OAuthUnbind {
  import opened Common
  import opened OAuth
  import opened OAuthServices
  import opened OAuthDecisions

  ghost predicate HasLogin(w: World, user: Id) {
    user in w.users && (w.users[user].hasPassword || Identities(w, user) != {})
  }

  lemma UnlinkKeepsTheRest(w: World, user: Id, provider: Provider)
    ensures Identities(Unlink(w, user, provider), user) == Identities(w, user) - Of(w, user, provider)
  {
  }

  /** Exactly when an uninterrupted Unbind succeeds, what it removes, and that a way to log in is left. */
  lemma UnbindKeepsALogin(w: World, pid: Id, user: Id, provider: Provider, e: Env)
    ensures var (v, d) := Finish(w, pid, Call(UnbindLoading(user, provider), None, None), e, LONGEST);
      && (d.pc == Finished(Unbound) <==>
            Visible(w, user) && Of(w, user, provider) != {}
              && (w.users[user].hasPassword || OwnsOther(w, user, provider)))
      && (d.pc == Finished(Unbound) ==>
            HasLogin(v, user) && Identities(v, user) == Identities(w, user) - Of(w, user, provider))
      && (HasLogin(w, user) ==> HasLogin(v, user))
  {
    UnbindProgram(w, pid, user, provider, e);
    UnlinkKeepsTheRest(w, user, provider);
    if OwnsOther(w, user, provider) {
      var k :| k in Identities(w, user) && k.provider != provider;
      assert k in Identities(w, user) - Of(w, user, provider);
    }
  }

  // ---------------------------------------------------------------- the exact condition under interleaving

  /** A DELETE takes effect on a user with neither a password nor, by then, another provider. */
  predicate Strips(s: Sys, a: Action, user: Id) {
    && a.Next? && a.pid in s.calls && s.calls[a.pid].pc.Unbinding? && s.calls[a.pid].pc.user == user
    && !a.env.fault.NotApplied?
    && user in s.w.users && !s.w.users[user].hasPassword && !OwnsOther(s.w, user, s.calls[a.pid].pc.provider)
  }

  /** Every other statement keeps users, their passwords and their identities. */
  lemma ExecKeepsLogins(w: World, pid: Id, c: Call, e: Env, user: Id)
    requires user in w.users && !(c.pc.Unbinding? && c.pc.user == user)
    ensures var v := Exec(w, pid, c, e).0;
      user in v.users && v.users[user].hasPassword == w.users[user].hasPassword
        && Identities(w, user) <= Identities(v, user)
  {
  }

  lemma NextLoses(s: Sys, pid: Id, e: Env, user: Id)
    requires HasLogin(s.w, user) && pid in s.calls && !s.calls[pid].pc.Finished?
    ensures !HasLogin(Step(s, Next(pid, e)).w, user) <==> Strips(s, Next(pid, e), user)
  {
    var pc := s.calls[pid].pc;
    if pc.Unbinding? && pc.user == user {
      UnlinkKeepsTheRest(s.w, user, pc.provider);
      if OwnsOther(s.w, user, pc.provider) {
        var k :| k in Identities(s.w, user) && k.provider != pc.provider;
        assert k in Identities(s.w, user) - Of(s.w, user, pc.provider);
      }
    } else {
      ExecKeepsLogins(s.w, pid, s.calls[pid], e, user);
    }
  }

  /** One step takes a user's last login method exactly when it strips the user. */
  lemma StepLosesIff(s: Sys, a: Action, user: Id)
    requires HasLogin(s.w, user)
    ensures !HasLogin(Step(s, a).w, user) <==> Strips(s, a, user)
  {
    if a.Next? {
      if a.pid in s.calls && !s.calls[a.pid].pc.Finished? { NextLoses(s, a.pid, a.env, user); }
    } else {
      assert Identities(Step(s, a).w, user) == Identities(s.w, user);
    }
  }

  function At(s: Sys, acts: seq<Action>, i: nat): Sys
    requires i <= |acts|
  {
    Run(s, acts[..i])
  }

  lemma {:induction false} RunConcat(s: Sys, a: seq<Action>, b: seq<Action>)
    ensures Run(s, a + b) == Run(Run(s, a), b)
    decreases |a|
  {
    if a == [] {
      assert a + b == b;
    } else {
      assert (a + b)[1..] == a[1..] + b;
      RunConcat(Step(s, a[0]), a[1..], b);
    }
  }

  lemma AtNext(s: Sys, acts: seq<Action>, i: nat)
    requires i < |acts|
    ensures At(s, acts, i + 1) == Step(At(s, acts, i), acts[i])
  {
    assert acts[..i + 1] == acts[..i] + [acts[i]];
    RunConcat(s, acts[..i], [acts[i]]);
    assert [acts[i]][1..] == [];
  }

  lemma {:induction false} FirstLoss(s: Sys, acts: seq<Action>, user: Id, n: nat) returns (i: nat)
    requires HasLogin(s.w, user) && n <= |acts| && !HasLogin(At(s, acts, n).w, user)
    ensures i < n && Strips(At(s, acts, i), acts[i], user)
    decreases n
  {
    assert acts[..0] == [];
    AtNext(s, acts, n - 1);
    if HasLogin(At(s, acts, n - 1).w, user) {
      i := n - 1;
      StepLosesIff(At(s, acts, i), acts[i], user);
    } else {
      i := FirstLoss(s, acts, user, n - 1);
    }
  }

  /**
   A user who has a login method is without one somewhere in a run exactly when the run strips the
   user: an Unbind's DELETE finds neither a password nor another provider, whatever its check saw.
   */
  lemma LoginLostIff(s: Sys, acts: seq<Action>, user: Id)
    requires HasLogin(s.w, user)
    ensures (exists n :: 0 <= n <= |acts| && !HasLogin(At(s, acts, n).w, user)) <==>
            (exists i :: 0 <= i < |acts| && Strips(At(s, acts, i), acts[i], user))
  {
    if n :| 0 <= n <= |acts| && !HasLogin(At(s, acts, n).w, user) {
      var i := FirstLoss(s, acts, user, n);
    }
    if i :| 0 <= i < |acts| && Strips(At(s, acts, i), acts[i], user) {
      AtNext(s, acts, i);
      if HasLogin(At(s, acts, i).w, user) {
        StepLosesIff(At(s, acts, i), acts[i], user);
        assert !HasLogin(At(s, acts, i + 1).w, user);
      }
    }
  }

  // ---------------------------------------------------------------- a run that strips a user

  lemma BothList(s: Sys, p: Id, q: Id, user: Id, e: Env)
    requires p != q && p in s.calls && q in s.calls && e.fault.NoFault?
    requires OwnsOther(s.w, user, Google) && OwnsOther(s.w, user, Line)
    requires s.calls[p].pc == UnbindListing(user, Google, false) && s.calls[q].pc == UnbindListing(user, Line, false)
    ensures Step(Step(s, Next(p, e)), Next(q, e)) ==
      Sys(s.w, s.calls[p := s.calls[p].(pc := Unbinding(user, Google))][q := s.calls[q].(pc := Unbinding(user, Line))])
  {
    ListingDecides(s.w, p, s.calls[p], e);
    ListingDecides(s.w, q, s.calls[q], e);
  }

  /** Both requests report success and the user, a row like before, is left without a login method. */
  ghost predicate Stripped(users: map<Id, User>, t: Sys, p: Id, q: Id, user: Id) {
    && t.w.users == users
    && p in t.calls && t.calls[p].pc == Finished(Unbound)
    && q in t.calls && t.calls[q].pc == Finished(Unbound)
    && !HasLogin(t.w, user)
  }

  lemma BothDelete(s: Sys, p: Id, q: Id, user: Id, g: Key, l: Key, e: Env)
    requires p != q && p in s.calls && q in s.calls && e.fault.NoFault?
    requires user in s.w.users && !s.w.users[user].hasPassword
    requires g.provider.Google? && l.provider.Line? && Identities(s.w, user) == {g, l}
    requires s.calls[p].pc == Unbinding(user, Google) && s.calls[q].pc == Unbinding(user, Line)
    ensures Stripped(s.w.users, Step(Step(s, Next(p, e)), Next(q, e)), p, q, user)
  {
    assert g in Identities(s.w, user) && l in Identities(s.w, user);
    UnlinkKeepsTheRest(s.w, user, Google);
    UnlinkKeepsTheRest(Unlink(s.w, user, Google), user, Line);
    assert g in Of(s.w, user, Google) && l in Of(Unlink(s.w, user, Google), user, Line);
  }

  /**
   Two Unbinds that both list before either deletes can remove every login method: the guarantee
   above holds request by request only.
   */
  lemma InterleavedUnbindsRemoveBoth(s: Sys, p: Id, q: Id, user: Id, g: Key, l: Key, e: Env)
    requires p != q && p in s.calls && q in s.calls && e.fault.NoFault?
    requires user in s.w.users && !s.w.users[user].hasPassword
    requires g.provider.Google? && l.provider.Line? && Identities(s.w, user) == {g, l}
    requires s.calls[p].pc == UnbindListing(user, Google, false) && s.calls[q].pc == UnbindListing(user, Line, false)
    ensures Stripped(s.w.users, Step(Step(Step(Step(s, Next(p, e)), Next(q, e)), Next(p, e)), Next(q, e)), p, q, user)
  {
    assert g in Identities(s.w, user) && l in Identities(s.w, user);
    BothList(s, p, q, user, e);
    var c, d := s.calls[p].(pc := Unbinding(user, Google)), s.calls[q].(pc := Unbinding(user, Line));
    var u := Sys(s.w, s.calls[p := c][q := d]);
    BothDelete(u, p, q, user, g, l, e);
  }

  lemma ReachableStep(s: Sys, a: Action)
    requires Reachable(s)
    ensures Reachable(Step(s, a))
  {
    var acts :| s == Run(START, acts);
    RunConcat(START, acts, [a]);
    assert [a][1..] == [];
    assert Step(s, a) == Run(START, acts + [a]);
  }

  lemma Then(s: Sys, a: Action) returns (t: Sys)
    requires Reachable(s)
    ensures t == Step(s, a) && Reachable(t)
  {
    t := Step(s, a);
    ReachableStep(s, a);
  }

  /** A request arrives and runs to its end. */
  lemma Play(s: Sys, pid: Id, pc: Pc, e: Env) returns (t: Sys)
    requires Reachable(s) && pid !in s.calls && pc.Entry() && e.fault.NoFault?
    ensures Reachable(t)
    ensures var (w, c) := Finish(s.w, pid, Call(pc, None, None), e, LONGEST);
      t.w == w && t.calls == s.calls[pid := c]
  {
    var s1 := Then(s, Begin(pid, pc));
    FinishIsARun(s1, pid, e, LONGEST);
    var acts :| s1 == Run(START, acts);
    RunConcat(START, acts, Nexts(pid, e, LONGEST));
    t := Run(s1, Nexts(pid, e, LONGEST));
    assert t == Run(START, acts + Nexts(pid, e, LONGEST));
  }

  /** A request of one statement that stores a state. */
  lemma PlayStart(s: Sys, pid: Id, provider: Provider, forBind: Option<Id>, e: Env) returns (t: Sys)
    requires Reachable(s) && pid !in s.calls && e.fault.NoFault? && e.secret !in s.w.redis.minted
    ensures Reachable(t) && t.calls.Keys == s.calls.Keys + {pid}
    ensures t.w == s.w.(redis := s.w.redis.Put(e.secret, State(provider, forBind)))
  {
    t := Play(s, pid, if forBind.Some? then BindStarting(provider, forBind.value) else Starting(provider), e);
  }

  lemma PlayCallback(s: Sys, pid: Id, provider: Provider, state: Secret, e: Env) returns (t: Sys)
    requires Reachable(s) && pid !in s.calls && e.fault.NoFault? && FreshValues(s.w, e)
    ensures Reachable(t) && t.calls.Keys == s.calls.Keys + {pid}
    ensures t.w == Callback(s.w, pid, provider, Some(state), e).0
  {
    t := Play(s, pid, Calling(provider, Some(state)), e);
    CallbackDecision(s.w, pid, provider, Some(state), e);
  }

  const GOOGLE_KEY := Key(Google, "g")
  const LINE_KEY := Key(Line, "l")

  function Fresh(n: nat, subject: string): Env {
    Env(n, n, Some(Identity(subject, "a", "a", true)), NoFault)
  }

  /** Someone signs in with Google. */
  lemma SignsIn() returns (t: Sys)
    ensures Reachable(t) && t.calls.Keys == {0, 1}
    ensures t.w.users == map[1 := User("a", false, false, false)] && t.w.identities == map[GOOGLE_KEY := 1]
    ensures t.w.redis.minted.Keys == {0, 1}
  {
    assert START == Run(START, []);
    t := PlayStart(START, 0, Google, None, Fresh(0, ""));
    t := PlayCallback(t, 1, Google, 0, Fresh(1, "g"));
  }

  /** And binds Line. */
  lemma BindsLine() returns (t: Sys)
    ensures Reachable(t) && t.calls.Keys == {0, 1, 2, 3}
    ensures t.w.users == map[1 := User("a", false, false, false)]
    ensures t.w.identities == map[GOOGLE_KEY := 1, LINE_KEY := 1]
  {
    t := SignsIn();
    t := PlayStart(t, 2, Line, Some(1), Fresh(2, ""));
    t := PlayCallback(t, 3, Line, 2, Fresh(3, "l"));
  }

  lemma StartsUnbinding(s: Sys, pid: Id, provider: Provider) returns (t: Sys)
    requires Reachable(s) && pid !in s.calls && Visible(s.w, 1) && !s.w.users[1].hasPassword
    ensures Reachable(t) && t.w == s.w
    ensures t.calls == s.calls[pid := Call(UnbindListing(1, provider, false), None, None)]
  {
    t := Then(s, Begin(pid, UnbindLoading(1, provider)));
    t := Then(t, Next(pid, Fresh(9, "")));
  }

  lemma FourSteps(s: Sys, p: Id, q: Id, e: Env) returns (t: Sys)
    requires Reachable(s)
    ensures t == Step(Step(Step(Step(s, Next(p, e)), Next(q, e)), Next(p, e)), Next(q, e)) && Reachable(t)
  {
    t := Then(s, Next(p, e));
    t := Then(t, Next(q, e));
    t := Then(t, Next(p, e));
    t := Then(t, Next(q, e));
  }

  lemma BothUnbinding() returns (t: Sys)
    ensures Reachable(t) && 4 in t.calls && 5 in t.calls && Visible(t.w, 1) && !t.w.users[1].hasPassword
    ensures t.calls[4].pc == UnbindListing(1, Google, false) && t.calls[5].pc == UnbindListing(1, Line, false)
    ensures Identities(t.w, 1) == {GOOGLE_KEY, LINE_KEY}
  {
    t := BindsLine();
    assert Identities(t.w, 1) == {GOOGLE_KEY, LINE_KEY};
    t := StartsUnbinding(t, 4, Google);
    t := StartsUnbinding(t, 5, Line);
  }

  /** From empty tables, two interleaved Unbinds leave a live user without any way to log in. */
  lemma NoLoginIsReachable() returns (t: Sys)
    ensures Reachable(t) && Visible(t.w, 1) && !HasLogin(t.w, 1)
  {
    var s := BothUnbinding();
    InterleavedUnbindsRemoveBoth(s, 4, 5, 1, GOOGLE_KEY, LINE_KEY, Fresh(9, ""));
    t := FourSteps(s, 4, 5, Fresh(9, ""));
  }
}
