/** What holds of the OAuth flow in every reachable state and every continuation. */
module OAuthSafety {
  import opened Common
  import opened OAuth

  // ---------------------------------------------------------------- single use

  /**
   Every state, code and registration token is consumed at most once, only after being issued, and
   different requests consumed different ones.
   */
  lemma EveryGrantIsTakenOnce(s: Sys)
    requires Reachable(s)
    ensures forall x :: s.w.redis.taken[x] <= 1
    ensures forall x :: x in s.w.redis.taken ==> x in s.w.redis.minted && x !in s.w.redis.live
    ensures forall p, q ::
      p in s.calls && q in s.calls && s.calls[p].took.Some? && s.calls[p].took == s.calls[q].took ==> p == q
  {
    ReachableInv(s);
  }

  /** Users, grants and consumption only accumulate. */
  lemma NextEvolves(s: Sys, pid: Id, e: Env)
    requires Inv(s) && pid in s.calls
    ensures Evolves(s.w, Step(s, Next(pid, e)).w)
  {
    ExecGrants(s.w, pid, s.calls[pid], e);
  }

  lemma StepEvolves(s: Sys, a: Action)
    requires Inv(s)
    ensures Evolves(s.w, Step(s, a).w)
  {
    match a
    case Next(pid, e) => if pid in s.calls { NextEvolves(s, pid, e); }
    case _ =>
  }

  lemma {:induction false} RunEvolves(s: Sys, acts: seq<Action>)
    requires Inv(s)
    ensures Evolves(s.w, Run(s, acts).w)
    decreases |acts|
  {
    if acts != [] {
      InvStep(s, acts[0]);
      StepEvolves(s, acts[0]);
      RunEvolves(Step(s, acts[0]), acts[1..]);
    }
  }

  /** A consumed grant never becomes usable again, in any continuation. */
  lemma TakenIsGoneForGood(s: Sys, acts: seq<Action>, x: Secret)
    requires Reachable(s) && x in s.w.redis.taken
    ensures var r := Run(s, acts).w.redis; x !in r.live && r.taken[x] == 1
  {
    ReachableInv(s);
    RunEvolves(s, acts);
    InvRun(s, acts);
  }

  // ---------------------------------------------------------------- code exchange

  /** The requests that consumed a code of `user`, whatever became of them. */
  function RedeemersOf(s: Sys, user: Id): set<Id> {
    set p | p in s.calls && s.w.redis.Minted(s.calls[p].took, Code(user))
  }

  function CodesFor(s: Sys, user: Id): set<Secret> {
    set x | x in s.w.redis.minted && s.w.redis.minted[x] == Code(user)
  }

  /**
   The requests that consumed a code of a user, among them every one that has issued, is issuing or
   may have issued a pair for that user, never outnumber the codes issued for the user.
   */
  lemma ExchangesNeverOutnumberCodes(s: Sys, user: Id)
    requires Reachable(s)
    ensures |RedeemersOf(s, user)| <= |CodesFor(s, user)|
    ensures forall p :: p in s.calls && (s.calls[p].pc == Pairing(user) || s.calls[p].pc == Finished(Paired(user))) ==>
      p in RedeemersOf(s, user)
  {
    ReachableInv(s);
    var ps := RedeemersOf(s, user);
    var f := map p | p in ps :: s.calls[p].took.value;
    Injection(ps, f, CodesFor(s, user));
    forall p | p in s.calls && (s.calls[p].pc == Pairing(user) || s.calls[p].pc == Finished(Paired(user)))
      ensures p in ps {
      assert CallOk(s.w, s.calls[p]);
    }
  }

  /** The refresh token is inserted only by a request that consumed a code of that user, once. */
  lemma PairingHappensOnce(s: Sys, pid: Id, e: Env)
    requires Reachable(s) && pid in s.calls && s.calls[pid].pc.Pairing?
    ensures pid in RedeemersOf(s, s.calls[pid].pc.user)
    ensures var t := Step(s, Next(pid, e)); t.calls[pid].pc.Finished? && t.calls[pid].took == s.calls[pid].took
  {
    ReachableInv(s);
    assert CallOk(s.w, s.calls[pid]);
  }

  // ---------------------------------------------------------------- identity rows

  /**
   Every identity row points at the user its inserting request created, or at the user of a BindStart
   state for the same provider that this request consumed.  No user is created by two requests.
   */
  lemma IdentityProvenance(s: Sys, key: Key)
    requires Reachable(s) && key in s.w.identities
    ensures key in s.w.linkedBy && s.w.linkedBy[key] in s.calls
    ensures var c := s.calls[s.w.linkedBy[key]];
      || c.created == Some(s.w.identities[key])
      || (&& c.took.Some? && c.took.value in s.w.redis.taken
          && s.w.redis.Minted(c.took, State(key.provider, Some(s.w.identities[key]))))
    ensures forall p, q ::
      p in s.calls && q in s.calls && s.calls[p].created.Some? && s.calls[p].created == s.calls[q].created ==> p == q
  {
    ReachableInv(s);
    assert LinkOk(s, key);
    assert CallOk(s.w, s.calls[s.w.linkedBy[key]]);
  }

  /** The user exists and no request is between creating it and inserting its identity row. */
  ghost predicate Settled(s: Sys, user: Id) {
    && user in s.w.users
    && forall p :: p in s.calls && s.calls[p].created == Some(user) ==> !s.calls[p].pc.Linking?
  }

  lemma LinkingComesFromCreation(w: World, pid: Id, c: Call, e: Env)
    ensures var d := Exec(w, pid, c, e).1;
      && (d.pc.Linking? ==> d.created == Some(e.user) && e.user !in w.users)
      && (c.pc.Linking? ==> d.created == c.created)
  {
  }

  lemma SettledAdvance(s: Sys, pid: Id, w: World, d: Call, user: Id)
    requires Settled(s, user) && Evolves(s.w, w)
    requires d.created == Some(user) ==> !d.pc.Linking?
    ensures Settled(Sys(w, s.calls[pid := d]), user)
  {
  }

  lemma SettledNext(s: Sys, pid: Id, e: Env, user: Id)
    requires Inv(s) && Settled(s, user) && pid in s.calls
    ensures Settled(Step(s, Next(pid, e)), user)
  {
    var (w, d) := Exec(s.w, pid, s.calls[pid], e);
    LinkingComesFromCreation(s.w, pid, s.calls[pid], e);
    ExecGrants(s.w, pid, s.calls[pid], e);
    SettledAdvance(s, pid, w, d, user);
    SettledAdvance(s, pid, w, Fail(d, StoreError), user);
  }

  lemma SettledStep(s: Sys, a: Action, user: Id)
    requires Inv(s) && Settled(s, user)
    ensures Settled(Step(s, a), user)
  {
    match a
    case Next(pid, e) => if pid in s.calls { SettledNext(s, pid, e, user); }
    case _ =>
  }

  /** If the row exists and points at `user`, a bind put it there. */
  ghost predicate Bound(s: Sys, key: Key, user: Id) {
    key in s.w.identities && s.w.identities[key] == user ==>
      && key in s.w.linkedBy
      && s.w.linkedBy[key] in s.calls
      && BindsFor(s.w, s.calls[s.w.linkedBy[key]], key.provider, user)
  }

  lemma BoundAdvance(s: Sys, pid: Id, w: World, d: Call, key: Key, user: Id)
    requires Inv(s) && pid in s.calls && Bound(s, key, user)
    requires Evolves(s.w, w) && Moves(s.w, s.calls[pid], d)
    requires (key in w.identities && w.identities[key] == user) ==>
      && key in w.linkedBy
      && if key in s.w.identities then w.identities[key] == s.w.identities[key] && w.linkedBy[key] == s.w.linkedBy[key]
         else w.linkedBy[key] == pid && BindsFor(w, d, key.provider, user)
    ensures Bound(Sys(w, s.calls[pid := d]), key, user)
  {
  }

  lemma BoundNext(s: Sys, pid: Id, e: Env, key: Key, user: Id)
    requires Inv(s) && Settled(s, user) && Bound(s, key, user) && pid in s.calls
    ensures Bound(Step(s, Next(pid, e)), key, user)
  {
    var c := s.calls[pid];
    var (w, d) := Exec(s.w, pid, c, e);
    assert CallOk(s.w, c) && LinkOk(s, key);
    ExecLinks(s.w, pid, c, e, key);
    ExecMoves(s.w, pid, c, e);
    ExecGrants(s.w, pid, c, e);
    LinkingComesFromCreation(s.w, pid, c, e);
    BoundAdvance(s, pid, w, d, key, user);
    BoundAdvance(s, pid, w, Fail(d, StoreError), key, user);
  }

  lemma BoundStep(s: Sys, a: Action, key: Key, user: Id)
    requires Inv(s) && Settled(s, user) && Bound(s, key, user)
    ensures Bound(Step(s, a), key, user)
  {
    match a
    case Next(pid, e) => if pid in s.calls { BoundNext(s, pid, e, key, user); }
    case _ =>
  }

  lemma {:induction false} BoundRun(s: Sys, acts: seq<Action>, key: Key, user: Id)
    requires Inv(s) && Settled(s, user) && Bound(s, key, user)
    ensures Bound(Run(s, acts), key, user)
    decreases |acts|
  {
    if acts != [] {
      InvStep(s, acts[0]);
      SettledStep(s, acts[0], user);
      BoundStep(s, acts[0], key, user);
      BoundRun(Step(s, acts[0]), acts[1..], key, user);
    }
  }

  /**
   A login or registration callback never links a provider to a user that already exists: a row that
   any continuation adds to such a user was inserted while consuming a BindStart state of that user.
   */
  lemma LoginNeverLinksAnExistingUser(s: Sys, acts: seq<Action>, key: Key, user: Id)
    requires Reachable(s) && Settled(s, user)
    requires key in s.w.identities ==> s.w.identities[key] != user
    ensures var t := Run(s, acts);
      key in t.w.identities && t.w.identities[key] == user ==>
        && key in t.w.linkedBy
        && t.w.linkedBy[key] in t.calls
        && var c := t.calls[t.w.linkedBy[key]];
           c.took.Some? && c.took.value in t.w.redis.taken && t.w.redis.Minted(c.took, State(key.provider, Some(user)))
  {
    ReachableInv(s);
    BoundRun(s, acts, key, user);
    InvRun(s, acts);
    var t := Run(s, acts);
    if key in t.w.identities && t.w.identities[key] == user {
      assert CallOk(t.w, t.calls[t.w.linkedBy[key]]);
    }
  }

  /** No two live users share an address, whatever creations interleave. */
  lemma OneLiveUserPerAddress(s: Sys, u: Id, v: Id)
    requires Reachable(s) && Visible(s.w, u) && Visible(s.w, v) && s.w.users[u].address == s.w.users[v].address
    ensures u == v
  {
    ReachableInv(s);
  }
}
