/** What an uninterrupted, fault-free callback, registration or exchange decides, and what it leaves. */
module OAuthDecisions {
  import opened Common
  import opened OAuth
  import opened OAuthServices

  predicate FreshValues(w: World, e: Env) {
    e.secret !in w.redis.minted && e.user !in w.users
  }

  /** No existing user and no existing identity row changed. */
  ghost predicate OnlyAdds(a: World, b: World) {
    && (forall u :: u in a.users ==> u in b.users && b.users[u] == a.users[u])
    && (forall k :: k in a.identities ==> k in b.identities && b.identities[k] == a.identities[k])
  }

  /** The account that a sign-in by `id` creates, and the code it is answered with. */
  function WithNewUser(w: World, pid: Id, key: Key, address: string, e: Env): World {
    World(w.users[e.user := User(address, false, false, false)],
          w.identities[key := e.user], w.linkedBy[key := pid], w.redis.Put(e.secret, Code(e.user)))
  }

  function WithGrant(w: World, e: Env, g: Grant): World {
    w.(redis := w.redis.Put(e.secret, g))
  }

  /** Sign-in with the provider's answer, case by case; no case links an existing user. */
  function SignIn(w: World, pid: Id, provider: Provider, e: Env): (World, Outcome) {
    if e.answer.None? then (w, Failed(ExchangeFailed))
    else
      var id := e.answer.value;
      var key := Key(provider, id.subject);
      if key in w.identities then
        var user := w.identities[key];
        if !Visible(w, user) then (w, Failed(UserMissing))
        else if w.users[user].suspended then (w, Failed(AccountSuspended))
        else (WithGrant(w, e, Code(user)), CodeIssued(e.secret))
      else if id.email == "" then (WithGrant(w, e, Reg(key)), NeedsRegistration(e.secret))
      else if AddressTaken(w, id.address) then (w, if id.verified then EmailCollision else Failed(EmailTaken))
      else (WithNewUser(w, pid, key, id.address, e), CodeIssued(e.secret))
  }

  /** Binding inserts exactly one row, for the state's user, and only if the subject is bound to no one. */
  function Bind(w: World, pid: Id, provider: Provider, user: Id, e: Env): (World, Outcome) {
    if !Visible(w, user) then (w, Failed(UserMissing))
    else if e.answer.None? then (w, Failed(ExchangeFailed))
    else
      var key := Key(provider, e.answer.value.subject);
      if key in w.identities then (w, Failed(IdentityAlreadyBound))
      else (w.(identities := w.identities[key := user], linkedBy := w.linkedBy[key := pid]), Bound)
  }

  /** The whole callback: an unknown state changes nothing, a known one is consumed whatever follows. */
  function Callback(w: World, pid: Id, provider: Provider, state: Option<Secret>, e: Env): (World, Outcome) {
    if state.None? || state.value !in w.redis.live || !w.redis.live[state.value].State? then (w, Failed(StateInvalid))
    else
      var g := w.redis.live[state.value];
      var consumed := w.(redis := w.redis.Got(state.value));
      if g.provider != provider then (consumed, Failed(StateInvalid))
      else if g.forBind.Some? then Bind(consumed, pid, provider, g.forBind.value, e)
      else SignIn(consumed, pid, provider, e)
  }

  lemma CreationDecision(w: World, pid: Id, c: Call, e: Env)
    requires c.pc.CreatingUser? && FreshValues(w, e)
    ensures var (v, d) := Finish(w, pid, c, e, 3);
      if AddressTaken(w, c.pc.address) then v == w && d.pc == Finished(Failed(EmailTaken))
      else if c.pc.key in w.identities then
        v == w.(users := w.users[e.user := User(c.pc.address, false, false, false)])
        && d.pc == Finished(Failed(IdentityAlreadyBound))
      else v == WithNewUser(w, pid, c.pc.key, c.pc.address, e) && d.pc == Finished(CodeIssued(e.secret))
  {
    if !AddressTaken(w, c.pc.address) {
      var key := c.pc.key;
      var w1, c1 := w.(users := w.users[e.user := User(c.pc.address, false, false, false)]),
                    c.(pc := Linking(key, e.user), created := Some(e.user));
      assert Finish(w, pid, c, e, 3) == Finish(w1, pid, c1, e, 2);
      if key !in w.identities {
        var w2, c2 := Link(w1, pid, key, e.user), c1.(pc := IssuingCode(e.user));
        assert Finish(w1, pid, c1, e, 2) == Finish(w2, pid, c2, e, 1);
      }
    }
  }

  lemma LoginDecision(w: World, pid: Id, c: Call, e: Env)
    requires c.pc.Resolving? && FreshValues(w, e)
    ensures var (v, out) := SignIn(w, pid, c.pc.provider, e); Ran(w, pid, c, e, 5, v, out)
  {
    if e.answer.Some? {
      var id := e.answer.value;
      var key := Key(c.pc.provider, id.subject);
      var d := Exec(w, pid, c, e).1;
      assert Finish(w, pid, c, e, 5) == Finish(w, pid, d, e, 4);
      if key in w.identities {
        var d1 := d.(pc := IssuingCode(w.identities[key]));
        if Exec(w, pid, d, e).1 == d1 { assert Finish(w, pid, d, e, 4) == Finish(w, pid, d1, e, 3); }
      } else if id.email != "" {
        var d1 := d.(pc := CreatingUser(key, id.address));
        CreationDecision(w, pid, d1, e);
        FinishMore(w, pid, d1, e, 3, 4);
        if id.verified && !AddressTaken(w, id.address) {
          assert Finish(w, pid, d, e, 4) == Finish(w, pid, d1, e, 3);
        }
      }
    }
  }

  lemma BindDecision(w: World, pid: Id, c: Call, e: Env)
    requires c.pc.BindLoading?
    ensures var (v, out) := Bind(w, pid, c.pc.provider, c.pc.user, e); Ran(w, pid, c, e, 5, v, out)
  {
    if Visible(w, c.pc.user) {
      var c1 := c.(pc := BindChecking(c.pc.provider, c.pc.user));
      assert Finish(w, pid, c, e, 5) == Finish(w, pid, c1, e, 4);
      if e.answer.Some? {
        var key := Key(c.pc.provider, e.answer.value.subject);
        if key !in w.identities {
          assert Finish(w, pid, c1, e, 4) == Finish(w, pid, c1.(pc := BindLinking(key, c.pc.user)), e, 3);
        }
      }
    }
  }

  /** An uninterrupted callback leaves and answers exactly what the table says. */
  lemma CallbackDecision(w: World, pid: Id, provider: Provider, state: Option<Secret>, e: Env)
    requires FreshValues(w, e)
    ensures var (v, out) := Callback(w, pid, provider, state, e);
      Ran(w, pid, Call(Calling(provider, state), None, None), e, LONGEST, v, out)
  {
    var c := Call(Calling(provider, state), None, None);
    if state.Some? && state.value in w.redis.live && w.redis.live[state.value].State? {
      var (w1, d) := Exec(w, pid, c, e);
      assert Finish(w, pid, c, e, LONGEST) == Finish(w1, pid, d, e, 5);
      if d.pc.BindLoading? { BindDecision(w1, pid, d, e); }
      if d.pc.Resolving? { LoginDecision(w1, pid, d, e); }
    }
  }

  /** The table's own law: whatever the callback is given, it never changes an existing user or row. */
  lemma CallbackOnlyAdds(w: World, pid: Id, provider: Provider, state: Option<Secret>, e: Env)
    requires FreshValues(w, e)
    ensures OnlyAdds(w, Callback(w, pid, provider, state, e).0)
    ensures var (v, out) := Callback(w, pid, provider, state, e);
      forall k :: k in v.identities && k !in w.identities ==>
        || (v.identities[k] == e.user && e.user !in w.users)
        || (out.Bound? && state.Some? && w.redis.live[state.value] == State(k.provider, Some(v.identities[k])))
  {
  }

  lemma RegistrationDecision(w: World, pid: Id, c: Call, e: Env)
    requires c.pc.RegChecking? && FreshValues(w, e)
    ensures var (v, d) := Finish(w, pid, c, e, 5);
      if AddressTaken(w, c.pc.address) then v == w && d.pc == Finished(EmailCollision)
      else if c.pc.key in w.identities then OnlyAdds(w, v) && d.pc == Finished(Failed(IdentityAlreadyBound))
      else v == WithNewUser(w, pid, c.pc.key, c.pc.address, e) && d.pc == Finished(CodeIssued(e.secret))
  {
    if !AddressTaken(w, c.pc.address) {
      var d := c.(pc := CreatingUser(c.pc.key, c.pc.address));
      assert Finish(w, pid, c, e, 5) == Finish(w, pid, d, e, 4);
      CreationDecision(w, pid, d, e);
      FinishMore(w, pid, d, e, 3, 4);
      assert Finish(w, pid, c, e, 5) == Finish(w, pid, d, e, 3);
    }
  }

  /** Register consumes its token even when it then refuses, and never touches an existing user. */
  lemma RegisterDecision(w: World, pid: Id, token: Secret, address: string, e: Env)
    requires FreshValues(w, e)
    ensures var (v, d) := Finish(w, pid, Call(Registering(token, address), None, None), e, LONGEST);
      if token !in w.redis.live || !w.redis.live[token].Reg? then v == w && d.pc == Finished(Failed(RegTokenInvalid))
      else
        var key := w.redis.live[token].key;
        var w1 := w.(redis := w.redis.Got(token));
        if address == "" then v == w1 && d.pc == Finished(Failed(Validation))
        else if AddressTaken(w, address) then v == w1 && d.pc == Finished(EmailCollision)
        else if key in w.identities then OnlyAdds(w, v) && d.pc == Finished(Failed(IdentityAlreadyBound))
        else v == WithNewUser(w1, pid, key, address, e) && d.pc == Finished(CodeIssued(e.secret))
  {
    var c := Call(Registering(token, address), None, None);
    if token in w.redis.live && w.redis.live[token].Reg? && address != "" {
      var w1, d := Take(w, token), Call(RegChecking(w.redis.live[token].key, address), Some(token), None);
      assert Exec(w, pid, c, e) == (w1, d);
      assert Finish(w, pid, c, e, LONGEST) == Finish(w1, pid, d, e, 5);
      RegistrationDecision(w1, pid, d, e);
    }
  }

  /** Exchange consumes the code first, and answers with a pair only for its live, unsuspended user. */
  lemma ExchangeDecision(w: World, pid: Id, code: Secret, e: Env)
    ensures var (v, d) := Finish(w, pid, Call(Exchanging(code), None, None), e, LONGEST);
      if code !in w.redis.live || !w.redis.live[code].Code? then v == w && d.pc == Finished(Failed(CodeInvalid))
      else
        var user := w.redis.live[code].user;
        && v == w.(redis := w.redis.Got(code))
        && d.pc == Finished(if !Visible(w, user) then Failed(CodeInvalid)
                            else if w.users[user].suspended then Failed(AccountSuspended) else Paired(user))
  {
    var c := Call(Exchanging(code), None, None);
    if code in w.redis.live && w.redis.live[code].Code? {
      var (w1, d) := Exec(w, pid, c, e);
      assert Finish(w, pid, c, e, LONGEST) == Finish(w1, pid, d, e, 5);
      if Visible(w, d.pc.user) && !w.users[d.pc.user].suspended {
        assert Finish(w1, pid, d, e, 5) == Finish(w1, pid, d.(pc := Pairing(d.pc.user)), e, 4);
      }
    }
  }
}
