/** The imperative OAuth service; each request equals its uninterrupted step program. */
module OAuthServices {
  import opened Common
  import opened OAuth

  /** At most `n` statements of one request, nothing in between. */
  function Finish(w: World, pid: Id, c: Call, e: Env, n: nat): (World, Call)
    decreases n
  {
    if n == 0 || c.pc.Finished? then (w, c)
    else
      var (v, d) := Exec(w, pid, c, e);
      Finish(v, pid, d, e, n - 1)
  }

  ghost predicate Ran(w: World, pid: Id, c: Call, e: Env, n: nat, v: World, out: Outcome) {
    Finish(w, pid, c, e, n).0 == v && Finish(w, pid, c, e, n).1.pc == Finished(out)
  }

  /** The longest program: a login callback that creates a user. */
  const LONGEST := 6

  lemma {:induction false} FinishMore(w: World, pid: Id, c: Call, e: Env, n: nat, m: nat)
    requires n <= m && Finish(w, pid, c, e, n).1.pc.Finished?
    ensures Finish(w, pid, c, e, m) == Finish(w, pid, c, e, n)
    decreases n
  {
    if n != 0 && !c.pc.Finished? {
      var (v, d) := Exec(w, pid, c, e);
      FinishMore(v, pid, d, e, n - 1, m - 1);
    }
  }

  function Nexts(pid: Id, e: Env, n: nat): seq<Action> {
    if n == 0 then [] else [Next(pid, e)] + Nexts(pid, e, n - 1)
  }

  /** An uninterrupted request is one of the system's runs. */
  lemma {:induction false} FinishIsARun(s: Sys, pid: Id, e: Env, n: nat)
    requires pid in s.calls && e.fault.NoFault?
    ensures var (w, c) := Finish(s.w, pid, s.calls[pid], e, n);
      Run(s, Nexts(pid, e, n)) == Sys(w, s.calls[pid := c])
    decreases n
  {
    if n != 0 {
      var t := Step(s, Next(pid, e));
      FinishIsARun(t, pid, e, n - 1);
      assert Nexts(pid, e, n)[1..] == Nexts(pid, e, n - 1);
      if s.calls[pid].pc.Finished? { FinishMore(s.w, pid, s.calls[pid], e, 0, n - 1); }
    }
  }

  class OAuthService {
    var users: map<Id, User>
    var identities: map<Key, Id>
    var live: map<Secret, Grant>
    ghost var linkedBy: map<Key, Id>
    ghost var minted: map<Secret, Grant>
    ghost var taken: multiset<Secret>

    ghost function Current(): World
      reads this
    {
      World(users, identities, linkedBy, Redis(live, minted, taken))
    }

    constructor ()
      ensures Current() == START.w
    {
      users, identities, live := map[], map[], map[];
      linkedBy, minted, taken := map[], map[], multiset{};
    }

    method Set(x: Secret, g: Grant)
      modifies this`live, this`minted
      ensures Current() == old(Current()).(redis := old(Current()).redis.Put(x, g))
      ensures live == old(live)[x := g]
    {
      live, minted := live[x := g], minted[x := g];
    }

    method GetDel(x: Secret) returns (g: Grant)
      requires x in live
      modifies this`live, this`taken
      ensures g == old(live)[x] && Current() == Take(old(Current()), x)
      ensures x !in live && live == old(live) - {x}
    {
      g := live[x];
      live := live - {x};
      taken := taken + multiset{x};
    }

    method GetUser(user: Id) returns (u: Option<User>)
      ensures u == if Visible(Current(), user) then Some(users[user]) else None
      ensures u == if user in users && !users[user].deleted then Some(users[user]) else None
    {
      if user in users && !users[user].deleted { u := Some(users[user]); } else { u := None; }
    }

    method GetByEmail(address: string) returns (found: bool)
      ensures found <==> AddressTaken(Current(), address)
      ensures found <==> exists u :: u in users && !users[u].deleted && users[u].address == address
    {
      found := exists u :: u in users && !users[u].deleted && users[u].address == address;
    }

    method CreateUser(user: Id, address: string) returns (ok: bool)
      requires user !in users
      modifies this`users
      ensures ok <==> !AddressTaken(old(Current()), address)
      ensures users == if ok then old(users)[user := User(address, false, false, false)] else old(users)
    {
      var found := GetByEmail(address);
      ok := !found;
      if ok { users := users[user := User(address, false, false, false)]; }
    }

    method CreateIdentity(key: Key, user: Id, ghost pid: Id) returns (ok: bool)
      modifies this`identities, this`linkedBy
      ensures ok <==> key !in old(identities)
      ensures Current() == if ok then Link(old(Current()), pid, key, user) else old(Current())
      ensures identities == if ok then old(identities)[key := user] else old(identities)
    {
      ok := key !in identities;
      if ok { identities, linkedBy := identities[key := user], linkedBy[key := pid]; }
    }

    method IssueOneTimeCode(user: Id, e: Env, ghost pid: Id, ghost c: Call) returns (out: Outcome)
      requires c.pc == IssuingCode(user) && e.secret !in minted
      modifies this
      ensures Ran(old(Current()), pid, c, e, 1, Current(), out)
      ensures out == CodeIssued(e.secret) && live == old(live)[e.secret := Code(user)]
      ensures users == old(users) && identities == old(identities)
    {
      Set(e.secret, Code(user));
      out := CodeIssued(e.secret);
    }

    method CreateOAuthUser(key: Key, address: string, e: Env, ghost pid: Id, ghost c: Call) returns (out: Outcome)
      requires c.pc == CreatingUser(key, address) && e.user !in users && e.secret !in minted
      modifies this
      ensures Ran(old(Current()), pid, c, e, 3, Current(), out)
      ensures var taken := exists u :: u in old(users) && !old(users)[u].deleted && old(users)[u].address == address;
        && out == (if taken then Failed(EmailTaken) else if key in old(identities) then Failed(IdentityAlreadyBound)
                   else CodeIssued(e.secret))
        && users == if taken then old(users) else old(users)[e.user := User(address, false, false, false)]
      ensures identities == if out.CodeIssued? then old(identities)[key := e.user] else old(identities)
      ensures live == if out.CodeIssued? then old(live)[e.secret := Code(e.user)] else old(live)
    {
      var ok := CreateUser(e.user, address);
      if !ok { return Failed(EmailTaken); }
      ghost var w1, c1 := Current(), c.(pc := Linking(key, e.user), created := Some(e.user));
      assert Exec(old(Current()), pid, c, e) == (w1, c1);
      ok := CreateIdentity(key, e.user, pid);
      if !ok { return Failed(IdentityAlreadyBound); }
      ghost var c2 := c1.(pc := IssuingCode(e.user));
      assert Exec(w1, pid, c1, e) == (Current(), c2);
      assert Finish(old(Current()), pid, c, e, 3) == Finish(w1, pid, c1, e, 2) == Finish(Current(), pid, c2, e, 1);
      out := IssueOneTimeCode(e.user, e, pid, c2);
    }

    method IssueRegToken(key: Key, e: Env, ghost pid: Id, ghost c: Call) returns (out: Outcome)
      requires c.pc == IssuingReg(key) && e.secret !in minted
      modifies this
      ensures Ran(old(Current()), pid, c, e, 1, Current(), out)
      ensures out == NeedsRegistration(e.secret) && live == old(live)[e.secret := Reg(key)]
      ensures users == old(users) && identities == old(identities)
    {
      Set(e.secret, Reg(key));
      out := NeedsRegistration(e.secret);
    }

    method LoginExisting(user: Id, e: Env, ghost pid: Id, ghost c: Call) returns (out: Outcome)
      requires c.pc == LoadingUser(user) && e.secret !in minted
      modifies this
      ensures Ran(old(Current()), pid, c, e, 2, Current(), out)
      ensures out == if user !in users || users[user].deleted then Failed(UserMissing)
                     else if users[user].suspended then Failed(AccountSuspended) else CodeIssued(e.secret)
      ensures live == if out.CodeIssued? then old(live)[e.secret := Code(user)] else old(live)
      ensures users == old(users) && identities == old(identities)
    {
      var u := GetUser(user);
      if u.None? { return Failed(UserMissing); }
      if u.value.suspended { return Failed(AccountSuspended); }
      ghost var c1 := c.(pc := IssuingCode(user));
      assert Finish(Current(), pid, c, e, 2) == Finish(Current(), pid, c1, e, 1);
      out := IssueOneTimeCode(user, e, pid, c1);
    }

    method ResolveLoginIdentity(provider: Provider, id: Identity, e: Env, ghost pid: Id, ghost c: Call)
      returns (out: Outcome)
      requires c.pc == Resolving(provider) && e.answer == Some(id) && e.user !in users && e.secret !in minted
      modifies this
      ensures Ran(old(Current()), pid, c, e, 5, Current(), out)
      ensures var key := Key(provider, id.subject);
        var taken := exists u :: u in old(users) && !old(users)[u].deleted && old(users)[u].address == id.address;
        out == if key in old(identities) then
                 var user := old(identities)[key];
                 if user !in old(users) || old(users)[user].deleted then Failed(UserMissing)
                 else if old(users)[user].suspended then Failed(AccountSuspended) else CodeIssued(e.secret)
               else if id.email == "" then NeedsRegistration(e.secret)
               else if taken then (if id.verified then EmailCollision else Failed(EmailTaken))
               else CodeIssued(e.secret)
      ensures var key := Key(provider, id.subject);
        var created := key !in old(identities) && out.CodeIssued?;
        && users == (if created then old(users)[e.user := User(id.address, false, false, false)] else old(users))
        && identities == (if created then old(identities)[key := e.user] else old(identities))
        && (out.CodeIssued? ==> key in identities && live == old(live)[e.secret := Code(identities[key])])
        && (out.NeedsRegistration? ==> live == old(live)[e.secret := Reg(key)])
        && (!out.CodeIssued? && !out.NeedsRegistration? ==> live == old(live))
    {
      var key := Key(provider, id.subject);
      ghost var w, d := Current(), Exec(Current(), pid, c, e).1;
      assert Finish(w, pid, c, e, 5) == Finish(w, pid, d, e, 4);
      if key in identities {
        out := LoginExisting(identities[key], e, pid, d);
        FinishMore(w, pid, d, e, 2, 4);
        return;
      }
      if id.email != "" && id.verified {
        var found := GetByEmail(id.address);
        if found { return EmailCollision; }
        assert Finish(w, pid, d, e, 4) == Finish(w, pid, d.(pc := CreatingUser(key, id.address)), e, 3);
      }
      if id.email == "" {
        out := IssueRegToken(key, e, pid, d);
        FinishMore(w, pid, d, e, 1, 4);
      } else {
        out := CreateOAuthUser(key, id.address, e, pid, d.(pc := CreatingUser(key, id.address)));
        FinishMore(w, pid, d.(pc := CreatingUser(key, id.address)), e, 3, 4);
      }
    }

    method HandleBindCallback(provider: Provider, user: Id, e: Env, ghost pid: Id, ghost c: Call) returns (out: Outcome)
      requires c.pc == BindLoading(provider, user)
      modifies this
      ensures Ran(old(Current()), pid, c, e, 3, Current(), out)
      ensures out == if user !in users || users[user].deleted then Failed(UserMissing)
                     else if e.answer.None? then Failed(ExchangeFailed)
                     else if Key(provider, e.answer.value.subject) in old(identities) then Failed(IdentityAlreadyBound)
                     else Bound
      ensures users == old(users) && live == old(live)
      ensures out.Bound? ==> identities == old(identities)[Key(provider, e.answer.value.subject) := user]
      ensures !out.Bound? ==> identities == old(identities)
    {
      ghost var w := Current();
      var u := GetUser(user);
      if u.None? { return Failed(UserMissing); }
      ghost var c1 := c.(pc := BindChecking(provider, user));
      assert Finish(w, pid, c, e, 3) == Finish(w, pid, c1, e, 2);
      if e.answer.None? { return Failed(ExchangeFailed); }
      var key := Key(provider, e.answer.value.subject);
      if key in identities { return Failed(IdentityAlreadyBound); }
      ghost var c2 := c1.(pc := BindLinking(key, user));
      assert Finish(w, pid, c1, e, 2) == Finish(w, pid, c2, e, 1);
      var ok := CreateIdentity(key, user, pid);
      out := Bound;
    }

    /** `state` is None when the signed state does not verify. */
    method HandleCallback(provider: Provider, state: Option<Secret>, e: Env, ghost pid: Id) returns (out: Outcome)
      requires e.user !in users && e.secret !in minted
      modifies this
      ensures Ran(old(Current()), pid, Call(Calling(provider, state), None, None), e, LONGEST, Current(), out)
      ensures state.Some? && state.value in old(live) && old(live)[state.value].State? ==>
        var g := old(live)[state.value];
        && (g.provider != provider ==> out == Failed(StateInvalid))
        && (out.Bound? ==>
              && g.provider == provider && g.forBind.Some? && e.answer.Some?
              && identities == old(identities)[Key(provider, e.answer.value.subject) := g.forBind.value])
        && (out.CodeIssued? || out.NeedsRegistration? || out.EmailCollision? ==>
              g == State(provider, None) && e.answer.Some?)
        && (state.value == e.secret || state.value !in live)
      ensures !(state.Some? && state.value in old(live) && old(live)[state.value].State?) ==>
        out == Failed(StateInvalid) && live == old(live)
      ensures !out.Bound? && !out.CodeIssued? ==> identities == old(identities) && users == old(users)
    {
      ghost var w, c := Current(), Call(Calling(provider, state), None, None);
      if state.None? || state.value !in live || !live[state.value].State? { return Failed(StateInvalid); }
      var g := GetDel(state.value);
      if g.provider != provider { return Failed(StateInvalid); }
      ghost var w1, d := Current(), Exec(w, pid, c, e).1;
      assert Finish(w, pid, c, e, LONGEST) == Finish(w1, pid, d, e, 5);
      if g.forBind.Some? {
        out := HandleBindCallback(provider, g.forBind.value, e, pid, d);
        FinishMore(w1, pid, d, e, 3, 5);
        return;
      }
      if e.answer.None? { return Failed(ExchangeFailed); }
      out := ResolveLoginIdentity(provider, e.answer.value, e, pid, d);
    }

    method Start(provider: Provider, e: Env, ghost pid: Id) returns (out: Outcome)
      requires e.secret !in minted
      modifies this
      ensures Ran(old(Current()), pid, Call(Starting(provider), None, None), e, LONGEST, Current(), out)
      ensures out == Redirect(e.secret) && live == old(live)[e.secret := State(provider, None)]
      ensures users == old(users) && identities == old(identities)
    {
      Set(e.secret, State(provider, None));
      out := Redirect(e.secret);
    }

    method BindStart(provider: Provider, user: Id, e: Env, ghost pid: Id) returns (out: Outcome)
      requires e.secret !in minted
      modifies this
      ensures Ran(old(Current()), pid, Call(BindStarting(provider, user), None, None), e, LONGEST, Current(), out)
      ensures out == Redirect(e.secret) && live == old(live)[e.secret := State(provider, Some(user))]
      ensures users == old(users) && identities == old(identities)
    {
      Set(e.secret, State(provider, Some(user)));
      out := Redirect(e.secret);
    }

    /** Register once the token is consumed and the address is known not to be blank. */
    method RegisterIdentity(key: Key, address: string, e: Env, ghost pid: Id, ghost c: Call) returns (out: Outcome)
      requires c.pc == RegChecking(key, address) && e.user !in users && e.secret !in minted
      modifies this
      ensures Ran(old(Current()), pid, c, e, 5, Current(), out)
      ensures var taken := exists u :: u in old(users) && !old(users)[u].deleted && old(users)[u].address == address;
        && out == (if taken then EmailCollision else if key in old(identities) then Failed(IdentityAlreadyBound)
                   else CodeIssued(e.secret))
        && users == if taken then old(users) else old(users)[e.user := User(address, false, false, false)]
      ensures identities == if out.CodeIssued? then old(identities)[key := e.user] else old(identities)
      ensures live == if out.CodeIssued? then old(live)[e.secret := Code(e.user)] else old(live)
    {
      var found := GetByEmail(address);
      if found { return EmailCollision; }
      ghost var w, d := Current(), c.(pc := CreatingUser(key, address));
      assert Finish(w, pid, c, e, 5) == Finish(w, pid, d, e, 4);
      out := CreateOAuthUser(key, address, e, pid, d);
      FinishMore(w, pid, d, e, 3, 4);
    }

    method Register(token: Secret, address: string, e: Env, ghost pid: Id) returns (out: Outcome)
      requires e.user !in users && e.secret !in minted
      modifies this
      ensures Ran(old(Current()), pid, Call(Registering(token, address), None, None), e, LONGEST, Current(), out)
      ensures var taken := exists u :: u in old(users) && !old(users)[u].deleted && old(users)[u].address == address;
        out == if token !in old(live) || !old(live)[token].Reg? then Failed(RegTokenInvalid)
               else if address == "" then Failed(Validation)
               else if taken then EmailCollision
               else if old(live)[token].key in old(identities) then Failed(IdentityAlreadyBound)
               else CodeIssued(e.secret)
      ensures users == if out == CodeIssued(e.secret) || out == Failed(IdentityAlreadyBound)
        then old(users)[e.user := User(address, false, false, false)] else old(users)
      ensures out.CodeIssued? ==>
        && identities == old(identities)[old(live)[token].key := e.user]
        && live == (old(live) - {token})[e.secret := Code(e.user)]
      ensures !out.CodeIssued? ==>
        && identities == old(identities)
        && live == if out == Failed(RegTokenInvalid) then old(live) else old(live) - {token}
    {
      ghost var w, c := Current(), Call(Registering(token, address), None, None);
      if token !in live || !live[token].Reg? { return Failed(RegTokenInvalid); }
      var g := GetDel(token);
      if address == "" { return Failed(Validation); }
      ghost var d := Call(RegChecking(g.key, address), Some(token), None);
      assert Finish(w, pid, c, e, LONGEST) == Finish(Current(), pid, d, e, 5);
      out := RegisterIdentity(g.key, address, e, pid, d);
    }

    /** The pair itself is a row of the rotation protocol's table. */
    method Exchange(code: Secret, e: Env, ghost pid: Id) returns (out: Outcome)
      modifies this
      ensures Ran(old(Current()), pid, Call(Exchanging(code), None, None), e, LONGEST, Current(), out)
      ensures if code in old(live) && old(live)[code].Code? then
                var user := old(live)[code].user;
                && live == old(live) - {code}
                && out == if user !in users || users[user].deleted then Failed(CodeInvalid)
                          else if users[user].suspended then Failed(AccountSuspended) else Paired(user)
              else live == old(live) && out == Failed(CodeInvalid)
      ensures users == old(users) && identities == old(identities)
    {
      ghost var w, c := Current(), Call(Exchanging(code), None, None);
      if code !in live || !live[code].Code? { return Failed(CodeInvalid); }
      var g := GetDel(code);
      ghost var w1, d := Current(), Exec(w, pid, c, e).1;
      assert Finish(w, pid, c, e, LONGEST) == Finish(w1, pid, d, e, 5);
      var u := GetUser(g.user);
      if u.None? { return Failed(CodeInvalid); }
      if u.value.suspended { return Failed(AccountSuspended); }
      ghost var d1 := d.(pc := Pairing(g.user));
      assert Finish(w1, pid, d, e, 5) == Finish(w1, pid, d1, e, 4);
      out := Paired(g.user);
    }

    method ListByUserID(user: Id) returns (keys: seq<Key>)
      ensures forall k :: k in keys <==> k in Identities(Current(), user)
      ensures forall k :: k in keys <==> k in identities && identities[k] == user
      ensures forall i, j :: 0 <= i < j < |keys| ==> keys[i] != keys[j]
    {
      keys := [];
      var todo := set k | k in identities && identities[k] == user;
      while todo != {}
        invariant forall k :: k in Identities(Current(), user) <==> k in keys || k in todo
        invariant forall k :: k in keys ==> k !in todo
        invariant forall i, j :: 0 <= i < j < |keys| ==> keys[i] != keys[j]
        decreases |todo|
      {
        var k :| k in todo;
        keys, todo := keys + [k], todo - {k};
      }
    }

    method DeleteByUserAndProvider(user: Id, provider: Provider) returns (ok: bool)
      modifies this`identities, this`linkedBy
      ensures ok <==> Of(old(Current()), user, provider) != {}
      ensures Current() == Unlink(old(Current()), user, provider)
      ensures ok <==> exists k :: k in old(identities) && old(identities)[k] == user && k.provider == provider
      ensures forall k :: k in identities <==>
        k in old(identities) && !(old(identities)[k] == user && k.provider == provider)
      ensures forall k :: k in identities ==> identities[k] == old(identities)[k]
    {
      var gone := set k | k in identities && identities[k] == user && k.provider == provider;
      assert gone == Of(Current(), user, provider);
      ok := gone != {};
      assert forall k :: k in gone <==> k in identities && identities[k] == user && k.provider == provider;
      identities, linkedBy := identities - gone, linkedBy - gone;
    }

    /** The counting loop of Unbind: the user's identities for other providers. */
    method RemainingIdentities(user: Id, provider: Provider) returns (remaining: nat)
      ensures remaining == 0 <==> !OwnsOther(Current(), user, provider)
      ensures remaining == 0 <==>
        forall k :: k in identities && identities[k] == user ==> k.provider == provider
    {
      var keys := ListByUserID(user);
      remaining := 0;
      for i := 0 to |keys|
        invariant remaining == 0 <==> forall j :: 0 <= j < i ==> keys[j].provider == provider
      {
        if keys[i].provider != provider { remaining := remaining + 1; }
      }
      assert forall j :: 0 <= j < |keys| ==> keys[j] in Identities(Current(), user);
    }

    method Unbind(user: Id, provider: Provider, e: Env, ghost pid: Id) returns (out: Outcome)
      modifies this
      ensures Ran(old(Current()), pid, Call(UnbindLoading(user, provider), None, None), e, LONGEST, Current(), out)
      ensures out == if user !in old(users) || old(users)[user].deleted then Failed(NotFound)
                     else if !old(users)[user].hasPassword
                       && (forall k :: k in old(identities) && old(identities)[k] == user ==> k.provider == provider)
                     then Failed(LastLoginMethod)
                     else if exists k :: k in old(identities) && old(identities)[k] == user && k.provider == provider
                     then Unbound else Failed(NotFound)
      ensures forall k :: k in identities <==>
        k in old(identities) && !(out == Unbound && old(identities)[k] == user && k.provider == provider)
      ensures forall k :: k in identities ==> identities[k] == old(identities)[k]
      ensures users == old(users) && live == old(live)
    {
      UnbindProgram(Current(), pid, user, provider, e);
      var u := GetUser(user);
      if u.None? { return Failed(NotFound); }
      var remaining := RemainingIdentities(user, provider);
      if remaining == 0 && !u.value.hasPassword { return Failed(LastLoginMethod); }
      var ok := DeleteByUserAndProvider(user, provider);
      out := if ok then Unbound else Failed(NotFound);
    }
  }

  // ---------------------------------------------------------------- unbinding

  predicate OwnsOther(w: World, user: Id, provider: Provider) {
    exists k :: k in Identities(w, user) && k.provider != provider
  }

  lemma ListingDecides(w: World, pid: Id, c: Call, e: Env)
    requires c.pc.UnbindListing?
    ensures var (v, d) := Exec(w, pid, c, e);
      && v == w
      && d.pc == if c.pc.hasPassword || OwnsOther(w, c.pc.user, c.pc.provider) then Unbinding(c.pc.user, c.pc.provider)
                 else Finished(Failed(LastLoginMethod))
  {
  }

  lemma UnbindProgram(w: World, pid: Id, user: Id, provider: Provider, e: Env)
    ensures var c := Call(UnbindLoading(user, provider), None, None);
      if !Visible(w, user) then Ran(w, pid, c, e, LONGEST, w, Failed(NotFound))
      else if !w.users[user].hasPassword && !OwnsOther(w, user, provider) then
        Ran(w, pid, c, e, LONGEST, w, Failed(LastLoginMethod))
      else
        Ran(w, pid, c, e, LONGEST, Unlink(w, user, provider),
            if Of(w, user, provider) != {} then Unbound else Failed(NotFound))
  {
    var c := Call(UnbindLoading(user, provider), None, None);
    if Visible(w, user) {
      var c1 := c.(pc := UnbindListing(user, provider, w.users[user].hasPassword));
      assert Finish(w, pid, c, e, LONGEST) == Finish(w, pid, c1, e, 5);
      ListingDecides(w, pid, c1, e);
      if w.users[user].hasPassword || OwnsOther(w, user, provider) {
        assert Finish(w, pid, c1, e, 5) == Finish(w, pid, c1.(pc := Unbinding(user, provider)), e, 4);
      }
    }
  }
}
