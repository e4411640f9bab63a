/** The imperative stores, transactions and requests; each request equals its uninterrupted step program. */
module AccountServices {
  import opened Common
  import opened Accounts

  /** One request with nothing in between; `es` holds each statement's clock, randomness and fault. */
  function Finish(db: Db, c: Pc, es: seq<Env>): (r: (Db, Pc))
    ensures es == [] || c.Finished? ==> r == (db, c)
    decreases |es|
  {
    if es == [] || c.Finished? then (db, c)
    else
      var (next, d) := Exec(db, c, es[0]);
      Finish(next, d, es[1..])
  }

  function Nexts(pid: Id, es: seq<Env>): seq<Action> {
    if es == [] then [] else [Next(pid, es[0])] + Nexts(pid, es[1..])
  }

  /** With no other transaction in flight, an uninterrupted request is one of the system's runs. */
  lemma {:induction false} FinishIsARun(s: Sys, pid: Id, es: seq<Env>)
    requires pid in s.calls && forall q :: q in s.calls && q != pid ==> !s.calls[q].HoldsToken()
    ensures var t := Run(s, Nexts(pid, es));
      var (db, c) := Finish(s.db, s.calls[pid], es);
      t.db == db && t.calls == s.calls[pid := c]
    decreases |es|
  {
    if es != [] {
      assert !Waits(s, s.calls[pid]);
      FinishIsARun(Step(s, Next(pid, es[0])), pid, es[1..]);
      assert Nexts(pid, es)[1..] == Nexts(pid, es[1..]);
    }
  }

  /** What an uninterrupted reset transaction leaves behind, by its answer. */
  lemma ResetOutcome(db: Db, ref: Ref, hash: Hash, now: int, es: seq<Env>)
    requires |es| == 4 && ref.kind.Reset?
    ensures var (after, c) := Finish(db, Claiming(ref, hash, now), es);
      && c.Finished?
      && (c.out.Done? <==> Claimable(db, ref, now) && Visible(db, db.tokens[ref].user)
                           && es[0].fault.NoFault? && es[1].fault.NoFault? && es[2].fault.NoFault?
                           && es[3].fault.NoFault?)
      && ((forall i :: 0 <= i < 4 ==> es[i].fault == NoFault) ==>
            c.out == if !Claimable(db, ref, now) then Failed(InvalidToken)
                     else if !Visible(db, db.tokens[ref].user) then Failed(NotFound) else Done(ref))
      && if c.out.Done? || (c.out == Failed(StoreError) && after != db) then
           && Claimable(db, ref, now) && Visible(db, db.tokens[ref].user)
           && var user := db.tokens[ref].user;
              && after.tokens == db.tokens[ref := db.tokens[ref].(used := Some(now))]
              && after.users == db.users[user := Bump(db.users[user].(password := Some(hash)))]
         else after == db
  {
    if es[0].fault.NoFault? && Claimable(db, ref, now) {
      var token := db.tokens[ref].(used := Some(now));
      assert Finish(db, Claiming(ref, hash, now), es) == Finish(db, Replacing(ref, hash, token), es[1..]);
      if es[1].fault.NoFault? && Visible(db, token.user) {
        var row := db.users[token.user].(password := Some(hash));
        assert es[1..][1..] == es[2..] && es[2..][1..] == es[3..];
        assert Finish(db, Replacing(ref, hash, token), es[1..]) == Finish(db, Bumping(ref, hash, token, row), es[2..]);
        if es[2].fault.NoFault? {
          assert Finish(db, Bumping(ref, hash, token, row), es[2..])
            == Finish(db, Committing(ref, hash, token, Bump(row)), es[3..]);
        }
      }
    }
  }

  lemma VerifyOutcome(db: Db, ref: Ref, hash: Hash, now: int, es: seq<Env>)
    requires |es| == 3 && ref.kind.Verify?
    ensures var (after, c) := Finish(db, Claiming(ref, hash, now), es);
      && c.Finished?
      && (c.out.Done? <==> Claimable(db, ref, now) && Visible(db, db.tokens[ref].user)
                           && es[0].fault.NoFault? && es[1].fault.NoFault? && es[2].fault.NoFault?)
      && ((forall i :: 0 <= i < 3 ==> es[i].fault == NoFault) ==>
            c.out == if !Claimable(db, ref, now) then Failed(InvalidToken)
                     else if !Visible(db, db.tokens[ref].user) then Failed(NotFound) else Done(ref))
      && if c.out.Done? || (c.out == Failed(StoreError) && after != db) then
           && Claimable(db, ref, now) && Visible(db, db.tokens[ref].user)
           && var user := db.tokens[ref].user;
              && after.tokens == db.tokens[ref := db.tokens[ref].(used := Some(now))]
              && after.users == db.users[user := db.users[user].(verified := true)]
         else after == db
  {
    if es[0].fault.NoFault? && Claimable(db, ref, now) {
      var token := db.tokens[ref].(used := Some(now));
      assert Finish(db, Claiming(ref, hash, now), es) == Finish(db, Confirming(ref, token), es[1..]);
      if es[1].fault.NoFault? && Visible(db, token.user) {
        var row := db.users[token.user].(verified := true);
        assert es[1..][1..] == es[2..];
        assert Finish(db, Confirming(ref, token), es[1..]) == Finish(db, Committing(ref, 0, token, row), es[2..]);
      }
    }
  }

  class AccountService {
    var tokens: map<Ref, Token>
    var users: map<Id, User>

    function Database(): Db
      reads this
    {
      Db(tokens, users)
    }

    constructor ()
      ensures Database() == START.db
    {
      tokens, users := map[], map[];
    }

    method GetByHash(ref: Ref) returns (t: Option<Token>)
      ensures t == if ref in tokens then Some(tokens[ref]) else None
    {
      if ref in tokens { t := Some(tokens[ref]); } else { t := None; }
    }

    /** MarkUsed and MarkConsumed. */
    method Mark(ref: Ref, now: int) returns (ok: bool)
      modifies this`tokens
      ensures ok <==> Claimable(old(Database()), ref, now)
      ensures ok <==>
        ref in old(tokens) && old(tokens)[ref].used == None && (ref.kind == Reset ==> now < old(tokens)[ref].expires)
      ensures tokens == if ok then old(tokens)[ref := old(tokens)[ref].(used := Some(now))] else old(tokens)
    {
      ok := ref in tokens && tokens[ref].used.None? && (ref.kind.Verify? || now < tokens[ref].expires);
      if ok { tokens := tokens[ref := tokens[ref].(used := Some(now))]; }
    }

    method InvalidateForUser(kind: Kind, user: Id, now: int)
      modifies this`tokens
      ensures Database() == Invalidated(old(Database()), kind, user, now)
      ensures tokens.Keys == old(tokens).Keys
      ensures forall r :: r in tokens && r.kind == kind && tokens[r].user == user ==>
        var was := old(tokens)[r]; tokens[r] == was.(used := if was.used.None? then Some(now) else was.used)
      ensures forall r :: r in tokens && (r.kind != kind || tokens[r].user != user) ==>
        r in old(tokens) && tokens[r] == old(tokens)[r]
    {
      var open := map r | r in tokens && r.kind == kind && tokens[r].user == user && tokens[r].used.None? ::
                    tokens[r].(used := Some(now));
      tokens := tokens + open;
      assert tokens == Invalidated(old(Database()), kind, user, now).tokens;
    }

    method Create(ref: Ref, t: Token)
      requires ref !in tokens
      modifies this`tokens
      ensures tokens == old(tokens)[ref := t]
    {
      tokens := tokens[ref := t];
    }

    method SetPasswordHash(user: Id, hash: Hash) returns (ok: bool)
      modifies this`users
      ensures ok <==> user in old(users) && !old(users)[user].deleted
      ensures users == if ok then old(users)[user := old(users)[user].(password := Some(hash))] else old(users)
    {
      ok := user in users && !users[user].deleted;
      if ok { users := users[user := users[user].(password := Some(hash))]; }
    }

    method BumpTokenVersion(user: Id) returns (ok: bool)
      modifies this`users
      ensures ok <==> user in old(users) && !old(users)[user].deleted
      ensures users == if ok
        then old(users)[user := old(users)[user].(version := old(users)[user].version + 1)] else old(users)
    {
      ok := user in users && !users[user].deleted;
      if ok { users := users[user := users[user].(version := users[user].version + 1)]; }
    }

    method SetEmailVerified(user: Id) returns (ok: bool)
      modifies this`users
      ensures ok <==> user in old(users) && !old(users)[user].deleted
      ensures users == if ok then old(users)[user := old(users)[user].(verified := true)] else old(users)
    {
      ok := user in users && !users[user].deleted;
      if ok { users := users[user := users[user].(verified := true)]; }
    }

    /** The function run inside the reset transaction; its writes may still be rolled back. */
    method ResetBody(ref: Ref, hash: Hash, user: Id, now: int, es: seq<Env>) returns (err: Option<Error>)
      requires |es| == 4 && ref.kind.Reset? && (ref in tokens ==> tokens[ref].user == user)
      modifies this
      ensures err.Some? ==>
        Finish(old(Database()), Claiming(ref, hash, now), es) == (old(Database()), Finished(Failed(err.value)))
      ensures err.None? ==>
        && ref in tokens && user in users && tokens[ref].user == user
        && Database() == Db(old(tokens)[ref := tokens[ref]], old(users)[user := users[user]])
        && Finish(old(Database()), Claiming(ref, hash, now), es)
           == Finish(old(Database()), Committing(ref, hash, tokens[ref], users[user]), es[3..])
    {
      ghost var db := Database();
      if !es[0].fault.NoFault? { return Some(StoreError); }
      var ok := Mark(ref, now);
      if !ok { return Some(InvalidToken); }
      ghost var token := tokens[ref];
      assert Finish(db, Claiming(ref, hash, now), es) == Finish(db, Replacing(ref, hash, token), es[1..]);
      if !es[1].fault.NoFault? { return Some(StoreError); }
      ok := SetPasswordHash(user, hash);
      if !ok { return Some(NotFound); }
      ghost var row := users[user];
      assert es[1..][1..] == es[2..] && es[2..][1..] == es[3..];
      assert Finish(db, Replacing(ref, hash, token), es[1..]) == Finish(db, Bumping(ref, hash, token, row), es[2..]);
      if !es[2].fault.NoFault? { return Some(StoreError); }
      ok := BumpTokenVersion(user);
      assert Finish(db, Bumping(ref, hash, token, row), es[2..])
        == Finish(db, Committing(ref, hash, token, users[user]), es[3..]);
      err := None;
    }

    /** Runs the body; rolls back if it failed, otherwise commits, unless COMMIT itself fails. */
    method WithResetTx(ref: Ref, hash: Hash, user: Id, now: int, es: seq<Env>) returns (out: Outcome)
      requires |es| == 4 && ref.kind.Reset? && (ref in tokens ==> tokens[ref].user == user)
      modifies this
      ensures (Database(), Finished(out)) == Finish(old(Database()), Claiming(ref, hash, now), es)
    {
      var savedTokens, savedUsers := tokens, users;
      var err := ResetBody(ref, hash, user, now, es);
      if err.Some? {
        tokens, users := savedTokens, savedUsers;
        return Failed(err.value);
      }
      match es[3].fault
      case NotApplied =>
        tokens, users := savedTokens, savedUsers;
        out := Failed(StoreError);
      case AnswerLost => out := Failed(StoreError);
      case NoFault => out := Done(ref);
    }

    /** `chosen` is the hash of the new password, None if the password is too weak. */
    method ResetPassword(digest: Digest, chosen: Option<Hash>, es: seq<Env>) returns (out: Outcome)
      requires |es| == 5
      modifies this
      ensures (Database(), Finished(out)) == Finish(old(Database()), Presenting(Ref(Reset, digest), chosen), es)
      ensures !out.Done? && out != Failed(StoreError) ==> Database() == old(Database())
      ensures var ref := Ref(Reset, digest);
        out.Done? <==>
          && (forall i :: 0 <= i < 5 ==> es[i].fault == NoFault)
          && ref in old(tokens) && old(tokens)[ref].used == None
          && es[0].now <= old(tokens)[ref].expires && es[0].later < old(tokens)[ref].expires
          && old(tokens)[ref].user in old(users) && !old(users)[old(tokens)[ref].user].deleted
          && chosen.Some?
      ensures var ref := Ref(Reset, digest);
        out.Done? ==>
          var t, user := old(tokens)[ref], old(tokens)[ref].user;
          var u := old(users)[user];
          && tokens == old(tokens)[ref := t.(used := Some(es[0].later))]
          && users == old(users)[user := u.(password := chosen, version := u.version + 1)]
      ensures var ref := Ref(Reset, digest);
        (forall i :: 0 <= i < 5 ==> es[i].fault == NoFault) ==>
          out == if ref !in old(tokens) || old(tokens)[ref].used.Some? || old(tokens)[ref].expires < es[0].now
                 then Failed(InvalidToken)
                 else if chosen.None? then Failed(WeakPassword)
                 else if old(tokens)[ref].expires <= es[0].later then Failed(InvalidToken)
                 else if old(tokens)[ref].user !in old(users) || old(users)[old(tokens)[ref].user].deleted
                 then Failed(NotFound)
                 else Done(ref)
    {
      var ref := Ref(Reset, digest);
      if !es[0].fault.NoFault? { return Failed(StoreError); }
      var t := GetByHash(ref);
      if t.None? || t.value.used.Some? || es[0].now > t.value.expires { return Failed(InvalidToken); }
      if chosen.None? { return Failed(WeakPassword); }
      out := WithResetTx(ref, chosen.value, t.value.user, es[0].later, es[1..]);
      assert forall i :: 0 <= i < 4 ==> es[1..][i] == es[i + 1];
      ResetOutcome(old(Database()), ref, chosen.value, es[0].later, es[1..]);
    }

    method VerifyBody(ref: Ref, hash: Hash, user: Id, now: int, es: seq<Env>) returns (err: Option<Error>)
      requires |es| == 3 && ref.kind.Verify? && (ref in tokens ==> tokens[ref].user == user)
      modifies this
      ensures err.Some? ==>
        Finish(old(Database()), Claiming(ref, hash, now), es) == (old(Database()), Finished(Failed(err.value)))
      ensures err.None? ==>
        && ref in tokens && user in users && tokens[ref].user == user
        && Database() == Db(old(tokens)[ref := tokens[ref]], old(users)[user := users[user]])
        && Finish(old(Database()), Claiming(ref, hash, now), es)
           == Finish(old(Database()), Committing(ref, 0, tokens[ref], users[user]), es[2..])
    {
      ghost var db := Database();
      if !es[0].fault.NoFault? { return Some(StoreError); }
      var ok := Mark(ref, now);
      if !ok { return Some(InvalidToken); }
      ghost var token := tokens[ref];
      assert Finish(db, Claiming(ref, hash, now), es) == Finish(db, Confirming(ref, token), es[1..]);
      if !es[1].fault.NoFault? { return Some(StoreError); }
      ok := SetEmailVerified(user);
      if !ok { return Some(NotFound); }
      assert es[1..][1..] == es[2..];
      assert Finish(db, Confirming(ref, token), es[1..]) == Finish(db, Committing(ref, 0, token, users[user]), es[2..]);
      err := None;
    }

    method WithTx(ref: Ref, hash: Hash, user: Id, now: int, es: seq<Env>) returns (out: Outcome)
      requires |es| == 3 && ref.kind.Verify? && (ref in tokens ==> tokens[ref].user == user)
      modifies this
      ensures (Database(), Finished(out)) == Finish(old(Database()), Claiming(ref, hash, now), es)
    {
      var savedTokens, savedUsers := tokens, users;
      var err := VerifyBody(ref, hash, user, now, es);
      if err.Some? {
        tokens, users := savedTokens, savedUsers;
        return Failed(err.value);
      }
      match es[2].fault
      case NotApplied =>
        tokens, users := savedTokens, savedUsers;
        out := Failed(StoreError);
      case AnswerLost => out := Failed(StoreError);
      case NoFault => out := Done(ref);
    }

    method VerifyEmail(digest: Digest, es: seq<Env>) returns (out: Outcome)
      requires |es| == 4
      modifies this
      ensures (Database(), Finished(out)) == Finish(old(Database()), Presenting(Ref(Verify, digest), None), es)
      ensures var ref := Ref(Verify, digest);
        out.Done? <==>
          && (forall i :: 0 <= i < 4 ==> es[i].fault == NoFault)
          && ref in old(tokens) && old(tokens)[ref].used == None && es[0].now <= old(tokens)[ref].expires
          && old(tokens)[ref].user in old(users) && !old(users)[old(tokens)[ref].user].deleted
      ensures var ref := Ref(Verify, digest);
        out.Done? ==>
          var t, user := old(tokens)[ref], old(tokens)[ref].user;
          && tokens == old(tokens)[ref := t.(used := Some(es[0].later))]
          && users == old(users)[user := old(users)[user].(verified := true)]
      ensures !out.Done? && out != Failed(StoreError) ==> Database() == old(Database())
      ensures var ref := Ref(Verify, digest);
        (forall i :: 0 <= i < 4 ==> es[i].fault == NoFault) ==>
          out == if ref !in old(tokens) || old(tokens)[ref].used.Some? || old(tokens)[ref].expires < es[0].now
                 then Failed(InvalidToken)
                 else if old(tokens)[ref].user !in old(users) || old(users)[old(tokens)[ref].user].deleted
                 then Failed(NotFound)
                 else Done(ref)
    {
      var ref := Ref(Verify, digest);
      if !es[0].fault.NoFault? { return Failed(StoreError); }
      var t := GetByHash(ref);
      if t.None? || t.value.used.Some? || es[0].now > t.value.expires { return Failed(InvalidToken); }
      out := WithTx(ref, 0, t.value.user, es[0].later, es[1..]);
      assert forall i :: 0 <= i < 3 ==> es[1..][i] == es[i + 1];
      VerifyOutcome(old(Database()), ref, 0, es[0].later, es[1..]);
    }

    /** ForgotPassword and ResendVerification, after their rate limiter. */
    method Request(kind: Kind, user: Id, es: seq<Env>)
      requires |es| == 3 && Ref(kind, es[2].newHash) !in tokens
      modifies this
      ensures Database() == Finish(old(Database()), Requesting(kind, user), es).0
      ensures Eligible(old(Database()), kind, user) && (forall e :: e in es ==> e.fault.NoFault?) ==>
        forall r :: Outstanding(Database(), r, kind, user) <==> r == Ref(kind, es[2].newHash)
      ensures users == old(users)
      // who gets a token: for a reset a live, verified, unsuspended user with a password, else an unverified one
      ensures (forall i :: 0 <= i < 3 ==> es[i].fault == NoFault) ==>
        (Ref(kind, es[2].newHash) in tokens <==>
          && user in users && !users[user].deleted
          && if kind == Reset then users[user].verified && users[user].password != None && !users[user].suspended
             else !users[user].verified)
      // which lasts half an hour or a day, and is then the only unused one of that user and kind
      ensures (forall i :: 0 <= i < 3 ==> es[i].fault == NoFault) && Ref(kind, es[2].newHash) in tokens ==>
        && tokens[Ref(kind, es[2].newHash)]
           == Token(user, es[0].now + (if kind == Reset then 1800 else 86400), None)
        && (forall r :: r in tokens && r.kind == kind && tokens[r].user == user && tokens[r].used == None
              ==> r == Ref(kind, es[2].newHash))
      ensures (forall i :: 0 <= i < 3 ==> es[i].fault == NoFault) && Ref(kind, es[2].newHash) !in tokens ==>
        tokens == old(tokens)
      ensures forall r :: r in old(tokens) && (r.kind != kind || old(tokens)[r].user != user) ==>
        r in tokens && tokens[r] == old(tokens)[r]
    {
      ghost var db := Database();
      assert es[1..][1..] == es[2..];
      if !es[0].fault.NoFault? { return; }
      if user !in users || users[user].deleted { return; }
      var u := users[user];
      if kind.Reset? && (!u.verified || u.password.None? || u.suspended) { return; }
      if kind.Verify? && u.verified { return; }
      var now := es[0].now;
      assert Finish(db, Requesting(kind, user), es) == Finish(db, Invalidating(kind, user, now), es[1..]);
      if es[1].fault.NotApplied? { return; }
      InvalidateForUser(kind, user, now);
      if es[1].fault.AnswerLost? { return; }
      assert Finish(db, Invalidating(kind, user, now), es[1..])
        == Finish(Database(), Issuing(kind, user, now), es[2..]);
      if es[2].fault.NotApplied? { return; }
      Create(Ref(kind, es[2].newHash), Token(user, now + Ttl(kind), None));
    }
  }
}
