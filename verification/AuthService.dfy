/** The imperative service and its two stores; each request equals its uninterrupted step program. */
module AuthServices {
  import opened Common
  import opened Rotation
  import opened RotationSafety

  /** `RefreshTokenStore`, `UserStore` and `AuthService` over one database. */
  class AuthService {
    var rows: Rows
    var users: map<Id, User>

    function Database(): Db
      reads this
    {
      Db(rows, users)
    }

    constructor (users: map<Id, User>)
      ensures Database() == Start(users).db
    {
      this.rows := map[];
      this.users := users;
    }

    method Create(r: Row)
      requires r.id !in rows
      modifies this`rows
      ensures rows == old(rows)[r.id := r]
    {
      rows := rows[r.id := r];
    }

    method GetByID(id: Id) returns (r: Option<Row>)
      ensures r == if id in rows then Some(rows[id]) else None
    {
      if id in rows { r := Some(rows[id]); } else { r := None; }
    }

    method MarkUsed(id: Id, now: int) returns (ok: bool)
      modifies this`rows
      ensures ok <==> id in old(rows) && old(rows)[id].usedAt.None? && old(rows)[id].revokedAt.None?
      ensures rows == Swapped(old(rows), id, now)
      ensures ok ==> rows[id].usedAt == Some(now) && rows[id].revokedAt == Some(now)
      ensures !ok ==> rows == old(rows)
    {
      ok := false;
      if id in rows && rows[id].Live() {
        rows := rows[id := rows[id].(usedAt := Some(now), revokedAt := Some(now))];
        ok := true;
      }
    }

    method RevokeFamily(family: Id, now: int)
      modifies this`rows
      ensures rows == Revoked(old(rows), family, now)
      ensures !HasLive(rows, family)
      ensures rows.Keys == old(rows).Keys
      ensures forall id :: id in rows && rows[id].family != family ==> id in old(rows) && rows[id] == old(rows)[id]
      ensures forall id :: id in rows && rows[id].family == family ==>
        var was := old(rows)[id];
        rows[id] == was.(revokedAt := if was.revokedAt == None then Some(now) else was.revokedAt)
    {
      var revoked := map id | id in rows && rows[id].family == family && rows[id].revokedAt.None? ::
                       rows[id].(revokedAt := Some(now));
      rows := rows + revoked;
      assert rows == Revoked(old(rows), family, now);
    }

    method GetUser(id: Id) returns (u: Option<User>)
      ensures u == if Visible(Database(), id) then Some(users[id]) else None
      ensures u == if id in users && !users[id].deleted then Some(users[id]) else None
    {
      if id in users && !users[id].deleted { u := Some(users[id]); } else { u := None; }
    }

    method ValidateUserForRefresh(rt: Row, now: int) returns (u: Option<User>, err: Error)
      modifies this`rows
      ensures u.Some? <==> Visible(old(Database()), rt.user) && !users[rt.user].status.Suspended?
                           && users[rt.user].version == rt.version
      ensures u.Some? <==> rt.user in users && !users[rt.user].deleted && users[rt.user].status != Suspended
                           && users[rt.user].version == rt.version
      ensures u.Some? ==> u.value == users[rt.user] && rows == old(rows)
      ensures u.None? ==> err == (if Visible(old(Database()), rt.user) && users[rt.user].status.Suspended?
                                  then AccountSuspended else InvalidRefresh)
      ensures u.None? ==> rows == if Visible(old(Database()), rt.user) then Revoked(old(rows), rt.family, now)
        else old(rows)
    {
      err := InvalidRefresh;
      u := GetUser(rt.user);
      if u.None? { return; }
      if u.value.status.Suspended? {
        RevokeFamily(rt.family, now);
        return None, AccountSuspended;
      }
      if rt.version != u.value.version {
        RevokeFamily(rt.family, now);
        return None, InvalidRefresh;
      }
    }

    method IssueTokenPair(user: Id, u: User, prev: Option<Id>, family: Id, e: Env) returns (out: Outcome)
      requires e.newId !in rows
      modifies this`rows
      ensures out == Pair(e.newId)
      ensures rows == old(rows)[
        e.newId := Row(e.newId, user, family, e.newHash, prev, None, None, e.expires, u.version)]
    {
      Create(NewRow(user, family, prev, u.version, e));
      out := Pair(e.newId);
    }

    /** `presented` is None when the raw token does not parse. */
    method Refresh(presented: Option<(Id, Digest)>, e: Env) returns (out: Outcome)
      requires e.fault.NoFault? && e.newId !in rows
      modifies this`rows
      ensures presented.None? ==> out == Failed(InvalidRefresh) && rows == old(rows)
      ensures presented.Some? ==>
        (Database(), Finished(out)) == Alone(old(Database()), Refreshing(presented.value.0, presented.value.1), e)
    {
      if presented.None? { return Failed(InvalidRefresh); }
      var (id, hash) := presented.value;
      var found := GetByID(id);
      if found.None? || found.value.hash != hash { return Failed(InvalidRefresh); }
      var rt := found.value;
      if e.now > rt.expires { return Failed(RefreshExpired); }
      var ok := MarkUsed(rt.id, e.now);
      if !ok {
        RevokeFamily(rt.family, e.now);
        return Failed(RefreshReuse);
      }
      var u, err := ValidateUserForRefresh(rt, e.now);
      if u.None? { return Failed(err); }
      out := IssueTokenPair(rt.user, u.value, Some(rt.id), rt.family, e);
    }

    method Login(user: Id, verified: bool, e: Env) returns (out: Outcome)
      requires e.fault.NoFault? && e.newId !in rows && FreshFamily(rows, e.newFamily)
      modifies this`rows
      ensures (Database(), Finished(out)) == Alone(old(Database()), LoggingIn(user, verified), e)
      ensures out.Pair? <==>
        Visible(old(Database()), user) && users[user].hasPassword && verified && !users[user].status.Suspended?
      ensures var known := user in users && !users[user].deleted && users[user].hasPassword && verified;
        out == if !known then Failed(InvalidCredentials)
               else if users[user].status == Suspended then Failed(AccountSuspended) else Pair(e.newId)
      ensures rows == if out.Pair?
        then old(rows)[
          e.newId := Row(e.newId, user, e.newFamily, e.newHash, None, None, None, e.expires, users[user].version)]
        else old(rows)
    {
      var u := GetUser(user);
      if u.None? || !u.value.hasPassword || !verified { return Failed(InvalidCredentials); }
      if u.value.status.Suspended? { return Failed(AccountSuspended); }
      out := IssueTokenPair(user, u.value, None, e.newFamily, e);
    }

    method Logout(presented: Option<(Id, Digest)>, e: Env) returns (out: Outcome)
      requires e.fault.NoFault?
      modifies this`rows
      ensures presented.None? ==> out == Failed(InvalidRefresh) && rows == old(rows)
      ensures presented.Some? ==>
        (Database(), Finished(out)) == Alone(old(Database()), LoggingOut(presented.value.0, presented.value.1), e)
      ensures out.LoggedOut? <==>
        presented.Some? && presented.value.0 in old(rows) && old(rows)[presented.value.0].hash == presented.value.1
      ensures out.LoggedOut? ==> !HasLive(rows, old(rows)[presented.value.0].family)
      ensures !out.LoggedOut? ==> out == Failed(InvalidRefresh) && rows == old(rows)
      ensures rows.Keys == old(rows).Keys
      ensures out.LoggedOut? ==>
        forall k :: k in old(rows) ==>
          var was := old(rows)[k];
          rows[k] == if was.family == old(rows)[presented.value.0].family && was.revokedAt == None
                     then was.(revokedAt := Some(e.now)) else was
    {
      if presented.None? { return Failed(InvalidRefresh); }
      var (id, hash) := presented.value;
      var found := GetByID(id);
      if found.None? || found.value.hash != hash { return Failed(InvalidRefresh); }
      RevokeFamily(found.value.family, e.now);
      out := LoggedOut;
    }

    method LogoutAll(user: Id) returns (ok: bool)
      modifies this`users
      ensures ok <==> Visible(old(Database()), user)
      ensures Database() == Bumped(old(Database()), user)
      ensures ok <==> user in old(users) && !old(users)[user].deleted
      ensures users == if ok
        then old(users)[user := old(users)[user].(version := old(users)[user].version + 1)] else old(users)
    {
      ok := false;
      if user in users && !users[user].deleted {
        users := users[user := users[user].(version := users[user].version + 1)];
        ok := true;
      }
    }
  }
}
