/** What every schedule of the rotation protocol keeps, and what a logout or a reuse ends. */
module RotationSafety {
  import opened Common
  import opened Rotation

  // ---------------------------------------------------------------- one live token per family

  datatype Holder = Token(id: Id) | Request(pid: Id)

  /** The live rows of a family and the requests entitled to insert the next one. */
  ghost function Holders(s: Sys, f: Id): set<Holder> {
    (set id | id in s.db.rows && s.db.rows[id].family == f && s.db.rows[id].Live() :: Token(id)) +
    (set p | p in s.calls && s.calls[p].Winner() && s.calls[p].rt.family == f :: Request(p))
  }

  /** Live tokens plus unfinished winners never exceed one, under every interleaving. */
  lemma AtMostOneHolder(s: Sys, f: Id)
    requires Reachable(s)
    ensures |Holders(s, f)| <= 1
  {
    ReachableInv(s);
    forall x, y | x in Holders(s, f) && y in Holders(s, f) ensures x == y {
      match (x, y) {
        case (Token(a), Token(b)) => UnusedIsTip(s, a); UnusedIsTip(s, b);
        case (Request(p), Request(q)) => OneWinnerPerFamily(s, p, q);
        case (Token(a), Request(q)) => UnusedIsTip(s, a);
        case (Request(p), Token(b)) => UnusedIsTip(s, b);
      }
    }
    AtMostOne(Holders(s, f));
  }

  // ---------------------------------------------------------------- the shape of a family

  /** `ids` lists the family's rows as one unbranched prev_id chain of one session. */
  ghost predicate IsChain(db: Db, f: Id, ids: seq<Id>) {
    && ids != []
    && (forall id :: id in db.rows && db.rows[id].family == f <==> id in ids)
    && NoRepeat(ids)
    && (exists l: Lineage :: l.ids == ids && (forall i :: LinkOk(db.rows, f, l, i))
          && l.user in db.users && l.version <= db.users[l.user].version)
  }

  /** In every reachable state every family is one chain whose rows, the newest aside, are all used. */
  lemma FamilyIsAChain(s: Sys, f: Id)
    requires Reachable(s)
    requires exists id :: id in s.db.rows && s.db.rows[id].family == f
    ensures exists ids :: IsChain(s.db, f, ids)
  {
    ReachableInv(s);
    var some :| some in s.db.rows && s.db.rows[some].family == f;
    assert RowOk(s, some);
    var l := s.families[f];
    assert LineageOk(s.db, f, l);
    forall id ensures id in s.db.rows && s.db.rows[id].family == f <==> id in l.ids {
      assert RowOk(s, id);
      if id in l.ids {
        var i :| 0 <= i < |l.ids| && l.ids[i] == id;
        assert LinkOk(s.db.rows, f, l, i);
      }
    }
    assert IsChain(s.db, f, l.ids);
  }

  /** Consequences read off the table alone: one root, one successor, one session per family. */
  lemma FamilyShape(s: Sys, a: Id, b: Id)
    requires Reachable(s)
    requires a in s.db.rows && b in s.db.rows && s.db.rows[a].family == s.db.rows[b].family
    ensures s.db.rows[a].user == s.db.rows[b].user && s.db.rows[a].version == s.db.rows[b].version
    ensures s.db.rows[a].user in s.db.users && s.db.rows[a].version <= s.db.users[s.db.rows[a].user].version
    ensures s.db.rows[a].prev == s.db.rows[b].prev ==> a == b
    ensures s.db.rows[a].usedAt.None? && s.db.rows[b].usedAt.None? ==> a == b
    ensures s.db.rows[a].prev == Some(b) ==> s.db.rows[b].usedAt.Some?
  {
    ReachableInv(s);
    assert RowOk(s, a) && RowOk(s, b);
    var f := s.db.rows[a].family;
    var l := s.families[f];
    assert LineageOk(s.db, f, l);
    var i :| 0 <= i < |l.ids| && l.ids[i] == a;
    var j :| 0 <= j < |l.ids| && l.ids[j] == b;
    assert LinkOk(s.db.rows, f, l, i) && LinkOk(s.db.rows, f, l, j);
    if s.db.rows[a].usedAt.None? { UnusedIsTip(s, a); }
    if s.db.rows[b].usedAt.None? { UnusedIsTip(s, b); }
  }

  // ---------------------------------------------------------------- dead families

  ghost predicate HasLive(rows: Rows, f: Id) {
    exists id :: id in rows && rows[id].family == f && rows[id].Live()
  }

  /** The schedule `acts` ends with a live token in `f`. */
  ghost predicate LiveAfter(s: Sys, acts: seq<Action>, f: Id) {
    HasLive(Run(s, acts).db.rows, f)
  }

  /** A request that won the swap but will meet a newer token_version or a deleted user. */
  ghost predicate Stale(s: Sys, c: Call) {
    && c.Validating? && c.rt.user in s.db.users
    && (c.rt.version < s.db.users[c.rt.user].version || s.db.users[c.rt.user].deleted)
  }

  /** Nothing live, and nobody entitled to insert. */
  ghost predicate Dead(s: Sys, f: Id) {
    && f in s.families
    && !HasLive(s.db.rows, f)
    && (forall p :: p in s.calls && s.calls[p].Winner() && s.calls[p].rt.family == f ==> Stale(s, s.calls[p]))
  }

  /** A dead family gains no live row from one statement. */
  lemma DeadRows(s: Sys, f: Id, pid: Id, e: Env)
    requires Inv(s) && Dead(s, f) && pid in s.calls
    ensures !HasLive(Exec(s.db, s.calls[pid], e).0.rows, f)
  {
    var c := s.calls[pid];
    var db := Exec(s.db, c, e).0;
    assert CallOk(s, c);
    if c.Opening? && e.newFamily == f { KnownFamilyHasRow(s, f); }
    forall id | id in db.rows && db.rows[id].family == f ensures !db.rows[id].Live() {
      if id in s.db.rows { assert !s.db.rows[id].Live(); }
    }
  }

  lemma DeadStep(s: Sys, f: Id, a: Action)
    requires Inv(s) && Dead(s, f)
    ensures Dead(Step(s, a), f)
  {
    if a.Next? && a.pid in s.calls {
      var c := s.calls[a.pid];
      assert CallOk(s, c);
      DeadRows(s, f, a.pid, a.env);
      if c.Marking? && c.rt.family == f {
        assert !s.db.rows[c.rt.id].Live();
      }
    }
  }

  lemma {:induction false} DeadRun(s: Sys, f: Id, acts: seq<Action>)
    requires Inv(s) && Dead(s, f)
    ensures Dead(Run(s, acts), f)
    decreases |acts|
  {
    if acts != [] {
      InvStep(s, acts[0]);
      DeadStep(s, f, acts[0]);
      DeadRun(Step(s, acts[0]), f, acts[1..]);
    }
  }

  /** Some id names no row. */
  lemma FreshId(rows: Rows) returns (id: Id)
    ensures id !in rows
  {
    var keys := rows.Keys;
    id := 0;
    while id in keys
      invariant forall k: Id :: k in rows.Keys && k >= id ==> k in keys
      decreases |keys|
    {
      keys := keys - {id};
      id := id + 1;
    }
  }

  /** The schedule adds a row to `f`. */
  ghost predicate Gains(s: Sys, acts: seq<Action>, f: Id) {
    exists id :: id in Run(s, acts).db.rows && id !in s.db.rows && Run(s, acts).db.rows[id].family == f
  }

  /** A winner that is not stale can still bring the family back to life. */
  lemma WinnerCanIssue(s: Sys, p: Id) returns (acts: seq<Action>)
    requires Inv(s) && p in s.calls && s.calls[p].Winner() && !Stale(s, s.calls[p])
    ensures LiveAfter(s, acts, s.calls[p].rt.family) && Gains(s, acts, s.calls[p].rt.family)
  {
    var c := s.calls[p];
    var rt := c.rt;
    assert CallOk(s, c);
    var l := s.families[rt.family];
    assert LineageOk(s.db, rt.family, l) && LinkOk(s.db.rows, rt.family, l, |l.ids| - 1);
    var unused := FreshId(s.db.rows);
    var e := Env(0, unused, 0, 0, 0, NoFault);
    if c.Rotating? {
      acts := [Next(p, e)];
      var t := Step(s, acts[0]);
      assert Run(s, acts) == Run(t, []) == t;
      assert unused in t.db.rows && t.db.rows[unused].Live() && t.db.rows[unused].family == rt.family;
    } else {
      var a0, a1 := SetStatus(rt.user, Active, false), Next(p, e);
      acts := [a0, a1, a1];
      var t0 := Step(s, a0);
      var t1 := Step(t0, a1);
      var t2 := Step(t1, a1);
      assert t1.calls[p] == Rotating(rt, t0.db.users[rt.user]);
      assert Run(t1, [a1]) == Run(t2, []) == t2;
      assert [a1, a1][1..] == [a1];
      assert acts[1..] == [a1, a1];
      assert Run(s, acts) == t2;
      assert unused in t2.db.rows && t2.db.rows[unused].Live() && t2.db.rows[unused].family == rt.family;
    }
  }

  lemma NoSteps(s: Sys) returns (acts: seq<Action>)
    ensures Run(s, acts) == s
  {
    acts := [];
  }

  /**
   A family is without a live token in every continuation exactly when it has none now and
   every request past the swap on it is bound to meet a newer token_version or a deleted user.
   */
  lemma DeadForeverIff(s: Sys, f: Id)
    requires Reachable(s) && f in s.families
    ensures (forall acts :: !LiveAfter(s, acts, f)) <==> Dead(s, f)
  {
    ReachableInv(s);
    if Dead(s, f) {
      forall acts ensures !LiveAfter(s, acts, f) { DeadRun(s, f, acts); }
    } else if HasLive(s.db.rows, f) {
      var acts := NoSteps(s);
      assert LiveAfter(s, acts, f);
    } else {
      var p :| p in s.calls && s.calls[p].Winner() && s.calls[p].rt.family == f && !Stale(s, s.calls[p]);
      var acts := WinnerCanIssue(s, p);
      assert LiveAfter(s, acts, f);
    }
  }

  /** The history variable names exactly the families that have rows. */
  lemma FamiliesAreInTheTable(s: Sys, f: Id)
    requires Reachable(s)
    ensures f in s.families <==> !FreshFamily(s.db.rows, f)
  {
    ReachableInv(s);
    if f in s.families {
      KnownFamilyHasRow(s, f);
    } else {
      forall id | id in s.db.rows ensures s.db.rows[id].family != f { assert RowOk(s, id); }
    }
  }

  // ---------------------------------------------------------------- reuse detection

  /** The request whose swap was refused revokes the whole family at its next statement. */
  lemma RevokeEmptiesFamily(s: Sys, pid: Id, e: Env)
    requires Reachable(s) && pid in s.calls && s.calls[pid].Revoking? && !e.fault.NotApplied?
    ensures var f := s.calls[pid].rt.family; var t := Step(s, Next(pid, e));
            && t.calls[pid].Finished?
            && !HasLive(t.db.rows, f)
            && ((forall acts :: !LiveAfter(t, acts, f)) <==>
                (forall p :: p in s.calls && s.calls[p].Winner() && s.calls[p].rt.family == f ==> Stale(s, s.calls[p])))
  {
    ReachableInv(s);
    assert CallOk(s, s.calls[pid]);
    var f := s.calls[pid].rt.family;
    var t := Step(s, Next(pid, e));
    ReachableStep(s, Next(pid, e));
    DeadForeverIff(t, f);
    assert forall p :: p in s.calls && p != pid ==> t.calls[p] == s.calls[p];
  }

  /**
   A revocation that fails is only logged: the caller of Refresh is told of the reuse all the same,
   and the family is as dead, or as alive, as it was.
   */
  lemma FailedRevocationKeepsFamily(s: Sys, pid: Id, e: Env)
    requires Reachable(s) && pid in s.calls && s.calls[pid].Revoking? && e.fault.NotApplied?
    ensures var f := s.calls[pid].rt.family; var t := Step(s, Next(pid, e));
            && t.db == s.db
            && t.calls[pid] == Finished(if s.calls[pid].answer.LoggedOut? then Failed(StoreError)
               else s.calls[pid].answer)
            && ((forall acts :: !LiveAfter(t, acts, f)) <==> Dead(s, f))
  {
    ReachableInv(s);
    assert CallOk(s, s.calls[pid]);
    var f := s.calls[pid].rt.family;
    var t := Step(s, Next(pid, e));
    ReachableStep(s, Next(pid, e));
    DeadForeverIff(t, f);
    assert forall p :: p in s.calls && p != pid ==> t.calls[p] == s.calls[p];
    assert Dead(t, f) <==> Dead(s, f);
  }

  lemma {:induction false} RunConcat(s: Sys, a: seq<Action>, b: seq<Action>)
    ensures Run(s, a + b) == Run(Run(s, a), b)
    decreases |a|
  {
    if a == [] {
      assert a + b == b;
    } else {
      assert (a + b)[1..] == a[1..] + b;
      RunConcat(Step(s, a[0]), a[1..], b);
    }
  }

  lemma ReachableStep(s: Sys, a: Action)
    requires Reachable(s)
    ensures Reachable(Step(s, a))
  {
    var users, acts :| s == Run(Start(users), acts);
    RunConcat(Start(users), acts, [a]);
    assert [a][1..] == [];
    assert Step(s, a) == Run(Start(users), acts + [a]);
  }

  // ---------------------------------------------------------------- logout-all

  /** Already past reading `user` at `version`, with only the INSERT left to run. */
  predicate Carries(c: Call, user: Id, version: nat) {
    || (c.Rotating? && c.rt.user == user && c.u.version == version)
    || (c.Opening? && c.user == user && c.u.version == version)
  }

  lemma RowStays(s: Sys, a: Action, id: Id)
    requires id in s.db.rows
    ensures id in Step(s, a).db.rows && s.db.rows[id].SameToken(Step(s, a).db.rows[id])
  {
  }

  lemma {:induction false} RowStaysRun(s: Sys, acts: seq<Action>, id: Id)
    requires id in s.db.rows
    ensures id in Run(s, acts).db.rows && s.db.rows[id].SameToken(Run(s, acts).db.rows[id])
    decreases |acts|
  {
    if acts != [] {
      RowStays(s, acts[0], id);
      RowStaysRun(Step(s, acts[0]), acts[1..], id);
    }
  }

  lemma VersionsGrow(s: Sys, a: Action, user: Id)
    requires user in s.db.users
    ensures user in Step(s, a).db.users && s.db.users[user].version <= Step(s, a).db.users[user].version
  {
  }

  /** The row that a request past reading the user inserts: the next of its family, or the first of a new one. */
  ghost predicate InsertedFrom(rows: Rows, c: Call, r: Row) {
    || (&& c.Rotating? && r.family == c.rt.family && r.prev == Some(c.rt.id)
        && r.user == c.rt.user && r.version == c.u.version)
    || (c.Opening? && FreshFamily(rows, r.family) && r.prev.None? && r.user == c.user && r.version == c.u.version)
  }

  /**
   One step: whoever carries an outdated version carried it before, unchanged, and a new row of that
   version is the one its inserter carried.
   */
  lemma OutdatedStep(s: Sys, a: Action, user: Id, version: nat)
    requires user in s.db.users && version < s.db.users[user].version
    ensures var t := Step(s, a);
      && (forall p :: p in t.calls && Carries(t.calls[p], user, version) ==> p in s.calls && s.calls[p] == t.calls[p])
      && (forall id :: id in t.db.rows && id !in s.db.rows
                       && t.db.rows[id].user == user && t.db.rows[id].version == version ==>
            && a.Next? && a.pid in s.calls
            && Carries(s.calls[a.pid], user, version) && InsertedFrom(s.db.rows, s.calls[a.pid], t.db.rows[id]))
  {
  }

  /** The i-th action of the schedule is `p`'s, finds `p` where it stood in `s`, and inserts `id`. */
  ghost predicate InsertedBy(s: Sys, acts: seq<Action>, i: nat, p: Id, id: Id) {
    && i < |acts| && acts[i].Next? && acts[i].pid == p
    && (var before, after := Run(s, acts[..i]), Run(s, acts[..i + 1]);
        && id !in before.db.rows && id in after.db.rows
        && p in s.calls && p in before.calls && before.calls[p] == s.calls[p]
        && InsertedFrom(before.db.rows, s.calls[p], after.db.rows[id]))
  }

  /**
   A row inserted in any continuation with a version older than the user's present one is inserted
   by a request that had already read the user row, and which one is named.
   */
  lemma {:induction false} NewRowsAreCurrent(s: Sys, acts: seq<Action>, id: Id) returns (i: nat, p: Id)
    requires id in Run(s, acts).db.rows && id !in s.db.rows
    requires var r := Run(s, acts).db.rows[id]; r.user in s.db.users && r.version < s.db.users[r.user].version
    ensures InsertedBy(s, acts, i, p, id)
    ensures var r := Run(s, acts).db.rows[id]; Carries(s.calls[p], r.user, r.version)
    decreases |acts|
  {
    var r := Run(s, acts).db.rows[id];
    var t := Step(s, acts[0]);
    OutdatedStep(s, acts[0], r.user, r.version);
    VersionsGrow(s, acts[0], r.user);
    if id in t.db.rows {
      RowStaysRun(t, acts[1..], id);
      i, p := 0, acts[0].pid;
      assert acts[..1][1..] == [];
      assert Run(s, acts[..0]) == s && Run(s, acts[..1]) == t;
    } else {
      var j;
      j, p := NewRowsAreCurrent(t, acts[1..], id);
      i := j + 1;
      assert acts[..i][1..] == acts[1..][..j] && acts[..i + 1][1..] == acts[1..][..j + 1];
    }
  }

  /** The user has moved on from the version that the family's rows carry. */
  ghost predicate Outdated(s: Sys, f: Id) {
    && f in s.families
    && s.families[f].user in s.db.users
    && s.families[f].version < s.db.users[s.families[f].user].version
  }

  /** The request has read the user row and has only the INSERT of `f`'s next row left. */
  ghost predicate Rotates(s: Sys, p: Id, f: Id) {
    p in s.calls && s.calls[p].Rotating? && s.calls[p].rt.family == f
  }

  /**
   Whatever an outdated family still gains is the successor that an already rotating Refresh
   inserts; a Refresh that reads the user row from now on adds nothing to it.
   */
  lemma OutdatedGainsOnlyFromRotating(s: Sys, f: Id, acts: seq<Action>, id: Id) returns (p: Id)
    requires Reachable(s) && Outdated(s, f)
    requires var t := Run(s, acts); id in t.db.rows && id !in s.db.rows && t.db.rows[id].family == f
    ensures Rotates(s, p, f) && Run(s, acts).db.rows[id].prev == Some(s.calls[p].rt.id)
    ensures exists i :: InsertedBy(s, acts, i, p, id)
  {
    var t := Run(s, acts);
    ReachableInv(s);
    ReachableRun(s, acts);
    assert LineageOk(s.db, f, s.families[f]) && LinkOk(s.db.rows, f, s.families[f], 0);
    var first := s.families[f].ids[0];
    RowStaysRun(s, acts, first);
    FamilyShape(t, id, first);
    var i;
    i, p := NewRowsAreCurrent(s, acts, id);
    RowStaysRun(s, acts[..i], first);
    RunConcat(s, acts[..i + 1], acts[i + 1..]);
    assert acts[..i + 1] + acts[i + 1..] == acts;
    RowStaysRun(Run(s, acts[..i + 1]), acts[i + 1..], id);
  }

  /** An outdated family can gain a row exactly while a Refresh past reading the user row is rotating it. */
  lemma OutdatedGainsIff(s: Sys, f: Id)
    requires Reachable(s) && Outdated(s, f)
    ensures (exists acts :: Gains(s, acts, f)) <==> exists p :: Rotates(s, p, f)
  {
    ReachableInv(s);
    if p :| Rotates(s, p, f) {
      var acts := WinnerCanIssue(s, p);
      assert Gains(s, acts, f);
    }
    if acts :| Gains(s, acts, f) {
      var id :| id in Run(s, acts).db.rows && id !in s.db.rows && Run(s, acts).db.rows[id].family == f;
      var p := OutdatedGainsOnlyFromRotating(s, f, acts, id);
    }
  }

  /** An outdated family gains at most one more row, in all continuations of any length. */
  lemma OutdatedGainsAtMostOne(s: Sys, f: Id, acts: seq<Action>, a: Id, b: Id)
    requires Reachable(s) && Outdated(s, f)
    requires a !in s.db.rows && b !in s.db.rows
    requires var t := Run(s, acts);
      a in t.db.rows && b in t.db.rows && t.db.rows[a].family == f && t.db.rows[b].family == f
    ensures a == b
  {
    var p := OutdatedGainsOnlyFromRotating(s, f, acts, a);
    var q := OutdatedGainsOnlyFromRotating(s, f, acts, b);
    ReachableInv(s);
    OneWinnerPerFamily(s, p, q);
    ReachableRun(s, acts);
    FamilyShape(Run(s, acts), a, b);
  }

  /**
   After LogoutAll (or a password reset) bumps the user, a family that existed before gains a token
   only from a Refresh that was already past reading the user row, and at most one.
   */
  lemma LogoutAllCutsOff(s: Sys, user: Id, acts: seq<Action>, known: Id, id: Id) returns (p: Id)
    requires Reachable(s) && Visible(s.db, user)
    requires known in s.db.rows && s.db.rows[known].user == user
    requires var t := Run(Step(s, BumpVersion(user)), acts);
             id in t.db.rows && id !in s.db.rows && t.db.rows[id].family == s.db.rows[known].family
    ensures var (f, t) := (s.db.rows[known].family, Run(Step(s, BumpVersion(user)), acts));
      && Rotates(s, p, f)
      && t.db.rows[id].prev == Some(s.calls[p].rt.id)
      && (forall other :: other in t.db.rows && other !in s.db.rows && t.db.rows[other].family == f ==> other == id)
  {
    var f, s1 := s.db.rows[known].family, Step(s, BumpVersion(user));
    ReachableInv(s);
    assert RowOk(s, known) && LineageOk(s.db, f, s.families[f]);
    FamilyMember(s, known);
    ReachableStep(s, BumpVersion(user));
    assert Outdated(s1, f);
    p := OutdatedGainsOnlyFromRotating(s1, f, acts, id);
    var t := Run(s1, acts);
    forall other | other in t.db.rows && other !in s.db.rows && t.db.rows[other].family == f ensures other == id {
      OutdatedGainsAtMostOne(s1, f, acts, id, other);
    }
  }

  /** A row carries its family's user and version. */
  lemma FamilyMember(s: Sys, id: Id)
    requires Inv(s) && id in s.db.rows
    ensures s.db.rows[id].family in s.families
    ensures s.families[s.db.rows[id].family].user == s.db.rows[id].user
    ensures s.families[s.db.rows[id].family].version == s.db.rows[id].version
  {
    assert RowOk(s, id);
    var f := s.db.rows[id].family;
    assert LineageOk(s.db, f, s.families[f]);
    var i :| 0 <= i < |s.families[f].ids| && s.families[f].ids[i] == id;
    assert LinkOk(s.db.rows, f, s.families[f], i);
  }

  lemma {:induction false} ReachableRun(s: Sys, acts: seq<Action>)
    requires Reachable(s)
    ensures Reachable(Run(s, acts))
    decreases |acts|
  {
    if acts != [] {
      ReachableStep(s, acts[0]);
      ReachableRun(Step(s, acts[0]), acts[1..]);
    }
  }

  // ---------------------------------------------------------------- whole requests

  /** A request run without interruption; no program is longer than four statements. */
  function Alone(db: Db, c: Call, e: Env): (Db, Call) {
    var p1 := Exec(db, c, e);
    var p2 := Exec(p1.0, p1.1, e);
    var p3 := Exec(p2.0, p2.1, e);
    Exec(p3.0, p3.1, e)
  }

  function Schedule(pid: Id, c: Call, e: Env): seq<Action> {
    [Begin(pid, c), Next(pid, e), Next(pid, e), Next(pid, e), Next(pid, e)]
  }

  lemma AloneIsARun(s: Sys, pid: Id, c: Call, e: Env)
    requires pid !in s.calls && c.Entry()
    ensures var t := Run(s, Schedule(pid, c, e));
            t.db == Alone(s.db, c, e).0 && t.calls == s.calls[pid := Alone(s.db, c, e).1]
  {
    var a := Next(pid, e);
    var s0 := Step(s, Begin(pid, c));
    var s1 := Step(s0, a);
    var s2 := Step(s1, a);
    var s3 := Step(s2, a);
    var s4 := Step(s3, a);
    assert Run(s3, [a]) == Run(s4, []) == s4;
    assert [a, a][1..] == [a] && [a, a, a][1..] == [a, a] && [a, a, a, a][1..] == [a, a, a];
    assert Run(s2, [a, a]) == s4;
    assert Run(s1, [a, a, a]) == s4;
    assert Run(s0, [a, a, a, a]) == s4;
    assert Schedule(pid, c, e)[1..] == [a, a, a, a];
  }

  /** What an uninterrupted Refresh decides, and the table it leaves. */
  lemma RefreshDecision(db: Db, id: Id, hash: Digest, e: Env)
    requires e.fault.NoFault? && e.newId !in db.rows
    requires id in db.rows ==> db.rows[id].id == id
    ensures var (after, c) := Alone(db, Refreshing(id, hash), e);
      && c.Finished?
      && after.users == db.users
      && (if id !in db.rows || db.rows[id].hash != hash then c.out == Failed(InvalidRefresh) && after == db
          else var rt := db.rows[id];
          if e.now > rt.expires then c.out == Failed(RefreshExpired) && after == db
          else if rt.usedAt != None || rt.revokedAt != None then
            c.out == Failed(RefreshReuse) && after.rows == Revoked(db.rows, rt.family, e.now)
          else
            var used := db.rows[id := rt.(usedAt := Some(e.now), revokedAt := Some(e.now))];
            if rt.user !in db.users || db.users[rt.user].deleted then
              c.out == Failed(InvalidRefresh) && after.rows == used
            else if db.users[rt.user].status.Suspended? then
              c.out == Failed(AccountSuspended) && after.rows == Revoked(used, rt.family, e.now)
            else if db.users[rt.user].version != rt.version then
              c.out == Failed(InvalidRefresh) && after.rows == Revoked(used, rt.family, e.now)
            else
              && c.out == Pair(e.newId)
              && after.rows == used[e.newId := Row(e.newId, rt.user, rt.family, e.newHash, Some(rt.id), None, None,
                                                   e.expires, rt.version)])
  {
  }

  /**
   A Logout writes only in its second statement, which it reaches only with the stored hash: an id
   alone revokes nothing.  Uninterrupted, it revokes exactly the unrevoked rows of the token's family.
   */
  lemma LogoutDecision(db: Db, id: Id, hash: Digest, e: Env)
    ensures var (after, c) := Exec(db, LoggingOut(id, hash), e);
      && after == db
      && (c.Revoking? <==> id in db.rows && db.rows[id].hash == hash && e.fault == NoFault)
      && (c.Revoking? ==> c == Revoking(db.rows[id], e.now, LoggedOut))
      && (!c.Revoking? ==> c == Finished(Failed(InvalidRefresh)))
    ensures e.fault == NoFault ==>
      var (after, c) := Alone(db, LoggingOut(id, hash), e);
      && after.users == db.users && after.rows.Keys == db.rows.Keys
      && if id !in db.rows || db.rows[id].hash != hash then c == Finished(Failed(InvalidRefresh)) && after == db
         else
           && c == Finished(LoggedOut)
           && forall k :: k in db.rows ==>
                after.rows[k] == if db.rows[k].family == db.rows[id].family && db.rows[k].revokedAt == None
                                 then db.rows[k].(revokedAt := Some(e.now)) else db.rows[k]
  {
  }

  /** A sign-in, or the redemption of a one-time code: whom it refuses and the session it opens. */
  lemma SignInDecision(db: Db, user: Id, verified: bool, e: Env)
    requires e.fault.NoFault? && e.newId !in db.rows && FreshFamily(db.rows, e.newFamily)
    ensures var (after, c) := Alone(db, LoggingIn(user, verified), e);
      if user in db.users && !db.users[user].deleted && db.users[user].hasPassword && verified then
        if db.users[user].status == Suspended then after == db && c == Finished(Failed(AccountSuspended))
        else
          && c == Finished(Pair(e.newId)) && after.users == db.users
          && after.rows == db.rows[e.newId := Row(e.newId, user, e.newFamily, e.newHash, None, None, None,
                                                  e.expires, db.users[user].version)]
      else after == db && c == Finished(Failed(InvalidCredentials))
    ensures var (after, c) := Alone(db, Exchanging(user), e);
      if user in db.users && !db.users[user].deleted then
        if db.users[user].status == Suspended then after == db && c == Finished(Failed(AccountSuspended))
        else
          && c == Finished(Pair(e.newId)) && after.users == db.users
          && after.rows == db.rows[e.newId := Row(e.newId, user, e.newFamily, e.newHash, None, None, None,
                                                  e.expires, db.users[user].version)]
      else after == db && c == Finished(Failed(OneTimeCodeInvalid))
  {
  }

  /**
   Presenting a consumed or revoked, unexpired token with no other request past the swap on its
   family: the answer is ErrRefreshReuse and the family never again holds a live token.
   */
  lemma ReuseEndsTheFamily(s: Sys, pid: Id, id: Id, e: Env)
    requires Reachable(s) && pid !in s.calls && e.fault.NoFault? && e.newId !in s.db.rows
    requires id in s.db.rows && !s.db.rows[id].Live() && e.now <= s.db.rows[id].expires
    requires forall p :: p in s.calls && s.calls[p].Winner() ==> s.calls[p].rt.family != s.db.rows[id].family
    ensures var t := Run(s, Schedule(pid, Refreshing(id, s.db.rows[id].hash), e));
            && pid in t.calls && t.calls[pid] == Finished(Failed(RefreshReuse))
            && (forall acts :: !LiveAfter(t, acts, s.db.rows[id].family))
  {
    var c := Refreshing(id, s.db.rows[id].hash);
    var f := s.db.rows[id].family;
    var t := Run(s, Schedule(pid, c, e));
    ReachableInv(s);
    assert RowOk(s, id);
    AloneIsARun(s, pid, c, e);
    RefreshDecision(s.db, id, c.hash, e);
    ReachableRun(s, Schedule(pid, c, e));
    assert !HasLive(t.db.rows, f);
    assert t.db.rows[id].family == f;
    FamiliesAreInTheTable(t, f);
    DeadForeverIff(t, f);
  }
}
