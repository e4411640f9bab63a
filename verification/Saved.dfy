/** Bookmarks: a count check followed by an insert, guarded by a unique triple, under interleaving. */
module Saved {
  import opened Common

  type Id = nat

  const MAX_SAVED := 1000

  datatype Item = Item(user: Id, kind: string, target: Id)

  datatype Db = Db(rows: map<Id, Item>, companies: set<Id>)

  predicate ValidKind(kind: string) {
    kind == "job" || kind == "company"
  }

  predicate Exists(db: Db, item: Item) {
    exists id :: id in db.rows && db.rows[id] == item
  }

  function Owned(db: Db, user: Id, kind: string): set<Id> {
    set id | id in db.rows && db.rows[id].user == user && db.rows[id].kind == kind
  }

  function Removed(db: Db, item: Item): Db {
    db.(rows := map id | id in db.rows && db.rows[id] != item :: db.rows[id])
  }

  // ---------------------------------------------------------------- requests

  datatype Error = Validation | TargetNotFound | LimitReached | AlreadySaved | StoreError

  datatype Outcome = Created(id: Id) | Unsaved(found: bool) | Failed(error: Error)

  datatype Pc =
    | Saving(item: Item)        // kind check, SELECT a company target
    | Counting(item: Item)      // SELECT count(*)
    | Inserting(item: Item)     // INSERT; the count check has passed
    | Unsaving(item: Item)      // DELETE
    | Finished(out: Outcome)
  {
    predicate Entry() {
      Saving? || Unsaving?
    }

    /** A Save for this user and kind that has not finished. */
    predicate InFlight(user: Id, kind: string) {
      (Saving? || Counting? || Inserting?) && item.user == user && item.kind == kind
    }

    predicate PastCheck(user: Id, kind: string) {
      Inserting? && item.user == user && item.kind == kind
    }
  }

  datatype Env = Env(newId: Id, fault: Fault)

  /** One statement and the local checks around it. */
  function Exec(db: Db, c: Pc, e: Env): (Db, Pc) {
    match c
    case Saving(item) =>
      if !ValidKind(item.kind) then (db, Finished(Failed(Validation)))
      else if item.kind == "company" && !e.fault.NoFault? then (db, Finished(Failed(StoreError)))
      else if item.kind == "company" && item.target !in db.companies then (db, Finished(Failed(TargetNotFound)))
      else (db, Counting(item))
    case Counting(item) =>
      if !e.fault.NoFault? then (db, Finished(Failed(StoreError)))
      else if |Owned(db, item.user, item.kind)| >= MAX_SAVED then (db, Finished(Failed(LimitReached)))
      else (db, Inserting(item))
    case Inserting(item) =>
      if e.newId in db.rows then (db, c)    // random ids never repeat
      else if e.fault.NotApplied? then (db, Finished(Failed(StoreError)))
      else if Exists(db, item) then (db, Finished(Failed(if e.fault.AnswerLost? then StoreError else AlreadySaved)))
      else (db.(rows := db.rows[e.newId := item]),
        Finished(if e.fault.AnswerLost? then Failed(StoreError) else Created(e.newId)))
    case Unsaving(item) =>
      if !ValidKind(item.kind) then (db, Finished(Failed(Validation)))
      else if e.fault.NotApplied? then (db, Finished(Failed(StoreError)))
      else (Removed(db, item), Finished(if e.fault.AnswerLost? then Failed(StoreError) else Unsaved(Exists(db, item))))
    case Finished(_) => (db, c)
  }

  // ---------------------------------------------------------------- the whole system

  datatype Sys = Sys(db: Db, calls: map<Id, Pc>)

  datatype Action =
    | Begin(pid: Id, pc: Pc)
    | Next(pid: Id, env: Env)
    | SetCompanies(companies: set<Id>)

  function Step(s: Sys, a: Action): Sys {
    match a
    case Begin(pid, pc) => if pid in s.calls || !pc.Entry() then s else s.(calls := s.calls[pid := pc])
    case Next(pid, e) =>
      if pid !in s.calls then s
      else
        var (db, c) := Exec(s.db, s.calls[pid], e);
        Sys(db, s.calls[pid := c])
    case SetCompanies(companies) => s.(db := s.db.(companies := companies))
  }

  function Run(s: Sys, acts: seq<Action>): Sys
    decreases |acts|
  {
    if acts == [] then s else Run(Step(s, acts[0]), acts[1..])
  }

  const START := Sys(Db(map[], {}), map[])

  ghost predicate Reachable(s: Sys) {
    exists acts :: s == Run(START, acts)
  }

  // ---------------------------------------------------------------- no duplicate triple

  ghost predicate NoDuplicates(db: Db) {
    forall i, j :: i in db.rows && j in db.rows && db.rows[i] == db.rows[j] ==> i == j
  }

  lemma {:induction false} NoDuplicatesRun(s: Sys, acts: seq<Action>)
    requires NoDuplicates(s.db)
    ensures NoDuplicates(Run(s, acts).db)
    decreases |acts|
  {
    if acts != [] { NoDuplicatesRun(Step(s, acts[0]), acts[1..]); }
  }

  /** No (user, kind, target) triple is ever stored twice. */
  lemma NoTripleTwice(s: Sys, i: Id, j: Id)
    requires Reachable(s) && i in s.db.rows && j in s.db.rows && s.db.rows[i] == s.db.rows[j]
    ensures i == j
  {
    var acts :| s == Run(START, acts);
    NoDuplicatesRun(START, acts);
  }

  /** A bookmark leaves the table only by a DELETE of its own triple, and is unchanged until then. */
  lemma {:induction false} LeavesByUnsaveOnly(s: Sys, acts: seq<Action>, id: Id) returns (i: nat)
    requires id in s.db.rows && id !in Run(s, acts).db.rows
    ensures i < |acts| && acts[i].Next?
    ensures var t := Run(s, acts[..i]);
      && acts[i].pid in t.calls && t.calls[acts[i].pid] == Unsaving(s.db.rows[id])
      && id in t.db.rows && t.db.rows[id] == s.db.rows[id]
    decreases |acts|
  {
    if id in Step(s, acts[0]).db.rows {
      i := LeavesByUnsaveOnly(Step(s, acts[0]), acts[1..], id);
      assert acts[..i + 1][1..] == acts[1..][..i];
      i := i + 1;
    } else {
      i := 0;
    }
  }

  // ---------------------------------------------------------------- the cap under concurrency

  function Flying(s: Sys, user: Id, kind: string): set<Id> {
    set p | p in s.calls && s.calls[p].InFlight(user, kind)
  }

  function Passed(s: Sys, user: Id, kind: string): set<Id> {
    set p | p in s.calls && s.calls[p].PastCheck(user, kind)
  }

  /** Bookmarks stored, plus requests that have passed the count check. */
  function Load(s: Sys, user: Id, kind: string): nat {
    |Owned(s.db, user, kind)| + |Passed(s, user, kind)|
  }

  /** At most `k` Saves for this user and kind are in flight in every state of the run. */
  ghost predicate Within(s: Sys, acts: seq<Action>, user: Id, kind: string, k: nat)
    decreases |acts|
  {
    && |Flying(s, user, kind)| <= k
    && (acts != [] ==> Within(Step(s, acts[0]), acts[1..], user, kind, k))
  }

  lemma LoadInsert(s: Sys, pid: Id, e: Env, user: Id, kind: string)
    requires pid in s.calls && s.calls[pid].PastCheck(user, kind)
    ensures Load(Step(s, Next(pid, e)), user, kind) <= Load(s, user, kind)
  {
    var t := Step(s, Next(pid, e));
    if !t.calls[pid].Inserting? {
      assert Passed(t, user, kind) == Passed(s, user, kind) - {pid};
      if t.db != s.db {
        assert Owned(t.db, user, kind) == Owned(s.db, user, kind) + {e.newId};
      }
    } else {
      assert Passed(t, user, kind) == Passed(s, user, kind);
    }
  }

  lemma LoadCount(s: Sys, pid: Id, e: Env, user: Id, kind: string, k: nat)
    requires pid in s.calls && s.calls[pid].Counting? && s.calls[pid].InFlight(user, kind)
    requires |Flying(s, user, kind)| <= k && Load(s, user, kind) <= MAX_SAVED - 1 + k
    ensures Load(Step(s, Next(pid, e)), user, kind) <= MAX_SAVED - 1 + k
  {
    var t := Step(s, Next(pid, e));
    assert Owned(t.db, user, kind) == Owned(s.db, user, kind);
    if t.calls[pid].Inserting? {
      assert Passed(t, user, kind) == Passed(s, user, kind) + {pid};
      SubsetSize(Passed(s, user, kind) + {pid}, Flying(s, user, kind));
    } else {
      assert Passed(t, user, kind) == Passed(s, user, kind);
    }
  }

  lemma LoadOther(s: Sys, a: Action, user: Id, kind: string)
    requires a.Next? && a.pid in s.calls ==>
      !s.calls[a.pid].PastCheck(user, kind) && !(s.calls[a.pid].Counting? && s.calls[a.pid].InFlight(user, kind))
    ensures Load(Step(s, a), user, kind) <= Load(s, user, kind)
  {
    var t := Step(s, a);
    assert Passed(t, user, kind) == Passed(s, user, kind);
    SubsetSize(Owned(t.db, user, kind), Owned(s.db, user, kind));
  }

  lemma LoadStep(s: Sys, a: Action, user: Id, kind: string, k: nat)
    requires |Flying(s, user, kind)| <= k && Load(s, user, kind) <= MAX_SAVED - 1 + k
    ensures Load(Step(s, a), user, kind) <= MAX_SAVED - 1 + k
  {
    if a.Next? && a.pid in s.calls && s.calls[a.pid].PastCheck(user, kind) {
      LoadInsert(s, a.pid, a.env, user, kind);
    } else if a.Next? && a.pid in s.calls && s.calls[a.pid].Counting? && s.calls[a.pid].InFlight(user, kind) {
      LoadCount(s, a.pid, a.env, user, kind, k);
    } else {
      LoadOther(s, a, user, kind);
    }
  }

  lemma {:induction false} LoadRun(s: Sys, acts: seq<Action>, user: Id, kind: string, k: nat)
    requires Within(s, acts, user, kind, k) && Load(s, user, kind) <= MAX_SAVED - 1 + k
    ensures Load(Run(s, acts), user, kind) <= MAX_SAVED - 1 + k
    decreases |acts|
  {
    if acts != [] {
      LoadStep(s, acts[0], user, kind, k);
      LoadRun(Step(s, acts[0]), acts[1..], user, kind, k);
    }
  }

  /**
   With at most `k` Saves in flight for one user and kind, what is stored together with what has
   passed the check never exceeds 999 + k; one at a time, that is the cap of 1000.
   */
  lemma TheCapStretchesByConcurrency(acts: seq<Action>, user: Id, kind: string, k: nat)
    requires Within(START, acts, user, kind, k)
    ensures Load(Run(START, acts), user, kind) <= 999 + k
    ensures |Owned(Run(START, acts).db, user, kind)| <= 999 + k
  {
    LoadRun(START, acts, user, kind, k);
  }

  // ---------------------------------------------------------------- the service

  /** A request run without interruption. */
  function Alone(db: Db, c: Pc, e: Env): (Db, Pc) {
    var p1 := Exec(db, c, e);
    var p2 := Exec(p1.0, p1.1, e);
    Exec(p2.0, p2.1, e)
  }

  class SavedService {
    var rows: map<Id, Item>
    var companies: set<Id>

    function Database(): Db
      reads this
    {
      Db(rows, companies)
    }

    constructor (companies: set<Id>)
      ensures Database() == Db(map[], companies)
    {
      this.rows := map[];
      this.companies := companies;
    }

    method Create(id: Id, item: Item) returns (ok: bool)
      requires id !in rows
      modifies this`rows
      ensures ok <==> !Exists(old(Database()), item)
      ensures ok <==> forall i :: i in old(rows) ==> old(rows)[i] != item
      ensures rows == if ok then old(rows)[id := item] else old(rows)
    {
      ok := !(exists i :: i in rows && rows[i] == item);
      if ok { rows := rows[id := item]; }
    }

    method CountByUserAndType(user: Id, kind: string) returns (n: nat)
      ensures n == |Owned(Database(), user, kind)|
      ensures n == |set id | id in rows && rows[id].user == user && rows[id].kind == kind|
    {
      n := |set id | id in rows && rows[id].user == user && rows[id].kind == kind|;
      assert Owned(Database(), user, kind) == set id | id in rows && rows[id].user == user && rows[id].kind == kind;
    }

    method DeleteByUserAndItem(item: Item) returns (found: bool)
      modifies this`rows
      ensures found <==> Exists(old(Database()), item)
      ensures Database() == Removed(old(Database()), item) && !Exists(Database(), item)
      ensures found <==> exists id :: id in old(rows) && old(rows)[id] == item
      ensures forall id :: id in rows <==> id in old(rows) && old(rows)[id] != item
      ensures forall id :: id in rows ==> rows[id] == old(rows)[id]
    {
      found := exists i :: i in rows && rows[i] == item;
      rows := map id | id in rows && rows[id] != item :: rows[id];
    }

    /** Alone, a Save never takes a user past the cap. */
    method Save(item: Item, e: Env) returns (out: Outcome)
      requires e.fault.NoFault? && e.newId !in rows
      modifies this`rows
      ensures (Database(), Finished(out)) == Alone(old(Database()), Saving(item), e)
      ensures out.Created? <==>
        && ValidKind(item.kind) && (item.kind == "company" ==> item.target in companies)
        && |Owned(old(Database()), item.user, item.kind)| < MAX_SAVED && !Exists(old(Database()), item)
      ensures var owned :=
          set id | id in old(rows) && old(rows)[id].user == item.user && old(rows)[id].kind == item.kind;
        out == if item.kind != "job" && item.kind != "company" then Failed(Validation)
               else if item.kind == "company" && item.target !in companies then Failed(TargetNotFound)
               else if |owned| >= 1000 then Failed(LimitReached)
               else if exists id :: id in old(rows) && old(rows)[id] == item then Failed(AlreadySaved)
               else Created(e.newId)
      ensures out.Created? ==>
        rows == old(rows)[out.id := item] && |Owned(Database(), item.user, item.kind)| <= MAX_SAVED
      ensures !out.Created? ==> rows == old(rows)
    {
      if item.kind != "job" && item.kind != "company" { return Failed(Validation); }
      if item.kind == "company" && item.target !in companies { return Failed(TargetNotFound); }
      var n := CountByUserAndType(item.user, item.kind);
      if n >= MAX_SAVED { return Failed(LimitReached); }
      var ok := Create(e.newId, item);
      if !ok { return Failed(AlreadySaved); }
      out := Created(e.newId);
      assert Owned(Database(), item.user, item.kind) == Owned(old(Database()), item.user, item.kind) + {e.newId};
    }

    method Unsave(item: Item, e: Env) returns (out: Outcome)
      requires e.fault.NoFault?
      modifies this`rows
      ensures (Database(), Finished(out)) == Alone(old(Database()), Unsaving(item), e)
      ensures ValidKind(item.kind) ==> !Exists(Database(), item)
      ensures var valid := item.kind == "job" || item.kind == "company";
        && (out == if valid then Unsaved(exists id :: id in old(rows) && old(rows)[id] == item)
                   else Failed(Validation))
        && (forall id :: id in rows <==> id in old(rows) && (valid ==> old(rows)[id] != item))
        && (forall id :: id in rows ==> rows[id] == old(rows)[id])
    {
      if item.kind != "job" && item.kind != "company" { return Failed(Validation); }
      var found := DeleteByUserAndItem(item);
      out := Unsaved(found);
    }

    /** Appends one reference per row of the query's result, in whatever order the rows arrive. */
    method ListJobRefs(user: Id) returns (refs: seq<Id>)
      ensures forall id :: id in refs <==> id in Owned(Database(), user, "job")
      ensures forall id :: id in refs <==> id in rows && rows[id].user == user && rows[id].kind == "job"
      ensures forall i, j :: 0 <= i < j < |refs| ==> refs[i] != refs[j]
    {
      refs := [];
      var todo := set id | id in rows && rows[id].user == user && rows[id].kind == "job";
      while todo != {}
        invariant forall id :: id in Owned(Database(), user, "job") <==> id in refs || id in todo
        invariant forall id :: id in refs ==> id !in todo
        invariant forall i, j :: 0 <= i < j < |refs| ==> refs[i] != refs[j]
        decreases |todo|
      {
        var id :| id in todo;
        refs := refs + [id];
        todo := todo - {id};
      }
    }
  }
}
