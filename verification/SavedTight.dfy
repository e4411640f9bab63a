/** The concurrency bound on bookmarks is attained, so no smaller one holds. */
module SavedTight {
  import opened Common
  import opened Saved

  function Job(n: Id): Item {
    Item(0, "job", n)
  }

  function Jobs(n: nat): map<Id, Item> {
    if n == 0 then map[] else Jobs(n - 1)[n - 1 := Job(n - 1)]
  }

  /** `n` Saves have finished and `w` later ones are past their count check. */
  function Saves(n: nat, w: nat): map<Id, Pc>
    decreases n + w
  {
    if w > 0 then Saves(n, w - 1)[n + w - 1 := Inserting(Job(n + w - 1))]
    else if n > 0 then Saves(n - 1, 0)[n - 1 := Finished(Created(n - 1))]
    else map[]
  }

  function Scene(n: nat, w: nat): Sys {
    Sys(Db(Jobs(n), {}), Saves(n, w))
  }

  lemma {:induction false} JobAt(n: nat, id: Id)
    ensures id in Jobs(n) <==> id < n
    ensures id < n ==> Jobs(n)[id] == Job(id)
    decreases n
  {
    if n > 0 { JobAt(n - 1, id); }
  }

  lemma {:induction false} SaveAt(n: nat, w: nat, p: Id)
    ensures p in Saves(n, w) <==> p < n + w
    ensures p < n + w ==> Saves(n, w)[p] == if p < n then Finished(Created(p)) else Inserting(Job(p))
    decreases n + w
  {
    if w > 0 { SaveAt(n, w - 1, p); } else if n > 0 { SaveAt(n - 1, 0, p); }
  }

  lemma {:induction false} StoredSize(n: nat, w: nat)
    ensures |Owned(Scene(n, w).db, 0, "job")| == n
    decreases n
  {
    if n > 0 {
      StoredSize(n - 1, w);
      JobAt(n - 1, n - 1);
      assert Owned(Scene(n, w).db, 0, "job") == Owned(Scene(n - 1, w).db, 0, "job") + {n - 1};
    }
  }

  lemma {:induction false} FlyingSize(n: nat, w: nat)
    ensures |Flying(Scene(n, w), 0, "job")| == w
    decreases w
  {
    if w == 0 {
      forall p | p in Saves(n, 0) ensures !Saves(n, 0)[p].InFlight(0, "job") { SaveAt(n, 0, p); }
      assert Flying(Scene(n, w), 0, "job") == {};
    } else {
      FlyingSize(n, w - 1);
      SaveAt(n, w - 1, n + w - 1);
      assert Flying(Scene(n, w), 0, "job") == Flying(Scene(n, w - 1), 0, "job") + {n + w - 1};
    }
  }

  lemma SceneSizes(n: nat, w: nat)
    ensures |Owned(Scene(n, w).db, 0, "job")| == n && |Flying(Scene(n, w), 0, "job")| == w
  {
    StoredSize(n, w);
    FlyingSize(n, w);
  }

  /** Finishing the oldest waiting Save. */
  lemma {:induction false} SavesLand(n: nat, w: nat)
    requires w > 0
    ensures Saves(n, w)[n := Finished(Created(n))] == Saves(n + 1, w - 1)
    decreases w
  {
    if w > 1 {
      SavesLand(n, w - 1);
      var rest: map<Id, Pc> := Saves(n, w - 1);
      var x: Pc, y: Pc := Inserting(Job(n + w - 1)), Finished(Created(n));
      assert rest[n + w - 1 := x][n := y] == rest[n := y][n + w - 1 := x];
    } else {
      assert Saves(n, 0)[n := Inserting(Job(n))][n := Finished(Created(n))] == Saves(n, 0)[n := Finished(Created(n))];
    }
  }

  /** Some run leads from `s` to `t` with at most `k` Saves in flight throughout. */
  ghost predicate Leads(s: Sys, t: Sys, k: nat) {
    exists acts :: Run(s, acts) == t && Within(s, acts, 0, "job", k)
  }

  lemma {:induction false} RunConcat(s: Sys, a: seq<Action>, b: seq<Action>, k: nat)
    requires Within(s, a, 0, "job", k) && Within(Run(s, a), b, 0, "job", k)
    ensures Run(s, a + b) == Run(Run(s, a), b) && Within(s, a + b, 0, "job", k)
    decreases |a|
  {
    if a == [] {
      assert a + b == b;
    } else {
      assert (a + b)[1..] == a[1..] + b;
      RunConcat(Step(s, a[0]), a[1..], b, k);
    }
  }

  lemma LeadsOn(s: Sys, t: Sys, u: Sys, k: nat)
    requires Leads(s, t, k) && Leads(t, u, k)
    ensures Leads(s, u, k)
  {
    var a :| Run(s, a) == t && Within(s, a, 0, "job", k);
    var b :| Run(t, b) == u && Within(t, b, 0, "job", k);
    RunConcat(s, a, b, k);
  }

  lemma OneAction(s: Sys, a: Action, k: nat)
    requires |Flying(s, 0, "job")| <= k && |Flying(Step(s, a), 0, "job")| <= k
    ensures Leads(s, Step(s, a), k)
  {
    assert Run(s, [a]) == Run(Step(s, a), []) == Step(s, a);
    assert Within(Step(s, a), [], 0, "job", k);
    assert Within(s, [a], 0, "job", k);
  }

  lemma OneMore(s: Sys, p: Id, x: Pc)
    requires p !in s.calls && x.InFlight(0, "job")
    ensures |Flying(s.(calls := s.calls[p := x]), 0, "job")| == |Flying(s, 0, "job")| + 1
  {
    assert Flying(s.(calls := s.calls[p := x]), 0, "job") == Flying(s, 0, "job") + {p};
  }

  lemma ArriveSteps(s: Sys, p: Id, item: Item, e: Env, k: nat)
    requires p !in s.calls && e.fault.NoFault? && item.user == 0 && item.kind == "job"
    requires |Owned(s.db, 0, "job")| < MAX_SAVED && |Flying(s, 0, "job")| < k
    ensures Leads(s, s.(calls := s.calls[p := Inserting(item)]), k)
  {
    var s1 := s.(calls := s.calls[p := Saving(item)]);
    var s2 := s.(calls := s.calls[p := Counting(item)]);
    var s3 := s.(calls := s.calls[p := Inserting(item)]);
    assert Step(s, Begin(p, Saving(item))) == s1;
    assert Step(s1, Next(p, e)) == s2;
    assert Step(s2, Next(p, e)) == s3;
    OneMore(s, p, Saving(item));
    OneMore(s, p, Counting(item));
    OneMore(s, p, Inserting(item));
    OneAction(s, Begin(p, Saving(item)), k);
    OneAction(s1, Next(p, e), k);
    OneAction(s2, Next(p, e), k);
    LeadsOn(s, s1, s2, k);
    LeadsOn(s, s2, s3, k);
  }

  /** The next Save arrives and passes its count check. */
  lemma Arrive(n: nat, w: nat, k: nat)
    requires n < MAX_SAVED && w < k
    ensures Leads(Scene(n, w), Scene(n, w + 1), k)
  {
    SceneSizes(n, w);
    SaveAt(n, w, n + w);
    ArriveSteps(Scene(n, w), n + w, Job(n + w), Env(0, NoFault), k);
  }

  /** The oldest waiting Save inserts its row. */
  lemma Land(n: nat, w: nat, k: nat)
    requires 0 < w <= k
    ensures Leads(Scene(n, w), Scene(n + 1, w - 1), k)
  {
    var s, t := Scene(n, w), Scene(n + 1, w - 1);
    var a := Next(n, Env(n, NoFault));
    JobAt(n, n);
    SaveAt(n, w, n);
    assert !Exists(s.db, Job(n)) by {
      forall id | id in s.db.rows ensures s.db.rows[id] != Job(n) { JobAt(n, id); }
    }
    SavesLand(n, w);
    assert Step(s, a) == t;
    SceneSizes(n, w);
    SceneSizes(n + 1, w - 1);
    OneAction(s, a, k);
  }

  lemma {:induction false} Fill(n: nat, k: nat)
    requires n < MAX_SAVED && 0 < k
    ensures Leads(Scene(0, 0), Scene(n, 0), k)
    decreases n
  {
    if n == 0 {
      SceneSizes(0, 0);
      assert Run(Scene(0, 0), []) == Scene(0, 0) && Within(Scene(0, 0), [], 0, "job", k);
    } else {
      Fill(n - 1, k);
      Arrive(n - 1, 0, k);
      Land(n - 1, 1, k);
      LeadsOn(Scene(0, 0), Scene(n - 1, 0), Scene(n - 1, 1), k);
      LeadsOn(Scene(0, 0), Scene(n - 1, 1), Scene(n, 0), k);
    }
  }

  lemma {:induction false} Crowd(n: nat, w: nat, k: nat)
    requires n < MAX_SAVED && w <= k && 0 < k
    ensures Leads(Scene(0, 0), Scene(n, w), k)
    decreases w
  {
    if w == 0 {
      Fill(n, k);
    } else {
      Crowd(n, w - 1, k);
      Arrive(n, w - 1, k);
      LeadsOn(Scene(0, 0), Scene(n, w - 1), Scene(n, w), k);
    }
  }

  lemma {:induction false} Drain(n: nat, w: nat, k: nat)
    requires w <= k && Leads(Scene(0, 0), Scene(n, w), k)
    ensures Leads(Scene(0, 0), Scene(n + w, 0), k)
    decreases w
  {
    if w > 0 {
      Land(n, w, k);
      LeadsOn(Scene(0, 0), Scene(n, w), Scene(n + 1, w - 1), k);
      Drain(n + 1, w - 1, k);
    }
  }

  /** For every k > 0 some run with at most k Saves in flight stores exactly 999 + k bookmarks. */
  lemma TheBoundIsAttained(k: nat)
    requires 0 < k
    ensures exists acts ::
      Within(START, acts, 0, "job", k) && |Owned(Run(START, acts).db, 0, "job")| == MAX_SAVED - 1 + k
  {
    Crowd(MAX_SAVED - 1, k, k);
    Drain(MAX_SAVED - 1, k, k);
    assert Scene(0, 0) == START;
    SceneSizes(MAX_SAVED - 1 + k, 0);
    var acts :| Run(START, acts) == Scene(MAX_SAVED - 1 + k, 0) && Within(START, acts, 0, "job", k);
  }
}
