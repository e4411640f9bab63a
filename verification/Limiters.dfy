/**
 The limiters that key the sliding window by email or by subject: one fails open, the other closed.
 What each promises when Redis refuses commands or loses answers.
 */
module Limiters {
  import opened Common
  import opened RateLimit

  /** One attempt; `redis` is what becomes of its script call. */
  datatype Attempt = Attempt(subject: string, r: Request, redis: Reply)

  type Keys = map<string, Key>

  function KeyOf(keys: Keys, subject: string): Key {
    if subject in keys then keys[subject] else Key(map[], 0)
  }

  function After(c: Config, keys: Keys, a: Attempt): Keys {
    if a.redis.Refuses? then keys else keys[a.subject := Script(c, KeyOf(keys, a.subject), a.r)]
  }

  predicate FailClosed(c: Config, keys: Keys, a: Attempt) {
    a.redis.Answers? && Admits(c, KeyOf(keys, a.subject), a.r)
  }

  predicate FailOpen(c: Config, keys: Keys, a: Attempt) {
    !a.redis.Answers? || Admits(c, KeyOf(keys, a.subject), a.r)
  }

  class Limiter {
    const config: Config
    const configured: bool       // false: no Redis client
    var keys: Keys

    constructor (config: Config, configured: bool)
      ensures this.config == config && this.configured == configured && keys == map[]
    {
      this.config, this.configured := config, configured;
      keys := map[];
    }

    /** Script.Run: None is an error. */
    method RunScript(a: Attempt) returns (res: Option<int>)
      requires config.Ok()
      modifies this`keys
      ensures keys == After(config, old(keys), a)
      ensures res.Some? <==> a.redis.Answers?
      ensures res.Some? ==> (res.value >= 0 <==> Admits(config, KeyOf(old(keys), a.subject), a.r))
    {
      if a.redis.Refuses? { return None; }
      var k, count := EvalScript(config, KeyOf(keys, a.subject), a.r);
      keys := keys[a.subject := k];
      res := Some(count);
      if a.redis.LosesAnswer? { res := None; }
    }

    /** EmailLimiter.Allow */
    method AllowEmail(a: Attempt) returns (allowed: bool)
      requires config.Ok()
      modifies this`keys
      ensures allowed <==> !configured || FailOpen(config, old(keys), a)
      ensures keys == if configured then After(config, old(keys), a) else old(keys)
      ensures !configured || a.redis != Answers ==> allowed
      ensures configured && a.redis == Answers ==>
        var k := if a.subject in old(keys) then old(keys)[a.subject] else Key(map[], 0);
        var live := if a.r.at / 1_000_000 <= k.deadlineMillis then k.entries else map[];
        allowed <==> |set m | m in live && live[m] > a.r.now - config.window| < config.limit
    {
      Counted(config, KeyOf(keys, a.subject), a.r);
      if !configured { return true; }
      var res := RunScript(a);
      match res
      case None => allowed := true;
      case Some(n) => allowed := n >= 0;
    }

    /** SubjectLimiter.Handler around its `allow`; an empty subject is refused before Redis is asked. */
    method AllowSubject(a: Attempt) returns (allowed: bool)
      requires config.Ok()
      modifies this`keys
      ensures allowed <==> !configured || (a.subject != "" && FailClosed(config, old(keys), a))
      ensures keys == if configured && a.subject != "" then After(config, old(keys), a) else old(keys)
      ensures configured && (a.subject == "" || a.redis != Answers) ==> !allowed
      ensures configured && a.subject != "" && a.redis == Answers ==>
        var k := if a.subject in old(keys) then old(keys)[a.subject] else Key(map[], 0);
        var live := if a.r.at / 1_000_000 <= k.deadlineMillis then k.entries else map[];
        allowed <==> |set m | m in live && live[m] > a.r.now - config.window| < config.limit
    {
      Counted(config, KeyOf(keys, a.subject), a.r);
      if !configured { return true; }
      if a.subject == "" { return false; }
      var res := RunScript(a);
      match res
      case None => allowed := false;
      case Some(n) => allowed := n >= 0;
    }
  }

  // ---------------------------------------------------------------- one subject's view of a mixed run

  /** The table before the i-th attempt of a run. */
  function KeysAt(c: Config, keys: Keys, attempts: seq<Attempt>, i: nat): Keys
    requires i <= |attempts|
    decreases i
  {
    if i == 0 then keys else After(c, KeysAt(c, keys, attempts, i - 1), attempts[i - 1])
  }

  /** The attempts of `subject` whose script runs, in order. */
  function Reaching(attempts: seq<Attempt>, subject: string): seq<Request>
    decreases |attempts|
  {
    if attempts == [] then []
    else
      var rest, a := Reaching(attempts[..|attempts| - 1], subject), attempts[|attempts| - 1];
      if a.subject == subject && !a.redis.Refuses? then rest + [a.r] else rest
  }

  /** The single-key machine's state after a run. */
  function KeyAfter(c: Config, k: Key, rs: seq<Request>): Key
    decreases |rs|
  {
    if rs == [] then k else Script(c, KeyAfter(c, k, rs[..|rs| - 1]), rs[|rs| - 1])
  }

  lemma {:induction false} KeyAfterFront(c: Config, k: Key, rs: seq<Request>)
    requires rs != []
    ensures KeyAfter(c, k, rs) == KeyAfter(c, Script(c, k, rs[0]), rs[1..])
    decreases |rs|
  {
    if |rs| > 1 {
      KeyAfterFront(c, k, rs[..|rs| - 1]);
      assert rs[..|rs| - 1][1..] == rs[1..][..|rs| - 2];
    } else {
      assert rs[..0] == [];
    }
  }

  lemma {:induction false} DecisionAt(c: Config, k: Key, rs: seq<Request>, i: nat)
    requires i < |rs|
    ensures ScriptRun(c, k, rs)[i] == Admits(c, KeyAfter(c, k, rs[..i]), rs[i])
    decreases i
  {
    if i > 0 {
      DecisionAt(c, Script(c, k, rs[0]), rs[1..], i - 1);
      KeyAfterFront(c, k, rs[..i]);
      assert rs[..i][1..] == rs[1..][..i - 1];
    }
  }

  /** What other subjects do, and calls that Redis refuses, leave a subject's key alone. */
  lemma {:induction false} OneSubjectsKey(c: Config, keys: Keys, attempts: seq<Attempt>, subject: string, i: nat)
    requires i <= |attempts|
    ensures KeyOf(KeysAt(c, keys, attempts, i), subject)
      == KeyAfter(c, KeyOf(keys, subject), Reaching(attempts[..i], subject))
    decreases i
  {
    if i > 0 {
      OneSubjectsKey(c, keys, attempts, subject, i - 1);
      assert attempts[..i][..i - 1] == attempts[..i - 1];
      var rest, r := Reaching(attempts[..i - 1], subject), attempts[i - 1].r;
      assert (rest + [r])[..|rest|] == rest;
    }
  }

  lemma {:induction false} ReachingPrefix(attempts: seq<Attempt>, subject: string, i: nat)
    requires i < |attempts| && attempts[i].subject == subject && !attempts[i].redis.Refuses?
    ensures var n, rs := |Reaching(attempts[..i], subject)|, Reaching(attempts, subject);
      n < |rs| && rs[n] == attempts[i].r && rs[..n] == Reaching(attempts[..i], subject)
    decreases |attempts|
  {
    var last := |attempts| - 1;
    if i < last {
      ReachingPrefix(attempts[..last], subject, i);
      assert attempts[..last][..i] == attempts[..i];
      var n, rest := |Reaching(attempts[..i], subject)|, Reaching(attempts[..last], subject);
      assert forall x: Request :: (rest + [x])[..n] == rest[..n];
    }
  }

  /** In a mixed run a subject is decided as if its attempts had the script to themselves. */
  lemma SubjectsAreIndependent(c: Config, attempts: seq<Attempt>, i: nat)
    requires i < |attempts| && !attempts[i].redis.Refuses?
    ensures var s := attempts[i].subject; var n := |Reaching(attempts[..i], s)|;
      && n < |Reaching(attempts, s)|
      && Reaching(attempts, s)[n] == attempts[i].r
      && ScriptRun(c, Key(map[], 0), Reaching(attempts, s))[n]
         == Admits(c, KeyOf(KeysAt(c, map[], attempts, i), s), attempts[i].r)
  {
    var s := attempts[i].subject;
    OneSubjectsKey(c, map[], attempts, s, i);
    ReachingPrefix(attempts, s, i);
    DecisionAt(c, Key(map[], 0), Reaching(attempts, s), |Reaching(attempts[..i], s)|);
  }

  // ---------------------------------------------------------------- bounds under outages

  /** The attempts of a subject whose clock reads within (lo, hi]. */
  function AttemptsIn(attempts: seq<Attempt>, subject: string, lo: int, hi: int): set<nat> {
    set i: nat | i < |attempts| && attempts[i].subject == subject && lo < attempts[i].r.now <= hi
  }

  function AllowedClosed(c: Config, attempts: seq<Attempt>, subject: string, lo: int, hi: int): set<nat> {
    set i | i in AttemptsIn(attempts, subject, lo, hi) && FailClosed(c, KeysAt(c, map[], attempts, i), attempts[i])
  }

  function AllowedOpen(c: Config, attempts: seq<Attempt>, subject: string, lo: int, hi: int): set<nat> {
    set i | i in AttemptsIn(attempts, subject, lo, hi) && FailOpen(c, KeysAt(c, map[], attempts, i), attempts[i])
  }

  /** Those that got no answer from Redis. */
  function Unanswered(attempts: seq<Attempt>, subject: string, lo: int, hi: int): set<nat> {
    set i | i in AttemptsIn(attempts, subject, lo, hi) && !attempts[i].redis.Answers?
  }

  /** An attempt's position among those of its subject whose script runs. */
  function Position(attempts: seq<Attempt>, i: nat): nat
    requires i < |attempts|
  {
    |Reaching(attempts[..i], attempts[i].subject)|
  }

  lemma AllowedIsAdmitted(c: Config, attempts: seq<Attempt>, subject: string, i: nat, lo: int, hi: int)
    requires i in AllowedClosed(c, attempts, subject, lo, hi)
    ensures Position(attempts, i) in AdmittedIn(c, 0, Reaching(attempts, subject), lo, hi)
  {
    SubjectsAreIndependent(c, attempts, i);
  }

  lemma PositionsDiffer(attempts: seq<Attempt>, i: nat, j: nat)
    requires i < j < |attempts| && attempts[i].subject == attempts[j].subject && !attempts[i].redis.Refuses?
    ensures Position(attempts, i) < Position(attempts, j)
  {
    ReachingPrefix(attempts[..j], attempts[i].subject, i);
    assert attempts[..j][..i] == attempts[..i];
  }

  /** The earlier attempts of attempt `i`'s subject that the script admitted in the window ending with it. */
  function AdmittedEarlier(c: Config, attempts: seq<Attempt>, i: nat): set<nat>
    requires i < |attempts|
  {
    set j: nat | j < i && attempts[j].subject == attempts[i].subject && !attempts[j].redis.Refuses?
      && Admits(c, KeyOf(KeysAt(c, map[], attempts, j), attempts[j].subject), attempts[j].r)
      && attempts[j].r.now > attempts[i].r.now - c.window
  }

  lemma {:induction false} ReachingSource(attempts: seq<Attempt>, subject: string, n: nat) returns (j: nat)
    requires n < |Reaching(attempts, subject)|
    ensures j < |attempts| && attempts[j].subject == subject && !attempts[j].redis.Refuses?
    ensures Position(attempts, j) == n
    decreases |attempts|
  {
    var last := |attempts| - 1;
    if n < |Reaching(attempts[..last], subject)| {
      j := ReachingSource(attempts[..last], subject, n);
      assert attempts[..last][..j] == attempts[..j];
    } else {
      j := last;
    }
  }

  /** The same among the positions of the subject's own run. */
  function EarlierPositions(c: Config, attempts: seq<Attempt>, i: nat): set<nat>
    requires i < |attempts| && Position(attempts, i) < |Reaching(attempts, attempts[i].subject)|
  {
    var rs := Reaching(attempts, attempts[i].subject);
    AdmittedBefore(c, ScriptRun(c, Key(map[], 0), rs), rs, Position(attempts, i))
  }

  lemma EarlierHasPosition(c: Config, attempts: seq<Attempt>, i: nat, j: nat)
    requires i < |attempts| && !attempts[i].redis.Refuses? && j in AdmittedEarlier(c, attempts, i)
    ensures Position(attempts, i) < |Reaching(attempts, attempts[i].subject)|
    ensures Position(attempts, j) in EarlierPositions(c, attempts, i)
  {
    SubjectsAreIndependent(c, attempts, i);
    SubjectsAreIndependent(c, attempts, j);
    PositionsDiffer(attempts, j, i);
  }

  lemma PositionIsEarlier(c: Config, attempts: seq<Attempt>, i: nat, n: nat) returns (j: nat)
    requires i < |attempts| && !attempts[i].redis.Refuses?
    requires Position(attempts, i) < |Reaching(attempts, attempts[i].subject)|
    requires n in EarlierPositions(c, attempts, i)
    ensures j in AdmittedEarlier(c, attempts, i) && Position(attempts, j) == n
  {
    SubjectsAreIndependent(c, attempts, i);
    j := ReachingSource(attempts, attempts[i].subject, n);
    SubjectsAreIndependent(c, attempts, j);
    if i < j { PositionsDiffer(attempts, i, j); }
  }

  lemma EarlierIsACount(c: Config, attempts: seq<Attempt>, i: nat)
    requires i < |attempts| && !attempts[i].redis.Refuses?
    ensures Position(attempts, i) < |Reaching(attempts, attempts[i].subject)|
    ensures |AdmittedEarlier(c, attempts, i)| == |EarlierPositions(c, attempts, i)|
  {
    SubjectsAreIndependent(c, attempts, i);
    var js, ns := AdmittedEarlier(c, attempts, i), EarlierPositions(c, attempts, i);
    var f := map j | j in js :: Position(attempts, j);
    forall j | j in js ensures f[j] in ns { EarlierHasPosition(c, attempts, i, j); }
    forall j, k | j in js && k in js && f[j] == f[k] ensures j == k {
      if j < k { PositionsDiffer(attempts, j, k); }
      if k < j { PositionsDiffer(attempts, k, j); }
    }
    forall m | m in ns ensures exists j :: j in js && f[j] == m {
      var j := PositionIsEarlier(c, attempts, i, m);
      assert f[j] == m;
    }
    Bijection(js, f, ns);
  }

  /**
   In any mix with other subjects and outages, an undelayed script admits an attempt exactly if fewer
   than `limit` earlier attempts of its subject were admitted in the window that ends with it.
   */
  lemma AnsweredDecision(c: Config, attempts: seq<Attempt>, i: nat)
    requires c.Ok() && i < |attempts| && attempts[i].redis.Answers?
    requires WellTimed(Reaching(attempts, attempts[i].subject), 0)
    ensures var keys := KeysAt(c, map[], attempts, i);
      && (FailOpen(c, keys, attempts[i]) <==> |AdmittedEarlier(c, attempts, i)| < c.limit)
      && (FailClosed(c, keys, attempts[i]) <==> |AdmittedEarlier(c, attempts, i)| < c.limit)
  {
    var rs := Reaching(attempts, attempts[i].subject);
    SubjectsAreIndependent(c, attempts, i);
    EarlierIsACount(c, attempts, i);
    DecisionByCount(c, 0, rs, Position(attempts, i));
  }

  /**
   Failing closed, the limiter bounds every window of every subject whatever Redis does, in any mix
   with other subjects, less the delay between a clock reading and its script.
   */
  lemma FailClosedIsBounded(c: Config, delta: int, attempts: seq<Attempt>, subject: string, t: int, k: nat)
    requires c.Ok() && WellTimed(Reaching(attempts, subject), delta)
    ensures |AllowedClosed(c, attempts, subject, SpanStart(c, delta, t, k), t)| <= k * Cap(c)
  {
    ScriptAdmissionsAreBounded(c, 0, delta, Reaching(attempts, subject), t, k);
    AllowedCount(c, attempts, subject, SpanStart(c, delta, t, k), t);
  }

  lemma AllowedCount(c: Config, attempts: seq<Attempt>, subject: string, lo: int, hi: int)
    ensures |AllowedClosed(c, attempts, subject, lo, hi)| <= |AdmittedIn(c, 0, Reaching(attempts, subject), lo, hi)|
  {
    var allowed := AllowedClosed(c, attempts, subject, lo, hi);
    var f := map i | i in allowed :: Position(attempts, i);
    forall i | i in allowed ensures f[i] in AdmittedIn(c, 0, Reaching(attempts, subject), lo, hi) {
      AllowedIsAdmitted(c, attempts, subject, i, lo, hi);
    }
    forall i, j | i in allowed && j in allowed && f[i] == f[j] ensures i == j {
      if i < j { PositionsDiffer(attempts, i, j); }
      if j < i { PositionsDiffer(attempts, j, i); }
    }
    Injection(allowed, f, AdmittedIn(c, 0, Reaching(attempts, subject), lo, hi));
  }

  lemma OpenSplits(c: Config, attempts: seq<Attempt>, subject: string, lo: int, hi: int)
    ensures |AllowedOpen(c, attempts, subject, lo, hi)|
            <= |AllowedClosed(c, attempts, subject, lo, hi)| + |Unanswered(attempts, subject, lo, hi)|
  {
    var closed, out := AllowedClosed(c, attempts, subject, lo, hi), Unanswered(attempts, subject, lo, hi);
    SubsetSize(AllowedOpen(c, attempts, subject, lo, hi), closed + out);
    UnionSize(closed, out);
  }

  /** Failing open, the excess over that bound is at most the attempts that Redis left unanswered, each counted. */
  lemma FailOpenExceedsByOutages(c: Config, delta: int, attempts: seq<Attempt>, subject: string, t: int, k: nat)
    requires c.Ok() && WellTimed(Reaching(attempts, subject), delta)
    ensures |AllowedOpen(c, attempts, subject, SpanStart(c, delta, t, k), t)|
            <= k * Cap(c) + |Unanswered(attempts, subject, SpanStart(c, delta, t, k), t)|
  {
    FailClosedIsBounded(c, delta, attempts, subject, t, k);
    OpenSplits(c, attempts, subject, SpanStart(c, delta, t, k), t);
  }
}
