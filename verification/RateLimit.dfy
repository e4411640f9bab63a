/**
 The sliding-window rate limiter: the script over one sorted set, and the unbounded log of
 admissions that it stands for.  Scores and clock are exact nanoseconds.
 */
module RateLimit {
  import opened Common

  type Member = nat

  const NANOS_PER_MILLI := 1_000_000

  /** Limit and window length in nanoseconds. */
  datatype Config = Config(limit: int, window: int)
  {
    predicate Ok() { window > 0 }

    /** `math.ceil(windowNanos / 1000000)`. */
    function TtlMillis(): int { (window + NANOS_PER_MILLI - 1) / NANOS_PER_MILLI }
  }

  /** The Redis key: it exists exactly when the set is nonempty. */
  datatype Key = Key(entries: map<Member, int>, deadlineMillis: int)

  /** The client reads its clock at `now`; the script runs at `at`, after the network call. */
  datatype Request = Request(now: int, at: int, member: Member)

  // ---------------------------------------------------------------- the script

  /** What a command sees at `now`: Redis drops a key once its clock has passed the deadline. */
  function Present(k: Key, now: int): map<Member, int> {
    if now / NANOS_PER_MILLI > k.deadlineMillis then map[] else k.entries
  }

  /** The entries with score above `lo`. */
  function Above(log: map<Member, int>, lo: int): map<Member, int> {
    map m | m in log && log[m] > lo :: log[m]
  }

  function Trimmed(c: Config, k: Key, r: Request): map<Member, int> {
    Above(Present(k, r.at), r.now - c.window)
  }

  predicate Admits(c: Config, k: Key, r: Request) {
    |Trimmed(c, k, r)| < c.limit
  }

  /** The guard spelled out: of the unexpired key's scores, those within a window of the reading count. */
  lemma Counted(c: Config, k: Key, r: Request)
    ensures var live := if r.at / 1_000_000 <= k.deadlineMillis then k.entries else map[];
      Admits(c, k, r) <==> |set m | m in live && live[m] > r.now - c.window| < c.limit
  {
    var live := if r.at / 1_000_000 <= k.deadlineMillis then k.entries else map[];
    assert Trimmed(c, k, r).Keys == set m | m in live && live[m] > r.now - c.window;
    assert |Trimmed(c, k, r)| == |Trimmed(c, k, r).Keys|;
  }

  function Script(c: Config, k: Key, r: Request): Key {
    var kept := Trimmed(c, k, r);
    Key(if Admits(c, k, r) then kept[r.member := r.now] else kept, r.at / NANOS_PER_MILLI + c.TtlMillis())
  }

  /** ZREMRANGEBYSCORE from minus infinity. */
  method RemoveUpTo(entries: map<Member, int>, lo: int) returns (kept: map<Member, int>)
    ensures kept == Above(entries, lo)
  {
    var stale := set m | m in entries && entries[m] <= lo;
    kept := entries - stale;
  }

  /** The script's commands in order, on one key; it answers -1 when saturated, else the new count. */
  method EvalScript(c: Config, k: Key, r: Request) returns (after: Key, count: int)
    requires c.Ok()
    ensures after == Script(c, k, r)
    ensures count == if Admits(c, k, r) then |Trimmed(c, k, r)| + 1 else -1
  {
    var entries := k.entries;
    if r.at / NANOS_PER_MILLI > k.deadlineMillis {
      entries := map[];
    }
    entries := RemoveUpTo(entries, r.now - c.window);
    var deadline := r.at / NANOS_PER_MILLI + c.TtlMillis();
    count := |entries|;
    if count >= c.limit {
      return Key(entries, deadline), -1;
    }
    after := Key(entries[r.member := r.now], deadline);
    count := count + 1;
  }

  /** The limiter object and its sorted set; nil-client and Redis-error paths are the callers'. */
  class SlidingWindow {
    const config: Config
    var entries: map<Member, int>
    var deadlineMillis: int

    function State(): Key
      reads this
    {
      Key(entries, deadlineMillis)
    }

    constructor (config: Config)
      ensures this.config == config && entries == map[]
    {
      this.config := config;
      entries := map[];
      deadlineMillis := 0;
    }

    /** The script against this object's key, in place. */
    method RunScript(r: Request) returns (count: int)
      requires config.Ok()
      modifies this`entries, this`deadlineMillis
      ensures State() == Script(config, old(State()), r)
      ensures count == if Admits(config, old(State()), r) then |Trimmed(config, old(State()), r)| + 1 else -1
    {
      var after;
      after, count := EvalScript(config, State(), r);
      entries, deadlineMillis := after.entries, after.deadlineMillis;
    }

    method AllowSlidingWindow(r: Request) returns (allowed: bool)
      requires config.Ok()
      modifies this`entries, this`deadlineMillis
      ensures State() == Script(config, old(State()), r)
      ensures allowed <==> Admits(config, old(State()), r)
      ensures var live := if r.at / 1_000_000 <= old(deadlineMillis) then old(entries) else map[];
        allowed <==> |set m | m in live && live[m] > r.now - config.window| < config.limit
    {
      Counted(config, State(), r);
      var res := RunScript(r);
      allowed := res >= 0;
    }
  }

  // ---------------------------------------------------------------- the reference: a log of all admissions

  predicate LogAdmits(c: Config, log: map<Member, int>, now: int) {
    |Above(log, now - c.window)| < c.limit
  }

  function LogAfter(c: Config, log: map<Member, int>, r: Request): map<Member, int> {
    if LogAdmits(c, log, r.now) then log[r.member := r.now] else log
  }

  /** Both machines over a whole run, with the decisions they make. */
  function ScriptRun(c: Config, k: Key, rs: seq<Request>): (d: seq<bool>)
    ensures |d| == |rs|
    decreases |rs|
  {
    if rs == [] then [] else [Admits(c, k, rs[0])] + ScriptRun(c, Script(c, k, rs[0]), rs[1..])
  }

  function LogRun(c: Config, log: map<Member, int>, rs: seq<Request>): (d: seq<bool>)
    ensures |d| == |rs|
    decreases |rs|
  {
    if rs == [] then [] else [LogAdmits(c, log, rs[0].now)] + LogRun(c, LogAfter(c, log, rs[0]), rs[1..])
  }

  function FinalLog(c: Config, log: map<Member, int>, rs: seq<Request>): map<Member, int>
    decreases |rs|
  {
    if rs == [] then log else FinalLog(c, LogAfter(c, log, rs[0]), rs[1..])
  }

  ghost predicate Distinct(rs: seq<Request>) {
    forall i, j :: 0 <= i < j < |rs| ==> rs[i].member != rs[j].member
  }

  /** Scripts run in the order of the list, each at most `delta` after its clock was read; no member repeats. */
  ghost predicate WellTimed(rs: seq<Request>, delta: int) {
    && (forall i :: 0 <= i < |rs| ==> rs[i].now <= rs[i].at <= rs[i].now + delta)
    && (forall i, j :: 0 <= i < j < |rs| ==> rs[i].at <= rs[j].at)
    && Distinct(rs)
  }

  // ---------------------------------------------------------------- what the sorted set keeps of the log

  /** `k` holds, of the log up to `last`, at least everything still inside the window. */
  ghost predicate Represents(c: Config, k: Key, log: map<Member, int>, last: int) {
    && (forall m :: m in k.entries ==> m in log && log[m] == k.entries[m])
    && (forall m :: m in log ==> log[m] <= last && (log[m] > last - c.window ==> m in k.entries))
    && (k.entries != map[] ==> k.deadlineMillis == last / NANOS_PER_MILLI + c.TtlMillis())
  }

  /**
   Neither trimming nor key expiry drops an entry of the window before the instant at which the script
   runs; and nothing older than the window of the clock reading survives.
   */
  lemma TrimmedCovers(c: Config, k: Key, log: map<Member, int>, last: int, r: Request)
    requires c.Ok() && Represents(c, k, log, last) && last <= r.at && r.now <= r.at
    ensures forall m :: m in log && log[m] > r.at - c.window ==> m in Trimmed(c, k, r)
    ensures forall m :: m in Trimmed(c, k, r) ==> m in log && Trimmed(c, k, r)[m] == log[m] > r.now - c.window
  {
    if r.at / NANOS_PER_MILLI > k.deadlineMillis && k.entries != map[] {
      assert r.at - last > c.window;
    }
  }

  /** Without a delay the trimmed set is exactly the log's window. */
  lemma TrimmedIsTheWindow(c: Config, k: Key, log: map<Member, int>, last: int, r: Request)
    requires c.Ok() && Represents(c, k, log, last) && last <= r.at == r.now
    ensures Trimmed(c, k, r) == Above(log, r.now - c.window)
  {
    TrimmedCovers(c, k, log, last, r);
  }

  /** The log of what the script admits. */
  function Admitted(c: Config, k: Key, log: map<Member, int>, r: Request): map<Member, int> {
    if Admits(c, k, r) then log[r.member := r.now] else log
  }

  lemma RepresentsStep(c: Config, k: Key, log: map<Member, int>, last: int, r: Request)
    requires c.Ok() && Represents(c, k, log, last) && last <= r.at && r.now <= r.at && r.member !in log
    ensures Represents(c, Script(c, k, r), Admitted(c, k, log, r), r.at)
  {
    TrimmedCovers(c, k, log, last, r);
  }

  // ---------------------------------------------------------------- without delays the script decides as the log

  lemma {:induction false} RefinesFrom(c: Config, k: Key, log: map<Member, int>, last: int, rs: seq<Request>)
    requires c.Ok() && Represents(c, k, log, last) && WellTimed(rs, 0)
    requires forall i :: 0 <= i < |rs| ==> last <= rs[i].at && rs[i].member !in log
    ensures ScriptRun(c, k, rs) == LogRun(c, log, rs)
    decreases |rs|
  {
    if rs != [] {
      TrimmedIsTheWindow(c, k, log, last, rs[0]);
      RepresentsStep(c, k, log, last, rs[0]);
      RefinesFrom(c, Script(c, k, rs[0]), LogAfter(c, log, rs[0]), rs[0].at, rs[1..]);
    }
  }

  /** The trimmed, expiring set decides every request as the unbounded log does. */
  lemma ScriptRefinesLog(c: Config, deadline: int, rs: seq<Request>)
    requires c.Ok() && WellTimed(rs, 0)
    ensures ScriptRun(c, Key(map[], deadline), rs) == LogRun(c, map[], rs)
  {
    if rs != [] {
      RefinesFrom(c, Key(map[], deadline), map[], rs[0].at, rs);
    }
  }

  // ---------------------------------------------------------------- every window is bounded

  function Within(log: map<Member, int>, lo: int, hi: int): set<Member> {
    set m | m in log && lo < log[m] <= hi
  }

  /** The admissions of the window of this width that ends at `t`. */
  function Window(width: int, log: map<Member, int>, t: int): set<Member> {
    Within(log, t - width, t)
  }

  function Cap(c: Config): nat {
    if c.limit < 0 then 0 else c.limit
  }

  /** No window of this width holds more than the limit, wherever it ends. */
  ghost predicate Bounded(c: Config, width: int, log: map<Member, int>) {
    forall t :: |Window(width, log, t)| <= Cap(c)
  }

  lemma EmptyIsBounded(c: Config, width: int)
    ensures Bounded(c, width, map[])
  {
    forall t ensures |Window(width, map[], t)| <= Cap(c) { assert Window(width, map[], t) == {}; }
  }

  lemma PlusOne(w: set<Member>, open: map<Member, int>, x: Member)
    requires w <= open.Keys + {x}
    ensures |w| <= |open| + 1
  {
    SubsetSize(w, open.Keys + {x});
    UnionSize(open.Keys, {x});
    assert |open| == |open.Keys|;
  }

  /**
   An admission keeps every window bounded if the set it was counted against holds whatever shares a
   window of that width with it.
   */
  lemma AdmissionKeepsBound(c: Config, width: int, log: map<Member, int>, open: map<Member, int>, r: Request)
    requires Bounded(c, width, log) && |open| < c.limit
    requires forall m :: m in log && log[m] > r.now - width ==> m in open
    ensures Bounded(c, width, log[r.member := r.now])
  {
    var after := log[r.member := r.now];
    forall t ensures |Window(width, after, t)| <= Cap(c) {
      var w := Window(width, after, t);
      if t - width < r.now <= t {
        forall m | m in w ensures m in open.Keys + {r.member} { }
        PlusOne(w, open, r.member);
      } else {
        SubsetSize(w, Window(width, log, t));
      }
    }
  }

  lemma {:induction false} LogBoundedRun(c: Config, log: map<Member, int>, rs: seq<Request>)
    requires Bounded(c, c.window, log)
    ensures Bounded(c, c.window, FinalLog(c, log, rs))
    decreases |rs|
  {
    if rs != [] {
      if LogAdmits(c, log, rs[0].now) {
        AdmissionKeepsBound(c, c.window, log, Above(log, rs[0].now - c.window), rs[0]); }
      LogBoundedRun(c, LogAfter(c, log, rs[0]), rs[1..]);
    }
  }

  /** The log admits at most `limit` in (t - window, t], for every instant t and in whatever order requests come. */
  lemma EveryWindowIsBounded(c: Config, rs: seq<Request>, t: int)
    ensures |Window(c.window, FinalLog(c, map[], rs), t)| <= Cap(c)
  {
    EmptyIsBounded(c, c.window);
    LogBoundedRun(c, map[], rs);
  }

  /** Everything the script admits in a run, on top of `log`. */
  function AdmittedLog(c: Config, k: Key, log: map<Member, int>, rs: seq<Request>): map<Member, int>
    decreases |rs|
  {
    if rs == [] then log else AdmittedLog(c, Script(c, k, rs[0]), Admitted(c, k, log, rs[0]), rs[1..])
  }

  lemma {:induction false} ScriptBoundedRun(c: Config, delta: int, k: Key, log: map<Member, int>, last: int,
    rs: seq<Request>)
    requires c.Ok() && Represents(c, k, log, last) && Bounded(c, c.window - delta, log) && WellTimed(rs, delta)
    requires forall i :: 0 <= i < |rs| ==> last <= rs[i].at && rs[i].member !in log
    ensures Bounded(c, c.window - delta, AdmittedLog(c, k, log, rs))
    decreases |rs|
  {
    if rs != [] {
      var r := rs[0];
      TrimmedCovers(c, k, log, last, r);
      RepresentsStep(c, k, log, last, r);
      if Admits(c, k, r) { AdmissionKeepsBound(c, c.window - delta, log, Trimmed(c, k, r), r); }
      ScriptBoundedRun(c, delta, Script(c, k, r), Admitted(c, k, log, r), r.at, rs[1..]);
    }
  }

  /** `k` times `x`, by repeated addition. */
  function Times(k: nat, x: int): int {
    if k == 0 then 0 else Times(k - 1, x) + x
  }

  lemma {:induction false} TimesIsProduct(k: nat, x: int)
    ensures Times(k, x) == k * x
  {
    if k > 0 { TimesIsProduct(k - 1, x); }
  }

  lemma {:induction false} WindowsBound(c: Config, width: int, log: map<Member, int>, t: int, k: nat)
    requires Bounded(c, width, log)
    ensures |Within(log, t - Times(k, width), t)| <= Times(k, Cap(c))
    decreases k
  {
    if k == 0 {
      assert Within(log, t, t) == {};
    } else {
      var mid := t - Times(k - 1, width);
      WindowsBound(c, width, log, t, k - 1);
      assert |Window(width, log, mid)| <= Cap(c);
      WindowsAdd(log, mid - width, mid, t);
    }
  }

  /** `k` adjacent windows hold at most `k * limit`. */
  lemma MultiWindow(c: Config, width: int, log: map<Member, int>, t: int, k: nat)
    requires Bounded(c, width, log)
    ensures |Within(log, t - k * width, t)| <= k * Cap(c)
  {
    WindowsBound(c, width, log, t, k);
    TimesIsProduct(k, width);
    TimesIsProduct(k, Cap(c));
  }

  /** The log admits at most `k * limit` in (t - k * window, t]. */
  lemma EveryMultiWindowIsBounded(c: Config, rs: seq<Request>, t: int, k: nat)
    ensures |Within(FinalLog(c, map[], rs), t - k * c.window, t)| <= k * Cap(c)
  {
    forall u ensures |Window(c.window, FinalLog(c, map[], rs), u)| <= Cap(c) { EveryWindowIsBounded(c, rs, u); }
    MultiWindow(c, c.window, FinalLog(c, map[], rs), t, k);
  }

  lemma WindowsAdd(log: map<Member, int>, lo: int, mid: int, hi: int)
    ensures |Within(log, lo, hi)| <= |Within(log, lo, mid)| + |Within(log, mid, hi)|
  {
    var early, late := Within(log, lo, mid), Within(log, mid, hi);
    SubsetSize(Within(log, lo, hi), early + late);
    UnionSize(early, late);
  }

  lemma {:induction false} FinalLogKeeps(c: Config, log: map<Member, int>, rs: seq<Request>, m: Member)
    requires forall i :: 0 <= i < |rs| ==> rs[i].member != m
    ensures m in FinalLog(c, log, rs) <==> m in log
    ensures m in log ==> FinalLog(c, log, rs)[m] == log[m]
    decreases |rs|
  {
    if rs != [] { FinalLogKeeps(c, LogAfter(c, log, rs[0]), rs[1..], m); }
  }

  /** `FinalLog` holds exactly the requests that `LogRun` admits, at their own times. */
  lemma {:induction false} FinalLogIsTheAdmitted(c: Config, log: map<Member, int>, rs: seq<Request>, i: nat)
    requires Distinct(rs) && i < |rs|
    requires forall j :: 0 <= j < |rs| ==> rs[j].member !in log
    ensures rs[i].member in FinalLog(c, log, rs) <==> LogRun(c, log, rs)[i]
    ensures LogRun(c, log, rs)[i] ==> FinalLog(c, log, rs)[rs[i].member] == rs[i].now
    decreases |rs|
  {
    var next := LogAfter(c, log, rs[0]);
    if i == 0 {
      FinalLogKeeps(c, next, rs[1..], rs[0].member);
    } else {
      FinalLogIsTheAdmitted(c, next, rs[1..], i - 1);
    }
  }

  lemma {:induction false} AdmittedLogKeeps(c: Config, k: Key, log: map<Member, int>, rs: seq<Request>, m: Member)
    requires m in log && forall i :: 0 <= i < |rs| ==> rs[i].member != m
    ensures m in AdmittedLog(c, k, log, rs) && AdmittedLog(c, k, log, rs)[m] == log[m]
    decreases |rs|
  {
    if rs != [] { AdmittedLogKeeps(c, Script(c, k, rs[0]), Admitted(c, k, log, rs[0]), rs[1..], m); }
  }

  lemma {:induction false} AdmittedLogHas(c: Config, k: Key, log: map<Member, int>, rs: seq<Request>, i: nat)
    requires Distinct(rs) && i < |rs| && ScriptRun(c, k, rs)[i]
    ensures rs[i].member in AdmittedLog(c, k, log, rs) && AdmittedLog(c, k, log, rs)[rs[i].member] == rs[i].now
    decreases |rs|
  {
    if i == 0 {
      AdmittedLogKeeps(c, Script(c, k, rs[0]), Admitted(c, k, log, rs[0]), rs[1..], rs[0].member);
    } else {
      AdmittedLogHas(c, Script(c, k, rs[0]), Admitted(c, k, log, rs[0]), rs[1..], i - 1);
    }
  }

  /** The positions in a run at which the script admits a request whose clock reads within (lo, hi]. */
  function AdmittedIn(c: Config, deadline: int, rs: seq<Request>, lo: int, hi: int): set<nat> {
    var d := ScriptRun(c, Key(map[], deadline), rs);
    set i: nat | i < |rs| && d[i] && lo < rs[i].now <= hi
  }

  lemma AdmittedCount(c: Config, deadline: int, rs: seq<Request>, lo: int, hi: int)
    requires Distinct(rs)
    ensures |AdmittedIn(c, deadline, rs, lo, hi)| <= |Within(AdmittedLog(c, Key(map[], deadline), map[], rs), lo, hi)|
  {
    var admitted := AdmittedIn(c, deadline, rs, lo, hi);
    var f := map i | i in admitted :: rs[i].member;
    forall i | i in admitted ensures f[i] in Within(AdmittedLog(c, Key(map[], deadline), map[], rs), lo, hi) {
      AdmittedLogHas(c, Key(map[], deadline), map[], rs, i);
    }
    Injection(admitted, f, Within(AdmittedLog(c, Key(map[], deadline), map[], rs), lo, hi));
  }

  /** Where `k` windows, each shorter by `delta`, begin if they end at `t`. */
  function SpanStart(c: Config, delta: int, t: int, k: nat): int {
    t - k * (c.window - delta)
  }

  lemma ScriptIsBounded(c: Config, deadline: int, delta: int, rs: seq<Request>)
    requires c.Ok() && WellTimed(rs, delta)
    ensures Bounded(c, c.window - delta, AdmittedLog(c, Key(map[], deadline), map[], rs))
  {
    EmptyIsBounded(c, c.window - delta);
    ScriptBoundedRun(c, delta, Key(map[], deadline), map[], if rs == [] then 0 else rs[0].at, rs);
  }

  /**
   When no script runs more than `delta` after its clock was read, the script admits at most `k * limit`
   requests in the span of k windows less delta that ends at t, for every t and k.
   */
  lemma ScriptAdmissionsAreBounded(c: Config, deadline: int, delta: int, rs: seq<Request>, t: int, k: nat)
    requires c.Ok() && WellTimed(rs, delta)
    ensures |AdmittedIn(c, deadline, rs, SpanStart(c, delta, t, k), t)| <= k * Cap(c)
  {
    var width := c.window - delta;
    var lo := t - k * width;
    ScriptIsBounded(c, deadline, delta, rs);
    MultiWindow(c, width, AdmittedLog(c, Key(map[], deadline), map[], rs), t, k);
    AdmittedCount(c, deadline, rs, lo, t);
  }

  /** With nothing left of the set the request is admitted. */
  lemma FirstAdmits(c: Config, k: Key, r: Request) returns (after: Key)
    requires 0 < c.limit && forall m :: m in k.entries ==> k.entries[m] <= r.now - c.window
    ensures Admits(c, k, r) && after == Script(c, k, r)
    ensures after.entries.Keys == {r.member} && after.entries[r.member] == r.now
    ensures after.deadlineMillis == r.at / NANOS_PER_MILLI + c.TtlMillis()
  {
    after := Script(c, k, r);
    assert Trimmed(c, k, r).Keys == {};
    assert |Trimmed(c, k, r)| == |Trimmed(c, k, r).Keys|;
  }

  /** With one entry left and a limit of two it is admitted as well. */
  lemma SecondAdmits(c: Config, k: Key, r: Request, m: Member) returns (after: Key)
    requires 1 < c.limit && k.entries.Keys == {m} && r.member != m && r.at / NANOS_PER_MILLI <= k.deadlineMillis
    requires r.now - c.window < k.entries[m]
    ensures Admits(c, k, r) && after == Script(c, k, r)
    ensures after.entries.Keys == {m, r.member} && after.entries[r.member] == r.now && after.entries[m] == k.entries[m]
  {
    after := Script(c, k, r);
    assert Trimmed(c, k, r).Keys == {m};
    assert |Trimmed(c, k, r)| == |Trimmed(c, k, r).Keys|;
  }

  lemma OneMore(c: Config, k: Key, r: Request, rest: seq<Request>)
    ensures ScriptRun(c, k, [r] + rest) == [Admits(c, k, r)] + ScriptRun(c, Script(c, k, r), rest)
  {
    assert ([r] + rest)[1..] == rest;
  }

  lemma FourDecisions(c: Config, k: Key, a: Request, b: Request, x: Request, y: Request)
    ensures var k1 := Script(c, k, a); var k2 := Script(c, k1, b); var k3 := Script(c, k2, x);
      ScriptRun(c, k, [a, b, x, y]) == [Admits(c, k, a), Admits(c, k1, b), Admits(c, k2, x), Admits(c, k3, y)]
  {
    var k1 := Script(c, k, a); var k2 := Script(c, k1, b); var k3 := Script(c, k2, x);
    OneMore(c, k, a, [b, x, y]);
    OneMore(c, k1, b, [x, y]);
    OneMore(c, k2, x, [y]);
    OneMore(c, k3, y, []);
    assert [a] + [b, x, y] == [a, b, x, y] && [b] + [x, y] == [b, x, y] && [x] + [y] == [x, y] && [y] + [] == [y];
  }

  lemma ThreeOfFour(c: Config, deadline: int, rs: seq<Request>, lo: int, hi: int)
    requires |rs| == 4 && ScriptRun(c, Key(map[], deadline), rs) == [true, true, true, true]
    requires lo < rs[0].now <= hi && lo < rs[1].now <= hi && lo < rs[3].now <= hi
    ensures |AdmittedIn(c, deadline, rs, lo, hi)| >= 3
  {
    SubsetSize({0, 1, 3}, AdmittedIn(c, deadline, rs, lo, hi));
  }

  lemma AllFourAdmitted()
    ensures var rs := [Request(90, 90, 0), Request(91, 91, 1), Request(102, 102, 2), Request(95, 102, 3)];
      ScriptRun(Config(2, 10), Key(map[], 0), rs) == [true, true, true, true]
  {
    var c, k0 := Config(2, 10), Key(map[], 0);
    var a, b, x, y := Request(90, 90, 0), Request(91, 91, 1), Request(102, 102, 2), Request(95, 102, 3);
    var k1 := FirstAdmits(c, k0, a);
    var k2 := SecondAdmits(c, k1, b, 0);
    var k3 := FirstAdmits(c, k2, x);
    var k4 := SecondAdmits(c, k3, y, 2);
    FourDecisions(c, k0, a, b, x, y);
  }

  /**
   The full window would be too much to claim: with readings seven late and a window of ten, three
   requests of a limit of two are admitted in (85, 95], a late one having found the set trimmed.
   */
  lemma LateReadingsOvershoot()
    ensures var rs := [Request(90, 90, 0), Request(91, 91, 1), Request(102, 102, 2), Request(95, 102, 3)];
      WellTimed(rs, 7) && |AdmittedIn(Config(2, 10), 0, rs, 85, 95)| > Cap(Config(2, 10))
  {
    AllFourAdmitted();
    var rs := [Request(90, 90, 0), Request(91, 91, 1), Request(102, 102, 2), Request(95, 102, 3)];
    ThreeOfFour(Config(2, 10), 0, rs, 85, 95);
  }

  // ---------------------------------------------------------------- a decision is a count

  /** The earlier requests, admitted by `d`, in the window that ends with request `i`. */
  function AdmittedBefore(c: Config, d: seq<bool>, rs: seq<Request>, i: nat): set<nat>
    requires i < |rs| == |d|
  {
    set j: nat | j < i && d[j] && rs[j].now > rs[i].now - c.window
  }

  lemma {:induction false} LogDecisionAt(c: Config, log: map<Member, int>, rs: seq<Request>, i: nat)
    requires i < |rs|
    ensures LogRun(c, log, rs)[i] == LogAdmits(c, FinalLog(c, log, rs[..i]), rs[i].now)
    ensures LogRun(c, log, rs)[..i] == LogRun(c, log, rs[..i])
    decreases i
  {
    if i > 0 {
      LogDecisionAt(c, LogAfter(c, log, rs[0]), rs[1..], i - 1);
      assert rs[..i][1..] == rs[1..][..i - 1];
    }
  }

  lemma {:induction false} FinalLogSource(c: Config, log: map<Member, int>, rs: seq<Request>, m: Member)
    requires m in FinalLog(c, log, rs) && m !in log
    ensures exists j :: 0 <= j < |rs| && rs[j].member == m
    decreases |rs|
  {
    var next := LogAfter(c, log, rs[0]);
    if m in next {
      assert rs[0].member == m;
    } else {
      FinalLogSource(c, next, rs[1..], m);
      var j :| 0 <= j < |rs| - 1 && rs[1..][j].member == m;
      assert rs[j + 1].member == m;
    }
  }

  lemma LogWindowIsACount(c: Config, rs: seq<Request>, i: nat)
    requires Distinct(rs) && i < |rs|
    ensures |Above(FinalLog(c, map[], rs[..i]), rs[i].now - c.window)|
            == |AdmittedBefore(c, LogRun(c, map[], rs), rs, i)|
  {
    var before, d := rs[..i], LogRun(c, map[], rs);
    var log := FinalLog(c, map[], before);
    LogDecisionAt(c, map[], rs, i);
    var open := Above(log, rs[i].now - c.window);
    var js := AdmittedBefore(c, d, rs, i);
    var f := map j | j in js :: rs[j].member;
    forall j: nat | j < i
      ensures rs[j].member in log <==> d[j]
      ensures d[j] ==> log[rs[j].member] == rs[j].now
    {
      FinalLogIsTheAdmitted(c, map[], before, j);
      assert d[..i][j] == d[j];
    }
    forall m | m in open.Keys ensures exists j :: j in js && f[j] == m {
      FinalLogSource(c, map[], before, m);
      var j :| 0 <= j < i && before[j].member == m;
      assert f[j] == m;
    }
    Bijection(js, f, open.Keys);
    assert |open| == |open.Keys|;
  }

  /** Undelayed, a request is admitted exactly if fewer than `limit` were admitted in the window it ends. */
  lemma DecisionByCount(c: Config, deadline: int, rs: seq<Request>, i: nat)
    requires c.Ok() && WellTimed(rs, 0) && i < |rs|
    ensures var d := ScriptRun(c, Key(map[], deadline), rs);
      d[i] <==> |AdmittedBefore(c, d, rs, i)| < c.limit
  {
    ScriptRefinesLog(c, deadline, rs);
    LogDecisionAt(c, map[], rs, i);
    LogWindowIsACount(c, rs, i);
  }

  // ---------------------------------------------------------------- denied requests leave no trace

  /**
   However late its reading, a denied request removes nothing: a set never holds more than the limit,
   so one entry trimmed would have made room.  What it does change is the key's time to live.
   */
  lemma DeniedKeepsEntries(c: Config, k: Key, r: Request)
    requires |k.entries| <= Cap(c)
    ensures |Script(c, k, r).entries| <= Cap(c)
    ensures !Admits(c, k, r) && 0 < c.limit ==>
      Script(c, k, r).entries.Keys == k.entries.Keys && r.at / NANOS_PER_MILLI <= k.deadlineMillis
  {
    var kept := Trimmed(c, k, r);
    assert kept.Keys <= k.entries.Keys;
    SubsetSize(kept.Keys, k.entries.Keys);
    assert |kept| == |kept.Keys| && |k.entries| == |k.entries.Keys|;
    if Admits(c, k, r) {
      PlusOne(Script(c, k, r).entries.Keys, kept, r.member);
      assert |Script(c, k, r).entries| == |Script(c, k, r).entries.Keys|;
    } else if 0 < c.limit {
      assert k.entries.Keys == kept.Keys + (k.entries.Keys - kept.Keys);
      assert |k.entries.Keys - kept.Keys| == 0;
    }
  }

  lemma {:induction false} LogForgetsDenied(c: Config, log: map<Member, int>, rs: seq<Request>, i: nat)
    requires i < |rs| && !LogRun(c, log, rs)[i]
    ensures LogRun(c, log, rs[..i] + rs[i + 1..]) == LogRun(c, log, rs)[..i] + LogRun(c, log, rs)[i + 1..]
    decreases |rs|
  {
    var without := rs[..i] + rs[i + 1..];
    if i == 0 {
      assert without == rs[1..];
    } else {
      assert without[0] == rs[0] && without[1..] == rs[1..][..i - 1] + rs[1..][i..];
      LogForgetsDenied(c, LogAfter(c, log, rs[0]), rs[1..], i - 1);
    }
  }

  /**
   Dropping a denied request from a run whose scripts run without delay changes no other decision.
   */
  lemma DeniedLeavesNoTrace(c: Config, deadline: int, rs: seq<Request>, i: nat)
    requires c.Ok() && WellTimed(rs, 0) && i < |rs|
    requires !ScriptRun(c, Key(map[], deadline), rs)[i]
    ensures var d := ScriptRun(c, Key(map[], deadline), rs);
            ScriptRun(c, Key(map[], deadline), rs[..i] + rs[i + 1..]) == d[..i] + d[i + 1..]
  {
    ScriptRefinesLog(c, deadline, rs);
    ScriptRefinesLog(c, deadline, rs[..i] + rs[i + 1..]);
    LogForgetsDenied(c, map[], rs, i);
  }
}
