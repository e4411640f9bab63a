/** A signed event counts once, and the tier is the maximum of what was applied. */
module KycSafety {
  import opened Common
  import opened Replay
  import opened Kyc
  import Text
  import Canonical

  // ---------------------------------------------------------------- an envelope counts once

  /** From `start` on, each message handled promptly, in the order in which they reach the dedup store. */
  ghost predicate TimedOps(ops: seq<Op>, lag: int, start: int) {
    && (forall i :: 0 <= i < |ops| && ops[i].Message? ==> start <= ops[i].now <= ops[i].stored <= ops[i].now + lag)
    && (forall i, j :: 0 <= i < j < |ops| && ops[i].Message? && ops[j].Message? ==> ops[i].stored <= ops[j].stored)
  }

  predicate Carries(op: Op, eventId: string, occurredAt: string) {
    op.Message? && op.env.Some? && op.env.value.eventId == eventId && op.env.value.occurredAt == occurredAt
  }

  lemma {:induction false} GuardedStaysOut(k: Keys, lag: int, st: State, ops: seq<Op>, id: string, text: string,
                                           at: int, start: int, j: nat)
    requires k.parseTime(text) == Some(at) && Guarded(EVENT_GATE, lag, st.dedup, id, at)
    requires TimedOps(ops, lag, start) && at + MIN_DURATION < start
    requires j < |ops| && Carries(ops[j], id, text)
    ensures !Reached(k, st, ops)[j]
    decreases |ops|
  {
    var d := Gated(k, ops[0]);
    if d.Some? { GuardHolds(EVENT_GATE, lag, st.dedup, d.value, id, at); }
    if j > 0 { GuardedStaysOut(k, lag, Step(k, st, ops[0]), ops[1..], id, text, at, start, j - 1); }
  }

  /** The stamp is not absurdly far ahead, and its dedup key outlives its last possible delivery. */
  predicate SafeStamp(k: Keys, text: string, lag: int, start: int) {
    k.parseTime(text).Some? ==>
      && k.parseTime(text).value + MIN_DURATION < start
      && Outlived(EVENT_GATE, lag, k.parseTime(text).value, start)
  }

  /** In an unbounded run a signed envelope with a safe stamp reaches UpdateKYCTier at most once. */
  lemma {:induction false} EnvelopeReachesOnce(k: Keys, lag: int, st: State, ops: seq<Op>, id: string, text: string,
                                               start: int, i: nat, j: nat)
    requires i < j < |ops| && TimedOps(ops, lag, start) && SafeStamp(k, text, lag, start)
    requires Carries(ops[i], id, text) && Carries(ops[j], id, text)
    ensures !(Reached(k, st, ops)[i] && Reached(k, st, ops)[j])
    decreases |ops|
  {
    if i > 0 {
      EnvelopeReachesOnce(k, lag, Step(k, st, ops[0]), ops[1..], id, text, start, i - 1, j - 1);
    } else if Reaches(k, st, ops[0]) {
      var d := Gated(k, ops[0]).value;
      WithinSkewIff(EVENT_GATE, d.now, d.stamp);
      GuardSet(EVENT_GATE, lag, st.dedup, d);
      GuardedStaysOut(k, lag, Step(k, st, ops[0]), ops[1..], id, text, d.stamp, start, j - 1);
    }
  }

  /**
   Handled without delay, every stamp less than 2^63 ns ahead is safe: the key lives exactly as long as the
   window.
  */
  lemma PromptHandlingIsSafe(k: Keys, text: string, start: int)
    requires k.parseTime(text).Some? ==> k.parseTime(text).value + MIN_DURATION < start
    ensures SafeStamp(k, text, 0, start)
  {
  }

  ghost predicate ReachesAtMostOnce(k: Keys, st: State, ops: seq<Op>, id: string, text: string) {
    forall i, j :: 0 <= i < j < |ops| && Carries(ops[i], id, text) && Carries(ops[j], id, text) ==>
      !(Reached(k, st, ops)[i] && Reached(k, st, ops)[j])
  }

  /** The hex text of a MAC is never empty. */
  ghost predicate Lawful(k: Keys) {
    forall s :: k.mac(s) != ""
  }

  /** A signed envelope for `id` and `text` that asks for tier 0. */
  function Signed(k: Keys, id: string, text: string): Envelope {
    Envelope(id, text, "1", "", 0,
             k.mac(Canonical.EventText(Canonical.Event(id, text, "1", "", SignedInt(0)))))
  }

  /** Two deliveries of it that both pass the age check, the second after the first one's key. */
  lemma SignedReachesTwice(k: Keys, id: string, text: string, first: int, last: int, stored: int)
    requires Lawful(k) && k.parseTime(text).Some?
    requires WithinSkew(EVENT_GATE, first, k.parseTime(text).value)
    requires WithinSkew(EVENT_GATE, last, k.parseTime(text).value)
    requires first + EVENT_GATE.ttl < stored
    ensures var env := Some(Signed(k, id, text));
      var ops := [Message(env, first, first, Answers, NoFault), Message(env, last, stored, Answers, NoFault)];
      !ReachesAtMostOnce(k, State(map[], map[]), ops, id, text)
  {
    var env := Some(Signed(k, id, text));
    var ops := [Message(env, first, first, Answers, NoFault), Message(env, last, stored, Answers, NoFault)];
    var st := State(map[], map[]);
    assert Verifies(k, env.value);
    assert ops[1..] == [ops[1]];
    assert Reaches(k, st, ops[0]) && Reaches(k, Step(k, st, ops[0]), ops[1]);
    assert Reached(k, st, ops)[0] && Reached(k, st, ops)[1];
    assert Carries(ops[0], id, text) && Carries(ops[1], id, text);
  }

  lemma UnsafeReachesTwice(k: Keys, lag: int, id: string, text: string, start: int)
    requires Lawful(k) && 0 <= lag && !SafeStamp(k, text, lag, start)
    ensures exists st, ops :: TimedOps(ops, lag, start) && !ReachesAtMostOnce(k, st, ops, id, text)
  {
    var at := k.parseTime(text).value;
    var far := start <= at + MIN_DURATION;
    var first := if far then start else Earliest(EVENT_GATE, at, start);
    var last := if far then at else at + EVENT_GATE.skew;
    var stored := if far then at else last + lag;
    WithinSkewIff(EVENT_GATE, first, at);
    WithinSkewIff(EVENT_GATE, last, at);
    var env := Some(Signed(k, id, text));
    var ops := [Message(env, first, first, Answers, NoFault), Message(env, last, stored, Answers, NoFault)];
    SignedReachesTwice(k, id, text, first, last, stored);
    assert TimedOps(ops, lag, start) && !ReachesAtMostOnce(k, State(map[], map[]), ops, id, text);
  }

  /**
   A signed event id and timestamp reach UpdateKYCTier at most once in every run from `start` exactly
   when the timestamp does not parse or is safe for the delay that the SETNX may have.
   */
  lemma EnvelopeReachesOnceIff(k: Keys, lag: int, id: string, text: string, start: int)
    requires Lawful(k) && 0 <= lag
    ensures (forall st, ops :: TimedOps(ops, lag, start) ==> ReachesAtMostOnce(k, st, ops, id, text)) <==>
            SafeStamp(k, text, lag, start)
  {
    if SafeStamp(k, text, lag, start) {
      forall st, ops: seq<Op> | TimedOps(ops, lag, start) ensures ReachesAtMostOnce(k, st, ops, id, text) {
        forall i, j | 0 <= i < j < |ops| && Carries(ops[i], id, text) && Carries(ops[j], id, text)
          ensures !(Reached(k, st, ops)[i] && Reached(k, st, ops)[j])
        {
          EnvelopeReachesOnce(k, lag, st, ops, id, text, start, i, j);
        }
      }
    } else {
      UnsafeReachesTwice(k, lag, id, text, start);
    }
  }

  // ---------------------------------------------------------------- a signature stands for one event

  ghost predicate InjectiveMac(k: Keys) {
    forall a, b :: k.mac(a) == k.mac(b) ==> a == b
  }

  /** Timestamps that parse hold no separator. */
  ghost predicate CleanTimes(k: Keys) {
    forall s :: k.parseTime(s).Some? ==> '|' !in s
  }

  /** Event and user ids are uuid text. */
  predicate CleanIds(e: Envelope) {
    '|' !in e.eventId && '|' !in e.userId
  }

  lemma SignedIntAvoids(n: int)
    ensures '|' !in SignedInt(n)
  {
    Text.DecimalAvoids(if n < 0 then -n else n, '|');
  }

  lemma SignedIntInjective(a: int, b: int)
    requires SignedInt(a) == SignedInt(b)
    ensures a == b
  {
    var x, y := if a < 0 then -a else a, if b < 0 then -b else b;
    Text.ValueOfDecimal(x);
    Text.ValueOfDecimal(y);
    assert Text.Decimal(x)[0] != '-' && Text.Decimal(y)[0] != '-';
    if a < 0 {
      assert SignedInt(a)[1..] == Text.Decimal(x);
      assert SignedInt(b)[1..] == Text.Decimal(y);
    }
  }

  /** Two envelopes that pass the signature and the time parser under one signature are the same envelope. */
  lemma SignatureDetermines(k: Keys, x: Envelope, y: Envelope)
    requires InjectiveMac(k) && CleanTimes(k) && CleanIds(x) && CleanIds(y)
    requires Verifies(k, x) && Verifies(k, y) && x.signature == y.signature
    requires k.parseTime(x.occurredAt).Some? && k.parseTime(y.occurredAt).Some?
    ensures x == y
  {
    var a := Canonical.Event(x.eventId, x.occurredAt, x.version, x.userId, SignedInt(x.newTier));
    var b := Canonical.Event(y.eventId, y.occurredAt, y.version, y.userId, SignedInt(y.newTier));
    SignedIntAvoids(x.newTier);
    SignedIntAvoids(y.newTier);
    Canonical.EventEndsAreDetermined(a, b);
    Canonical.JoinTwo(x.occurredAt, x.version);
    Canonical.JoinTwo(y.occurredAt, y.version);
    Canonical.SameHead(x.occurredAt, y.occurredAt, x.version, y.version);
    SignedIntInjective(x.newTier, y.newTier);
  }

  /** The message carries this signature, over ids that hold no separator. */
  predicate Bears(op: Op, signature: string) {
    op.Message? && op.env.Some? && op.env.value.signature == signature && CleanIds(op.env.value)
  }

  /**
   One signature reaches UpdateKYCTier at most once in a run of prompt messages, and whatever run it is
   presented in, for one user, one tier and one event only.
   */
  lemma OneSignatureOneUpdate(k: Keys, lag: int, st: State, ops: seq<Op>, signature: string, start: int, i: nat, j: nat)
    requires InjectiveMac(k) && CleanTimes(k) && TimedOps(ops, lag, start)
    requires i < j < |ops| && Bears(ops[i], signature) && Bears(ops[j], signature)
    requires SafeStamp(k, ops[i].env.value.occurredAt, lag, start)
    ensures !(Reached(k, st, ops)[i] && Reached(k, st, ops)[j])
  {
    if Reached(k, st, ops)[i] && Reached(k, st, ops)[j] {
      ReachedPassed(k, st, ops, i);
      ReachedPassed(k, st, ops, j);
      SignatureDetermines(k, ops[i].env.value, ops[j].env.value);
      EnvelopeReachesOnce(k, lag, st, ops, ops[i].env.value.eventId, ops[i].env.value.occurredAt, start, i, j);
    }
  }

  lemma {:induction false} ReachedPassed(k: Keys, st: State, ops: seq<Op>, i: nat)
    requires i < |ops| && Reached(k, st, ops)[i]
    ensures ops[i].Message? && ops[i].env.Some? && Verifies(k, ops[i].env.value)
    ensures k.parseTime(ops[i].env.value.occurredAt).Some?
    decreases |ops|
  {
    if i > 0 { ReachedPassed(k, Step(k, st, ops[0]), ops[1..], i - 1); }
  }

  // ---------------------------------------------------------------- the tier is a maximum

  lemma {:induction false} ApplyAllConcat(users: Users, a: seq<Statement>, b: seq<Statement>)
    ensures ApplyAll(users, a + b) == ApplyAll(ApplyAll(users, a), b)
    decreases |a|
  {
    if a == [] {
      assert a + b == b;
    } else {
      assert (a + b)[1..] == a[1..] + b;
      ApplyAllConcat(Apply(users, a[0]), a[1..], b);
    }
  }

  /** A whole run's effect on the users table is that of the statements it executed. */
  lemma {:induction false} RunIsTrace(k: Keys, st: State, ops: seq<Op>)
    ensures Run(k, st, ops).users == ApplyAll(st.users, Trace(k, st, ops))
    decreases |ops|
  {
    if ops != [] {
      RunIsTrace(k, Step(k, st, ops[0]), ops[1..]);
      ApplyAllConcat(st.users, Statements(k, st, ops[0]), Trace(k, Step(k, st, ops[0]), ops[1..]));
    }
  }

  predicate Asks(s: Statement, u: Id) {
    s.Update() && s.user == u
  }

  /** The updates that found their user live. */
  function Landed(users: Users, ss: seq<Statement>): seq<Statement>
    decreases |ss|
  {
    if ss == [] then []
    else (if ss[0].Update() && Live(users, ss[0].user) then [ss[0]] else []) + Landed(Apply(users, ss[0]), ss[1..])
  }

  /** `t` is the largest of the initial tier and the levels asked of `u`. */
  ghost predicate IsMaximum(t: int, initial: int, ss: seq<Statement>, u: Id) {
    && initial <= t
    && (forall s :: s in ss && Asks(s, u) ==> s.Level() <= t)
    && (t == initial || exists s :: s in ss && Asks(s, u) && s.Level() == t)
  }

  lemma MaximumStep(users: Users, s: Statement, rest: seq<Statement>, u: Id, t: int)
    requires u in users && u in Apply(users, s) && IsMaximum(t, Apply(users, s)[u].tier, rest, u)
    ensures IsMaximum(t, users[u].tier, (if s.Update() && Live(users, s.user) then [s] else []) + rest, u)
  {
    var head := if s.Update() && Live(users, s.user) then [s] else [];
    if t != users[u].tier && t == Apply(users, s)[u].tier {
      assert s in head && Asks(s, u) && s.Level() == t;
    } else if t != users[u].tier {
      var x :| x in rest && Asks(x, u) && x.Level() == t;
      assert x in head + rest;
    }
  }

  /**
   For any list of statements: the tier is the maximum of the updates that landed, and the flag says whether
   one verified.
  */
  lemma {:induction false} ApplyAllMax(users: Users, ss: seq<Statement>, u: Id)
    requires u in users
    ensures var after := ApplyAll(users, ss);
            && u in after
            && IsMaximum(after[u].tier, users[u].tier, Landed(users, ss), u)
            && (after[u].verified <==> users[u].verified || Statement.SetEmailVerified(u) in Landed(users, ss))
            && (after[u].deleted <==> users[u].deleted || Delete(u) in ss)
    decreases |ss|
  {
    if ss != [] {
      var next := Apply(users, ss[0]);
      ApplyAllMax(next, ss[1..], u);
      MaximumStep(users, ss[0], Landed(next, ss[1..]), u, ApplyAll(next, ss[1..])[u].tier);
      assert ss == [ss[0]] + ss[1..];
    }
  }

  /** Until a user is deleted, every update of that user lands. */
  lemma {:induction false} LandedWhileLive(users: Users, ss: seq<Statement>, u: Id)
    requires Live(users, u) && Delete(u) !in ss
    ensures forall s :: Asks(s, u) ==> (s in Landed(users, ss) <==> s in ss)
    decreases |ss|
  {
    if ss != [] {
      assert ss == [ss[0]] + ss[1..];
      LandedWhileLive(Apply(users, ss[0]), ss[1..], u);
    }
  }

  lemma {:induction false} TraceLevels(k: Keys, st: State, ops: seq<Op>, u: Id)
    ensures forall s :: s in Trace(k, st, ops) && s.Update() ==> MIN_TIER <= s.Level() <= MAX_TIER
    ensures Statement.SetEmailVerified(u) in Trace(k, st, ops) <==>
      (VerifyEmail(u, NoFault) in ops || VerifyEmail(u, AnswerLost) in ops)
    ensures Delete(u) in Trace(k, st, ops) <==> Remove(u) in ops
    decreases |ops|
  {
    if ops != [] {
      TraceLevels(k, Step(k, st, ops[0]), ops[1..], u);
      assert ops == [ops[0]] + ops[1..];
    }
  }

  /** The i-th operation reached the update for this user and tier, and its UPDATE took effect. */
  predicate Updates(k: Keys, st: State, ops: seq<Op>, i: int, u: Id, tier: int) {
    && 0 <= i < |ops| && ops[i].Message? && ops[i].env.Some? && Reached(k, st, ops)[i] && !ops[i].fault.NotApplied?
    && ops[i].env.value.userId == u && ops[i].env.value.newTier == tier
  }

  /** The trace sets a user to a tier exactly if some event that reached the update asked for that. */
  lemma {:induction false} TraceSetsWhatWasAsked(k: Keys, st: State, ops: seq<Op>, u: Id, tier: int)
    ensures SetTier(u, tier) in Trace(k, st, ops) <==> exists i :: Updates(k, st, ops, i, u, tier)
    decreases |ops|
  {
    if ops != [] {
      var next, rest := Step(k, st, ops[0]), ops[1..];
      TraceSetsWhatWasAsked(k, next, rest, u, tier);
      if i :| Updates(k, next, rest, i, u, tier) { assert Updates(k, st, ops, i + 1, u, tier); }
      if i :| Updates(k, st, ops, i, u, tier) && i > 0 { assert Updates(k, next, rest, i - 1, u, tier); }
      if SetTier(u, tier) in Statements(k, st, ops[0]) { assert Updates(k, st, ops, 0, u, tier); }
    }
  }

  lemma {:induction false} LandedFrom(users: Users, ss: seq<Statement>)
    ensures forall s :: s in Landed(users, ss) ==> s in ss && s.Update()
    decreases |ss|
  {
    if ss != [] {
      assert ss == [ss[0]] + ss[1..];
      LandedFrom(Apply(users, ss[0]), ss[1..]);
    }
  }

  /**
   After any run, with failing statements and with users created and deleted along the way, a user's
   tier is the maximum of its initial value and every update that found the user live; it never falls
   and stays within 0..3.  For a user not deleted in the run those are all executed updates.
   */
  lemma TierIsTheMaximum(k: Keys, st: State, ops: seq<Op>, u: Id)
    requires u in st.users
    ensures var after, trace := Run(k, st, ops).users, Trace(k, st, ops);
            && u in after
            && IsMaximum(after[u].tier, st.users[u].tier, Landed(st.users, trace), u)
            && (MIN_TIER <= st.users[u].tier <= MAX_TIER ==> MIN_TIER <= after[u].tier <= MAX_TIER)
            && (after[u].verified <==> st.users[u].verified || Statement.SetEmailVerified(u) in Landed(st.users, trace))
            && (Live(st.users, u) && Remove(u) !in ops ==>
                  && IsMaximum(after[u].tier, st.users[u].tier, trace, u)
                  && (after[u].verified <==>
                        st.users[u].verified || VerifyEmail(u, NoFault) in ops || VerifyEmail(u, AnswerLost) in ops))
  {
    var trace := Trace(k, st, ops);
    RunIsTrace(k, st, ops);
    ApplyAllMax(st.users, trace, u);
    TraceLevels(k, st, ops, u);
    LandedFrom(st.users, trace);
    if Live(st.users, u) && Remove(u) !in ops { LandedWhileLive(st.users, trace, u); }
  }

  /** Reordering and repeating applied updates changes nothing. */
  lemma OrderIsIrrelevant(users: Users, xs: seq<Statement>, ys: seq<Statement>)
    requires forall s :: s in xs ==> s.Update()
    requires forall s :: s in xs <==> s in ys
    ensures ApplyAll(users, xs) == ApplyAll(users, ys)
  {
    var a, b := ApplyAll(users, xs), ApplyAll(users, ys);
    KeysKept(users, xs);
    KeysKept(users, ys);
    forall u | u in users ensures a[u] == b[u] {
      ApplyAllMax(users, xs, u);
      ApplyAllMax(users, ys, u);
      if Live(users, u) {
        LandedWhileLive(users, xs, u);
        LandedWhileLive(users, ys, u);
      } else {
        ApplyAllFrame(users, xs, u);
        ApplyAllFrame(users, ys, u);
      }
    }
  }

  lemma {:induction false} ApplyAllFrame(users: Users, ss: seq<Statement>, u: Id)
    requires u in users && users[u].deleted
    ensures var after := ApplyAll(users, ss); u in after && after[u] == users[u]
    decreases |ss|
  {
    if ss != [] { ApplyAllFrame(Apply(users, ss[0]), ss[1..], u); }
  }

  lemma {:induction false} KeysKept(users: Users, ss: seq<Statement>)
    requires forall s :: s in ss ==> s.Update()
    ensures ApplyAll(users, ss).Keys == users.Keys
    decreases |ss|
  {
    if ss != [] {
      assert ss[0] in ss;
      KeysKept(Apply(users, ss[0]), ss[1..]);
    }
  }
}
