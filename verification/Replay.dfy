/**
 Timestamp windows and expiring nonce keys: when can one signed message be accepted twice?
 The event consumer and the gateway signature check both use this pair of gates.
 Times are nanoseconds on one clock.
 */
module Replay {
  import opened Common

  type Key = string

  const SECOND := 1_000_000_000
  const MIN_DURATION := -0x8000_0000_0000_0000
  const MAX_DURATION := 0x7fff_ffff_ffff_ffff

  /** How far a timestamp may lie from the clock, and how long a nonce key lives. */
  datatype Gate = Gate(skew: int, ttl: int)
  {
    predicate Ok() {
      0 <= skew < MAX_DURATION && 0 < ttl <= MAX_DURATION
    }
  }

  const EVENT_GATE := Gate(5 * 60 * SECOND, 10 * 60 * SECOND)
  const GATEWAY_GATE := Gate(30 * SECOND, 30 * SECOND + 5 * SECOND)

  /** The server's ReadTimeout: how long the gateway check may wait for a request body. */
  const READ_TIMEOUT := 10 * SECOND

  // ---------------------------------------------------------------- the timestamp window

  /** `time.Since`: a 64-bit duration that saturates. */
  function Since(now: int, stamp: int): int {
    var d := now - stamp;
    if d < MIN_DURATION then MIN_DURATION else if d > MAX_DURATION then MAX_DURATION else d
  }

  /** 64-bit negation: the smallest duration is its own negative. */
  function Negate(d: int): int {
    if d == MIN_DURATION then MIN_DURATION else -d
  }

  predicate WithinSkew(g: Gate, now: int, stamp: int) {
    var delta := Since(now, stamp);
    (if delta < 0 then Negate(delta) else delta) <= g.skew
  }

  /** The window is two-sided; beyond it only stamps 2^63 ns or more in the future pass. */
  lemma WithinSkewIff(g: Gate, now: int, stamp: int)
    requires g.Ok()
    ensures WithinSkew(g, now, stamp) <==>
            stamp - g.skew <= now <= stamp + g.skew || now <= stamp + MIN_DURATION
  {
  }

  // ---------------------------------------------------------------- the nonce store

  /** Deadlines of the keys ever set; a key is alive up to and including its deadline. */
  type Nonces = map<Key, int>

  /** The age is checked at `now`; the nonce is set at `stored`, after the body has been read. */
  datatype Delivery = Delivery(key: Key, stamp: int, now: int, stored: int, redis: Reply)
  {
    predicate Is(key: Key, stamp: int) {
      this.key == key && this.stamp == stamp
    }
  }

  predicate Alive(n: Nonces, key: Key, now: int) {
    key in n && now <= n[key]
  }

  /** SET NX with a time to live. */
  function SetNX(n: Nonces, key: Key, now: int, ttl: int): Nonces {
    if Alive(n, key, now) then n else n[key := now + ttl]
  }

  predicate Accepted(g: Gate, n: Nonces, d: Delivery) {
    WithinSkew(g, d.now, d.stamp) && d.redis.Answers? && !Alive(n, d.key, d.stored)
  }

  function After(g: Gate, n: Nonces, d: Delivery): Nonces {
    if WithinSkew(g, d.now, d.stamp) && !d.redis.Refuses? then SetNX(n, d.key, d.stored, g.ttl) else n
  }

  function Decisions(g: Gate, n: Nonces, ds: seq<Delivery>): (acc: seq<bool>)
    ensures |acc| == |ds|
    decreases |ds|
  {
    if ds == [] then [] else [Accepted(g, n, ds[0])] + Decisions(g, After(g, n, ds[0]), ds[1..])
  }

  /** No more than `lag` passes between a delivery's two instants. */
  predicate Prompt(d: Delivery, lag: int) {
    d.now <= d.stored <= d.now + lag
  }

  /** From `start` on, each delivery prompt, in the order in which they reach the store. */
  ghost predicate Timed(ds: seq<Delivery>, lag: int, start: int) {
    && (forall i :: 0 <= i < |ds| ==> start <= ds[i].now && Prompt(ds[i], lag))
    && (forall i, j :: 0 <= i < j < |ds| ==> ds[i].stored <= ds[j].stored)
  }

  /** The imperative check of `storeNonce` and of the event dedup. */
  class NonceStore {
    const gate: Gate
    var deadlines: Nonces

    constructor (gate: Gate)
      ensures this.gate == gate && deadlines == map[]
    {
      this.gate := gate;
      deadlines := map[];
    }

    /** Fails closed: an error reads as a replay. */
    method StoreNonce(key: Key, now: int, redis: Reply) returns (ok: bool)
      modifies this`deadlines
      ensures ok <==> redis.Answers? && !Alive(old(deadlines), key, now)
      ensures deadlines == if redis.Refuses? then old(deadlines) else SetNX(old(deadlines), key, now, gate.ttl)
      ensures ok ==> Alive(deadlines, key, now + gate.ttl) && !Alive(deadlines, key, now + gate.ttl + 1)
      ensures var absent := key in old(deadlines) ==> old(deadlines)[key] < now;
        && (ok <==> absent && redis == Answers)
        && deadlines == if absent && redis != Refuses then old(deadlines)[key := now + gate.ttl] else old(deadlines)
    {
      if redis.Refuses? { return false; }
      var existed := key in deadlines && now <= deadlines[key];
      if !existed {
        deadlines := deadlines[key := now + gate.ttl];
      }
      ok := redis.Answers? && !existed;
    }

    /** Two-sided age first, then the nonce of this key alone. */
    method Check(d: Delivery) returns (ok: bool)
      modifies this`deadlines
      ensures gate.Ok() ==> (ok <==>
        && (d.stamp - gate.skew <= d.now <= d.stamp + gate.skew || d.now <= d.stamp + MIN_DURATION)
        && (d.key in old(deadlines) ==> old(deadlines)[d.key] < d.stored)
        && d.redis == Answers)
      ensures ok ==> deadlines == old(deadlines)[d.key := d.stored + gate.ttl]
      ensures gate.Ok() && !ok ==>
        var aged := !(d.stamp - gate.skew <= d.now <= d.stamp + gate.skew || d.now <= d.stamp + MIN_DURATION);
        deadlines == if aged || d.redis == Refuses || (d.key in old(deadlines) && d.stored <= old(deadlines)[d.key])
                     then old(deadlines) else old(deadlines)[d.key := d.stored + gate.ttl]
      ensures forall k :: k != d.key ==> (k in deadlines <==> k in old(deadlines))
      ensures forall k :: k != d.key && k in deadlines ==> deadlines[k] == old(deadlines)[k]
      ensures ok <==> Accepted(gate, old(deadlines), d)
      ensures deadlines == After(gate, old(deadlines), d)
    {
      if gate.Ok() { WithinSkewIff(gate, d.now, d.stamp); }
      if !WithinSkew(gate, d.now, d.stamp) { return false; }
      // the body is read and its signature verified in between
      ok := StoreNonce(d.key, d.stored, d.redis);
    }
  }

  // ---------------------------------------------------------------- keys are independent

  /** The deliveries of one key, in order. */
  function Own(ds: seq<Delivery>, key: Key): seq<Delivery>
    decreases |ds|
  {
    if ds == [] then [] else (if ds[0].key == key then [ds[0]] else []) + Own(ds[1..], key)
  }

  /** The two stores hold the same nonce for `key`, or neither holds one. */
  predicate Agree(n: Nonces, m: Nonces, key: Key) {
    (key in n <==> key in m) && (key in n ==> n[key] == m[key])
  }

  /** A delivery of the key keeps two such stores in agreement and is decided alike; another leaves the key. */
  lemma AgreeAfter(g: Gate, n: Nonces, m: Nonces, d: Delivery, key: Key)
    requires Agree(n, m, key)
    ensures d.key == key ==> Agree(After(g, n, d), After(g, m, d), key) && (Accepted(g, n, d) <==> Accepted(g, m, d))
    ensures d.key != key ==> Agree(After(g, n, d), m, key)
  {
  }

  /** The store after a run. */
  function Store(g: Gate, n: Nonces, ds: seq<Delivery>): Nonces
    decreases |ds|
  {
    if ds == [] then n else Store(g, After(g, n, ds[0]), ds[1..])
  }

  lemma {:induction false} DecisionAt(g: Gate, n: Nonces, ds: seq<Delivery>, i: nat)
    requires i < |ds|
    ensures Decisions(g, n, ds)[i] == Accepted(g, Store(g, n, ds[..i]), ds[i])
    decreases |ds|
  {
    if i > 0 {
      assert ds[..i][1..] == ds[1..][..i - 1];
      DecisionAt(g, After(g, n, ds[0]), ds[1..], i - 1);
    }
  }

  /** What other keys do leaves a key's nonce as its own deliveries leave it. */
  lemma {:induction false} OwnStore(g: Gate, n: Nonces, m: Nonces, ds: seq<Delivery>, key: Key)
    requires Agree(n, m, key)
    ensures Agree(Store(g, n, ds), Store(g, m, Own(ds, key)), key)
    decreases |ds|
  {
    if ds != [] {
      AgreeAfter(g, n, m, ds[0], key);
      if ds[0].key == key {
        assert Own(ds, key)[1..] == Own(ds[1..], key);
        OwnStore(g, After(g, n, ds[0]), After(g, m, ds[0]), ds[1..], key);
      } else {
        assert Own(ds, key) == Own(ds[1..], key);
        OwnStore(g, After(g, n, ds[0]), m, ds[1..], key);
      }
    }
  }

  /** In a mixed run a key is decided as if its deliveries had the store to themselves. */
  lemma KeysAreIndependent(g: Gate, n: Nonces, ds: seq<Delivery>, i: nat)
    requires i < |ds|
    ensures var before := Own(ds[..i], ds[i].key);
      Decisions(g, n, ds)[i] == Decisions(g, n, before + [ds[i]])[|before|]
  {
    var before := Own(ds[..i], ds[i].key);
    DecisionAt(g, n, ds, i);
    DecisionAt(g, n, before + [ds[i]], |before|);
    assert (before + [ds[i]])[..|before|] == before;
    OwnStore(g, n, n, ds[..i], ds[i].key);
    AgreeAfter(g, Store(g, n, ds[..i]), Store(g, n, before), ds[i], ds[i].key);
  }

  /** A message inside its window whose key no delivery of the run has used before is accepted. */
  lemma FreshKeyIsAccepted(g: Gate, ds: seq<Delivery>, i: nat)
    requires g.Ok() && i < |ds| && ds[i].redis.Answers?
    requires ds[i].stamp - g.skew <= ds[i].now <= ds[i].stamp + g.skew
    requires forall j :: 0 <= j < i ==> ds[j].key != ds[i].key
    ensures Decisions(g, map[], ds)[i]
  {
    KeysAreIndependent(g, map[], ds, i);
    NoneOwned(ds[..i], ds[i].key);
    WithinSkewIff(g, ds[i].now, ds[i].stamp);
  }

  lemma {:induction false} NoneOwned(ds: seq<Delivery>, key: Key)
    requires forall j :: 0 <= j < |ds| ==> ds[j].key != key
    ensures Own(ds, key) == []
    decreases |ds|
  {
    if ds != [] { NoneOwned(ds[1..], key); }
  }

  // ---------------------------------------------------------------- acceptance at most once

  /** Some delivery of this message in `ds` is accepted. */
  ghost predicate AcceptedAgain(g: Gate, n: Nonces, ds: seq<Delivery>, key: Key, stamp: int) {
    exists i :: 0 <= i < |ds| && ds[i].Is(key, stamp) && Decisions(g, n, ds)[i]
  }

  /** The key of a message outlives every delivery that can still pass the age check. */
  predicate Guarded(g: Gate, lag: int, n: Nonces, key: Key, stamp: int) {
    key in n && stamp + g.skew + lag <= n[key]
  }

  /** Deliveries only ever prolong a key, and a guarded message is refused. */
  lemma GuardHolds(g: Gate, lag: int, n: Nonces, d: Delivery, key: Key, stamp: int)
    requires g.Ok() && Guarded(g, lag, n, key, stamp)
    ensures Guarded(g, lag, After(g, n, d), key, stamp)
    ensures d.Is(key, stamp) && Prompt(d, lag) && stamp + MIN_DURATION < d.now ==> !Accepted(g, n, d)
  {
    WithinSkewIff(g, d.now, d.stamp);
  }

  /** An accepted delivery guards its message exactly when the key lives long enough. */
  lemma GuardSet(g: Gate, lag: int, n: Nonces, d: Delivery)
    requires g.Ok() && Accepted(g, n, d)
    ensures Guarded(g, lag, After(g, n, d), d.key, d.stamp) <==> d.stamp + g.skew + lag <= d.stored + g.ttl
  {
  }

  /** Nothing that happens to the store lets a guarded message in. */
  lemma {:induction false} ShutOut(g: Gate, lag: int, n: Nonces, ds: seq<Delivery>, key: Key, stamp: int, i: nat)
    requires g.Ok() && Guarded(g, lag, n, key, stamp)
    requires i < |ds| && ds[i].Is(key, stamp) && Prompt(ds[i], lag) && stamp + MIN_DURATION < ds[i].now
    ensures !Decisions(g, n, ds)[i]
    decreases |ds|
  {
    GuardHolds(g, lag, n, ds[0], key, stamp);
    if i > 0 { ShutOut(g, lag, After(g, n, ds[0]), ds[1..], key, stamp, i - 1); }
  }

  /** The run reaches the store after `d` has. */
  ghost predicate Follows(d: Delivery, ds: seq<Delivery>) {
    forall i :: 0 <= i < |ds| ==> d.stored <= ds[i].stored
  }

  /** Some later delivery of the same message, in a run that follows `d`, is accepted as well. */
  ghost predicate Replayable(g: Gate, lag: int, n: Nonces, d: Delivery) {
    exists ds, start ::
      Timed(ds, lag, start) && Follows(d, ds) && AcceptedAgain(g, After(g, n, d), ds, d.key, d.stamp)
  }

  /**
   After a first acceptance, the same message can be accepted again in some continuation exactly when
   the last delivery to pass the age check can reach the store after the nonce has expired.
   */
  lemma SecondAcceptanceIff(g: Gate, lag: int, n: Nonces, d: Delivery)
    requires g.Ok() && 0 <= lag && Prompt(d, lag) && Accepted(g, n, d)
    ensures Replayable(g, lag, n, d) <==> d.stored + g.ttl < d.stamp + g.skew + lag
  {
    var after := After(g, n, d);
    if d.stored + g.ttl < d.stamp + g.skew + lag {
      var late := Delivery(d.key, d.stamp, d.stamp + g.skew, d.stamp + g.skew + lag, Answers);
      WithinSkewIff(g, late.now, late.stamp);
      assert Decisions(g, after, [late])[0];
      assert Timed([late], lag, late.now) && Follows(d, [late]) && AcceptedAgain(g, after, [late], d.key, d.stamp);
    } else {
      GuardSet(g, lag, n, d);
      forall ds: seq<Delivery>, start | Timed(ds, lag, start) && Follows(d, ds)
        ensures !AcceptedAgain(g, after, ds, d.key, d.stamp)
      {
        forall i | 0 <= i < |ds| && ds[i].Is(d.key, d.stamp) ensures !Decisions(g, after, ds)[i] {
          assert Prompt(ds[i], lag);
          ShutOut(g, lag, after, ds, d.key, d.stamp, i);
        }
      }
    }
  }

  /**
   For the gateway: exactly the requests whose nonce was first set more than five seconds ahead of
   their stamp, less the time a later delivery may take to arrive with its body.
   */
  lemma GatewayReplayIff(lag: int, n: Nonces, d: Delivery)
    requires 0 <= lag && Prompt(d, lag) && Accepted(GATEWAY_GATE, n, d)
    ensures Replayable(GATEWAY_GATE, lag, n, d) <==> d.stored < d.stamp - 5 * SECOND + lag
  {
    SecondAcceptanceIff(GATEWAY_GATE, lag, n, d);
  }

  /** With bodies that may take the whole ReadTimeout, that includes every request handled at its own stamp. */
  lemma SlowBodiesReplay(n: Nonces, d: Delivery)
    requires Prompt(d, READ_TIMEOUT) && Accepted(GATEWAY_GATE, n, d)
    ensures Replayable(GATEWAY_GATE, READ_TIMEOUT, n, d) <==> d.stored < d.stamp + 5 * SECOND
  {
    GatewayReplayIff(READ_TIMEOUT, n, d);
  }

  // ---------------------------------------------------------------- at most once in every run

  ghost predicate AtMostOnce(g: Gate, n: Nonces, ds: seq<Delivery>, key: Key, stamp: int) {
    forall i, j :: 0 <= i < j < |ds| && ds[i].Is(key, stamp) && ds[j].Is(key, stamp) ==>
      !(Decisions(g, n, ds)[i] && Decisions(g, n, ds)[j])
  }

  /** The first instant of a run from `start` at which the stamp is inside its window. */
  function Earliest(g: Gate, stamp: int, start: int): int {
    if start < stamp - g.skew then stamp - g.skew else start
  }

  /** Even a nonce set at the earliest instant outlives the message; or the message is stale from the start. */
  predicate Outlived(g: Gate, lag: int, stamp: int, start: int) {
    stamp + g.skew < start || stamp + g.skew + lag <= Earliest(g, stamp, start) + g.ttl
  }

  lemma {:induction false} AtMostOnceRun(g: Gate, lag: int, n: Nonces, ds: seq<Delivery>, key: Key, stamp: int,
                                         start: int, i: nat, j: nat)
    requires g.Ok() && stamp + MIN_DURATION < start && Outlived(g, lag, stamp, start)
    requires i < j < |ds| && Timed(ds, lag, start)
    requires ds[i].Is(key, stamp) && ds[j].Is(key, stamp)
    ensures !(Decisions(g, n, ds)[i] && Decisions(g, n, ds)[j])
    decreases |ds|
  {
    var next := After(g, n, ds[0]);
    assert ds[1..][j - 1] == ds[j];
    assert Prompt(ds[0], lag) && Prompt(ds[j], lag);
    if i > 0 {
      assert ds[1..][i - 1] == ds[i];
      AtMostOnceRun(g, lag, next, ds[1..], key, stamp, start, i - 1, j - 1);
    } else if Accepted(g, n, ds[0]) {
      WithinSkewIff(g, ds[0].now, stamp);
      GuardSet(g, lag, n, ds[0]);
      ShutOut(g, lag, next, ds[1..], key, stamp, j - 1);
    }
  }

  /** Two deliveries that both pass, the second after the first one's nonce. */
  lemma TwoPass(g: Gate, lag: int, key: Key, stamp: int, first: int, second: Delivery)
    requires g.Ok() && 0 <= lag && WithinSkew(g, first, stamp)
    requires second.Is(key, stamp) && second.redis.Answers? && WithinSkew(g, second.now, stamp)
    requires first + g.ttl < second.stored
    ensures !AtMostOnce(g, map[], [Delivery(key, stamp, first, first, Answers), second], key, stamp)
  {
    var ds := [Delivery(key, stamp, first, first, Answers), second];
    assert ds[1..] == [ds[1]];
    assert Accepted(g, After(g, map[], ds[0]), ds[1]);
    assert Decisions(g, map[], ds)[0] && Decisions(g, map[], ds)[1];
  }

  /** `stamp` is so far ahead of `start` that the saturated age passes as fresh. */
  lemma FarFutureTwice(g: Gate, key: Key, stamp: int, start: int)
    requires g.Ok() && start <= stamp + MIN_DURATION
    ensures var ds := [Delivery(key, stamp, start, start, Answers), Delivery(key, stamp, stamp, stamp, Answers)];
            Timed(ds, 0, start) && !AtMostOnce(g, map[], ds, key, stamp)
  {
    WithinSkewIff(g, start, stamp);
    TwoPass(g, 0, key, stamp, start, Delivery(key, stamp, stamp, stamp, Answers));
  }

  /** The same within the life of a service, once the first nonce has expired. */
  lemma FarFutureSoon(g: Gate, key: Key, stamp: int, start: int)
    requires g.Ok() && start + g.ttl + 1 <= stamp + MIN_DURATION
    ensures var again := start + g.ttl + 1;
            var ds := [Delivery(key, stamp, start, start, Answers), Delivery(key, stamp, again, again, Answers)];
            Timed(ds, 0, start) && !AtMostOnce(g, map[], ds, key, stamp)
  {
    var again := start + g.ttl + 1;
    WithinSkewIff(g, start, stamp);
    WithinSkewIff(g, again, stamp);
    TwoPass(g, 0, key, stamp, start, Delivery(key, stamp, again, again, Answers));
  }

  /** First at the window's earliest instant, then at its last with the longest way to the store. */
  lemma EdgesTwice(g: Gate, lag: int, key: Key, stamp: int, start: int)
    requires g.Ok() && 0 <= lag && !Outlived(g, lag, stamp, start)
    ensures var first, last := Earliest(g, stamp, start), stamp + g.skew;
            var ds := [Delivery(key, stamp, first, first, Answers), Delivery(key, stamp, last, last + lag, Answers)];
            Timed(ds, lag, start) && !AtMostOnce(g, map[], ds, key, stamp)
  {
    var first, last := Earliest(g, stamp, start), stamp + g.skew;
    WithinSkewIff(g, first, stamp);
    WithinSkewIff(g, last, stamp);
    TwoPass(g, lag, key, stamp, first, Delivery(key, stamp, last, last + lag, Answers));
  }

  /**
   A message is accepted at most once in every run from `start` exactly when its stamp is less than
   2^63 ns ahead of `start` and even the earliest nonce outlives its last possible delivery.
   */
  lemma AtMostOnceIff(g: Gate, lag: int, key: Key, stamp: int, start: int)
    requires g.Ok() && 0 <= lag
    ensures (forall n, ds :: Timed(ds, lag, start) ==> AtMostOnce(g, n, ds, key, stamp))
            <==> stamp + MIN_DURATION < start && Outlived(g, lag, stamp, start)
  {
    if start <= stamp + MIN_DURATION {
      FarFutureTwice(g, key, stamp, start);
      var ds := [Delivery(key, stamp, start, start, Answers), Delivery(key, stamp, stamp, stamp, Answers)];
      assert Timed(ds, lag, start);
    } else if !Outlived(g, lag, stamp, start) {
      EdgesTwice(g, lag, key, stamp, start);
    } else {
      forall n, ds: seq<Delivery> | Timed(ds, lag, start) ensures AtMostOnce(g, n, ds, key, stamp) {
        forall i, j | 0 <= i < j < |ds| && ds[i].Is(key, stamp) && ds[j].Is(key, stamp)
          ensures !(Decisions(g, n, ds)[i] && Decisions(g, n, ds)[j])
        {
          AtMostOnceRun(g, lag, n, ds, key, stamp, start, i, j);
        }
      }
    }
  }

  /** A time to live of twice the skew leaves no slack: events are safe exactly when nothing delays the SETNX. */
  lemma EventGateHasNoSlack(lag: int, key: Key, stamp: int, start: int)
    requires 0 <= lag && stamp + MIN_DURATION < start <= stamp - EVENT_GATE.skew
    ensures (forall n, ds :: Timed(ds, lag, start) ==> AtMostOnce(EVENT_GATE, n, ds, key, stamp)) <==> lag == 0
  {
    AtMostOnceIff(EVENT_GATE, lag, key, stamp, start);
  }
}
