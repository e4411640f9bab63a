/** The kyc.tier_changed consumer: its gates in order, and the monotone statements behind them. */
module Kyc {
  import opened Common
  import opened Replay
  import Text
  import Canonical

  type Id = string

  datatype User = User(tier: int, verified: bool, deleted: bool)
  type Users = map<Id, User>

  predicate Live(users: Users, u: Id) {
    u in users && !users[u].deleted
  }

  // ---------------------------------------------------------------- statements on users

  /** Create and Delete are other requests' work on the same table. */
  datatype Statement =
    | SetTier(user: Id, tier: int)
    | SetEmailVerified(user: Id)
    | Create(user: Id, row: User)
    | Delete(user: Id)
  {
    predicate Update() {
      SetTier? || SetEmailVerified?
    }

    /** The tier this update asks for. */
    function Level(): int
      requires Update()
    {
      if SetTier? then tier else 1
    }
  }

  function Apply(users: Users, s: Statement): Users {
    if s.Create? then (if s.user in users then users else users[s.user := s.row])
    else if !Live(users, s.user) then users
    else
      var u := users[s.user];
      match s
      case SetTier(id, tier) => if u.tier < tier then users[id := u.(tier := tier)] else users
      case SetEmailVerified(id) => users[id := u.(tier := if u.tier < 1 then 1 else u.tier, verified := true)]
      case Delete(id) => users[id := u.(deleted := true)]
  }

  function ApplyAll(users: Users, ss: seq<Statement>): Users
    decreases |ss|
  {
    if ss == [] then users else ApplyAll(Apply(users, ss[0]), ss[1..])
  }

  lemma ApplyOne(users: Users, s: Statement)
    ensures ApplyAll(users, [s]) == Apply(users, s)
  {
    assert [s][1..] == [];
  }

  // ---------------------------------------------------------------- one event

  datatype Envelope = Envelope(eventId: string, occurredAt: string, version: string, userId: Id, newTier: int,
                               signature: string)

  /** The event MAC in hex, and the parser of RFC 3339 timestamps. */
  datatype Keys = Keys(mac: string -> string, parseTime: string -> Option<int>)

  function SignedInt(n: int): string {
    if n < 0 then "-" + Text.Decimal(-n) else Text.Decimal(n)
  }

  predicate Verifies(k: Keys, e: Envelope) {
    e.signature != "" &&
    e.signature == k.mac(Canonical.EventText(
                           Canonical.Event(e.eventId, e.occurredAt, e.version, e.userId, SignedInt(e.newTier))))
  }

  const MIN_TIER := 0
  const MAX_TIER := 3

  datatype State = State(dedup: Nonces, users: Users)

  /**
   A delivered message: `env` is None when the payload does not parse, the age is checked at `now`, the
   dedup key set at `stored`, and `fault` is that of the UPDATE.
   */
  datatype Op =
    | Message(env: Option<Envelope>, now: int, stored: int, redis: Reply, fault: Fault)
    | VerifyEmail(user: Id, fault: Fault)
    | Register(user: Id, row: User)
    | Remove(user: Id)

  /** The delivery that reaches the freshness and dedup gates, if any. */
  function Gated(k: Keys, op: Op): Option<Delivery> {
    if !op.Message? || op.env.None? || !Verifies(k, op.env.value) then None
    else match k.parseTime(op.env.value.occurredAt)
      case None => None
      case Some(at) => Some(Delivery(op.env.value.eventId, at, op.now, op.stored, op.redis))
  }

  /** The event passes every gate and reaches UpdateKYCTier. */
  predicate Reaches(k: Keys, st: State, op: Op) {
    var d := Gated(k, op);
    d.Some? && Accepted(EVENT_GATE, st.dedup, d.value) && MIN_TIER <= op.env.value.newTier <= MAX_TIER
  }

  /** The statements one operation runs on the users table. */
  function Statements(k: Keys, st: State, op: Op): seq<Statement> {
    match op
    case Message(env, _, _, _, fault) =>
      if Reaches(k, st, op) && !fault.NotApplied? then [SetTier(env.value.userId, env.value.newTier)] else []
    case VerifyEmail(user, fault) => if fault.NotApplied? then [] else [SetEmailVerified(user)]
    case Register(user, row) => [Create(user, row)]
    case Remove(user) => [Delete(user)]
  }

  function Step(k: Keys, st: State, op: Op): State {
    var d := Gated(k, op);
    State(if d.Some? then After(EVENT_GATE, st.dedup, d.value) else st.dedup,
          ApplyAll(st.users, Statements(k, st, op)))
  }

  function Run(k: Keys, st: State, ops: seq<Op>): State
    decreases |ops|
  {
    if ops == [] then st else Run(k, Step(k, st, ops[0]), ops[1..])
  }

  /** Everything a run does to the users table. */
  function Trace(k: Keys, st: State, ops: seq<Op>): seq<Statement>
    decreases |ops|
  {
    if ops == [] then [] else Statements(k, st, ops[0]) + Trace(k, Step(k, st, ops[0]), ops[1..])
  }

  /** Which operations of a run reach UpdateKYCTier. */
  function Reached(k: Keys, st: State, ops: seq<Op>): (r: seq<bool>)
    ensures |r| == |ops|
    decreases |ops|
  {
    if ops == [] then [] else [Reaches(k, st, ops[0])] + Reached(k, Step(k, st, ops[0]), ops[1..])
  }

  class Consumer {
    const keys: Keys
    var dedup: Nonces
    var users: Users

    function Current(): State
      reads this
    {
      State(dedup, users)
    }

    constructor (keys: Keys, users: Users)
      ensures this.keys == keys && Current() == State(map[], users)
    {
      this.keys := keys;
      this.users := users;
      dedup := map[];
    }

    /** False when no live row matches. */
    method UpdateKYCTier(id: Id, tier: int) returns (found: bool)
      modifies this`users
      ensures found <==> Live(old(users), id)
      ensures users == Apply(old(users), SetTier(id, tier))
      ensures found <==> id in old(users) && !old(users)[id].deleted
      ensures found ==>
        var u := old(users)[id]; users == old(users)[id := u.(tier := if u.tier < tier then tier else u.tier)]
      ensures !found ==> users == old(users)
    {
      found := id in users && !users[id].deleted;
      if found && users[id].tier < tier {
        users := users[id := users[id].(tier := tier)];
      }
    }

    method SetEmailVerified(id: Id) returns (found: bool)
      modifies this`users
      ensures found <==> Live(old(users), id)
      ensures users == Apply(old(users), Statement.SetEmailVerified(id))
      ensures found <==> id in old(users) && !old(users)[id].deleted
      ensures found ==>
        var u := old(users)[id]; users == old(users)[id := User(if u.tier < 1 then 1 else u.tier, true, false)]
      ensures !found ==> users == old(users)
    {
      found := id in users && !users[id].deleted;
      if found {
        var tier := if users[id].tier < 1 then 1 else users[id].tier;
        users := users[id := users[id].(tier := tier, verified := true)];
      }
    }

    method HandleKYCTierChanged(env: Option<Envelope>, now: int, stored: int, redis: Reply, fault: Fault)
      returns (reached: bool)
      modifies this`users, this`dedup
      ensures Current() == Step(keys, old(Current()), Message(env, now, stored, redis, fault))
      ensures reached <==> Reaches(keys, old(Current()), Message(env, now, stored, redis, fault))
      ensures reached <==>
        && env.Some?
        && (var e := env.value;
            && e.signature != ""
            && e.signature == keys.mac(e.eventId + "|" + e.occurredAt + "|" + e.version + "|" + e.userId + "|"
                                       + SignedInt(e.newTier))
            && keys.parseTime(e.occurredAt).Some?
            && (var at := keys.parseTime(e.occurredAt).value;
                at - 300 * SECOND <= now <= at + 300 * SECOND || now <= at + MIN_DURATION)
            && (e.eventId in old(dedup) ==> old(dedup)[e.eventId] < stored)
            && redis == Answers
            && 0 <= e.newTier <= 3)
      ensures reached ==> dedup == old(dedup)[env.value.eventId := stored + 600 * SECOND]
      ensures !reached || fault == NotApplied ==> users == old(users)
      ensures reached && fault != NotApplied ==>
        var id, tier := env.value.userId, env.value.newTier;
        if id in old(users) && !old(users)[id].deleted then
          var u := old(users)[id]; users == old(users)[id := u.(tier := if u.tier < tier then tier else u.tier)]
        else users == old(users)
      ensures forall id :: env.None? || id != env.value.eventId ==>
        (id in dedup <==> id in old(dedup)) && (id in dedup ==> dedup[id] == old(dedup)[id])
    {
      if env.Some? {
        var e := env.value;
        Canonical.EventTextSpelled(
          Canonical.Event(e.eventId, e.occurredAt, e.version, e.userId, SignedInt(e.newTier)));
        if keys.parseTime(e.occurredAt).Some? { WithinSkewIff(EVENT_GATE, now, keys.parseTime(e.occurredAt).value); }
      }
      reached := false;
      if env.None? || !Verifies(keys, env.value) { return; }
      var e := env.value;
      var at := keys.parseTime(e.occurredAt);
      if at.None? || !WithinSkew(EVENT_GATE, now, at.value) || redis.Refuses? { return; }
      var existed := e.eventId in dedup && stored <= dedup[e.eventId];
      if !existed {
        dedup := dedup[e.eventId := stored + EVENT_GATE.ttl];
      }
      if existed || redis.LosesAnswer? { return; }
      if e.newTier < MIN_TIER || e.newTier > MAX_TIER { return; }
      reached := true;
      if fault.NotApplied? { return; }
      ApplyOne(users, SetTier(e.userId, e.newTier));
      var _ := UpdateKYCTier(e.userId, e.newTier);
    }
  }
}
