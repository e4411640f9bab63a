/**
 OAuth sign-in, binding, registration and code exchange as interleaved step programs over
 single-use Redis keys, users and identity rows.
 */
module OAuth {
  import opened Common

  type Id = nat
  type Secret = nat          // random states, one-time codes and registration tokens

  datatype Provider = Google | Line

  /** Identity rows are keyed by the unique pair (provider, provider_subject). */
  datatype Key = Key(provider: Provider, subject: string)

  /** What the provider answers: `email` as sent, `address` normalized. */
  datatype Identity = Identity(subject: string, email: string, address: string, verified: bool)

  datatype User = User(address: string, deleted: bool, suspended: bool, hasPassword: bool)

  /** The value stored under a Redis key; its constructor is the key's prefix. */
  datatype Grant =
    | State(provider: Provider, forBind: Option<Id>)
    | Code(user: Id)
    | Reg(key: Key)

  /** The live keys; then, as history no step reads, every grant stored and how often each was taken. */
  datatype Redis = Redis(live: map<Secret, Grant>, minted: map<Secret, Grant>, taken: multiset<Secret>)
  {
    /** SET under a key never used before. */
    function Put(x: Secret, g: Grant): Redis {
      Redis(live[x := g], minted[x := g], taken)
    }

    /** GETDEL of a live key. */
    function Got(x: Secret): Redis {
      Redis(live - {x}, minted, taken + multiset{x})
    }

    function Expired(x: Secret): Redis {
      this.(live := live - {x})
    }

    predicate Minted(x: Option<Secret>, g: Grant) {
      x.Some? && x.value in minted && minted[x.value] == g
    }
  }

  /** Tables and Redis; `linkedBy` is history: the request that inserted each identity row. */
  datatype World = World(users: map<Id, User>, identities: map<Key, Id>, linkedBy: map<Key, Id>, redis: Redis)

  predicate Visible(w: World, u: Id) {
    u in w.users && !w.users[u].deleted
  }

  predicate AddressTaken(w: World, address: string) {
    exists u :: u in w.users && !w.users[u].deleted && w.users[u].address == address
  }

  datatype Error =
    | StateInvalid | ExchangeFailed | AccountSuspended | EmailTaken | IdentityAlreadyBound | UserMissing
    | RegTokenInvalid | Validation | CodeInvalid | LastLoginMethod | NotFound | StoreError

  datatype Outcome =
    | Redirect(state: Secret) | CodeIssued(code: Secret) | EmailCollision | NeedsRegistration(token: Secret)
    | Bound | Paired(user: Id) | Unbound | Failed(error: Error)

  /** The next statement of a request. */
  datatype Pc =
    | Starting(provider: Provider)
    | BindStarting(provider: Provider, user: Id)
    | Calling(provider: Provider, state: Option<Secret>)   // GETDEL of a state whose MAC verified
    | Resolving(provider: Provider)                        // SELECT the identity row
    | LoadingUser(user: Id)
    | CheckingEmail(provider: Provider, id: Identity)
    | IssuingReg(key: Key)
    | CreatingUser(key: Key, address: string)
    | Linking(key: Key, user: Id)                          // INSERT the row for the user just created
    | IssuingCode(user: Id)
    | BindLoading(provider: Provider, user: Id)
    | BindChecking(provider: Provider, user: Id)
    | BindLinking(key: Key, user: Id)                      // INSERT the row for the binding user
    | Registering(token: Secret, address: string)
    | RegChecking(key: Key, address: string)
    | Exchanging(code: Secret)
    | ExchangeLoading(user: Id)
    | Pairing(user: Id)                                    // INSERT the refresh token
    | UnbindLoading(user: Id, provider: Provider)
    | UnbindListing(user: Id, provider: Provider, hasPassword: bool)
    | Unbinding(user: Id, provider: Provider)
    | Finished(out: Outcome)
  {
    predicate Entry() {
      Starting? || BindStarting? || Calling? || Registering? || Exchanging? || UnbindLoading?
    }

    predicate Minting() {
      Starting? || BindStarting? || IssuingReg? || IssuingCode?
    }

    predicate Taking() {
      Calling? || Registering? || Exchanging?
    }

    predicate AfterCreation() {
      Linking? || IssuingCode? || Finished?
    }
  }

  /** A request; `took` and `created` are history: the grant it consumed and the user it created. */
  datatype Call = Call(pc: Pc, took: Option<Secret>, created: Option<Id>)

  /** Fresh random values, the provider's answer (None: exchange or fetch failed), and faults. */
  datatype Env = Env(secret: Secret, user: Id, answer: Option<Identity>, fault: Fault)

  function Fail(c: Call, error: Error): Call {
    c.(pc := Finished(Failed(error)))
  }

  /** A random secret never repeats, so a used one leaves everything as it is. */
  function Mint(w: World, c: Call, x: Secret, g: Grant, out: Outcome): (World, Call) {
    if x in w.redis.minted then (w, c)
    else (w.(redis := w.redis.Put(x, g)), c.(pc := Finished(out)))
  }

  function Take(w: World, x: Secret): World {
    w.(redis := w.redis.Got(x))
  }

  function Link(w: World, pid: Id, key: Key, user: Id): World {
    w.(identities := w.identities[key := user], linkedBy := w.linkedBy[key := pid])
  }

  function Identities(w: World, user: Id): set<Key> {
    set k | k in w.identities && w.identities[k] == user
  }

  function Of(w: World, user: Id, provider: Provider): set<Key> {
    set k | k in Identities(w, user) && k.provider == provider
  }

  function Unlink(w: World, user: Id, provider: Provider): World {
    var gone := Of(w, user, provider);
    w.(identities := w.identities - gone, linkedBy := w.linkedBy - gone)
  }

  /** One statement and the local checks after it. */
  function Exec(w: World, pid: Id, c: Call, e: Env): (World, Call) {
    match c.pc
    case Starting(provider) => Mint(w, c, e.secret, State(provider, None), Redirect(e.secret))
    case BindStarting(provider, user) => Mint(w, c, e.secret, State(provider, Some(user)), Redirect(e.secret))
    case Calling(provider, state) =>
      if state.None? || state.value !in w.redis.live || !w.redis.live[state.value].State?
      then (w, Fail(c, StateInvalid))
      else
        var g := w.redis.live[state.value];
        var d := c.(took := state);
        (Take(w, state.value),
         if g.provider != provider then Fail(d, StateInvalid)
         else d.(pc := if g.forBind.Some? then BindLoading(provider, g.forBind.value) else Resolving(provider)))
    case Resolving(provider) =>
      if e.answer.None? then (w, Fail(c, ExchangeFailed))
      else
        var id := e.answer.value;
        var key := Key(provider, id.subject);
        (w, c.(pc := if key in w.identities then LoadingUser(w.identities[key])
                     else if id.email != "" && id.verified then CheckingEmail(provider, id)
                     else if id.email == "" then IssuingReg(key)
                     else CreatingUser(key, id.address)))
    case LoadingUser(user) =>
      if !Visible(w, user) then (w, Fail(c, UserMissing))
      else if w.users[user].suspended then (w, Fail(c, AccountSuspended))
      else (w, c.(pc := IssuingCode(user)))
    case CheckingEmail(provider, id) =>
      (w, c.(pc := if AddressTaken(w, id.address) then Finished(EmailCollision)
                   else CreatingUser(Key(provider, id.subject), id.address)))
    case IssuingReg(key) => Mint(w, c, e.secret, Reg(key), NeedsRegistration(e.secret))
    case CreatingUser(key, address) =>
      if e.user in w.users then (w, c)
      else if AddressTaken(w, address) then (w, Fail(c, EmailTaken))
      else (w.(users := w.users[e.user := User(address, false, false, false)]),
            c.(pc := Linking(key, e.user), created := Some(e.user)))
    case Linking(key, user) =>
      if key in w.identities then (w, Fail(c, IdentityAlreadyBound))
      else (Link(w, pid, key, user), c.(pc := IssuingCode(user)))
    case IssuingCode(user) => Mint(w, c, e.secret, Code(user), CodeIssued(e.secret))
    case BindLoading(provider, user) =>
      if !Visible(w, user) then (w, Fail(c, UserMissing)) else (w, c.(pc := BindChecking(provider, user)))
    case BindChecking(provider, user) =>
      if e.answer.None? then (w, Fail(c, ExchangeFailed))
      else
        var key := Key(provider, e.answer.value.subject);
        if key in w.identities then (w, Fail(c, IdentityAlreadyBound)) else (w, c.(pc := BindLinking(key, user)))
    case BindLinking(key, user) =>
      if key in w.identities then (w, Fail(c, IdentityAlreadyBound))
      else (Link(w, pid, key, user), c.(pc := Finished(Bound)))
    case Registering(token, address) =>
      if token !in w.redis.live || !w.redis.live[token].Reg? then (w, Fail(c, RegTokenInvalid))
      else
        var d := c.(took := Some(token));
        (Take(w, token),
         if address == "" then Fail(d, Validation) else d.(pc := RegChecking(w.redis.live[token].key, address)))
    case RegChecking(key, address) =>
      (w, c.(pc := if AddressTaken(w, address) then Finished(EmailCollision) else CreatingUser(key, address)))
    case Exchanging(code) =>
      if code !in w.redis.live || !w.redis.live[code].Code? then (w, Fail(c, CodeInvalid))
      else (Take(w, code), c.(pc := ExchangeLoading(w.redis.live[code].user), took := Some(code)))
    case ExchangeLoading(user) =>
      if !Visible(w, user) then (w, Fail(c, CodeInvalid))
      else if w.users[user].suspended then (w, Fail(c, AccountSuspended))
      else (w, c.(pc := Pairing(user)))
    case Pairing(user) => (w, c.(pc := Finished(Paired(user))))
    case UnbindLoading(user, provider) =>
      if !Visible(w, user) then (w, Fail(c, NotFound))
      else (w, c.(pc := UnbindListing(user, provider, w.users[user].hasPassword)))
    case UnbindListing(user, provider, hasPassword) =>
      if !hasPassword && (forall k :: k in Identities(w, user) ==> k.provider == provider)
      then (w, Fail(c, LastLoginMethod))
      else (w, c.(pc := Unbinding(user, provider)))
    case Unbinding(user, provider) =>
      (Unlink(w, user, provider),
       if Of(w, user, provider) == {} then Fail(c, NotFound) else c.(pc := Finished(Unbound)))
    case Finished(_) => (w, c)
  }

  // ---------------------------------------------------------------- the whole system

  datatype Sys = Sys(w: World, calls: map<Id, Call>)

  datatype Action =
    | Begin(pid: Id, pc: Pc)
    | Next(pid: Id, env: Env)
    | Expire(x: Secret)                                   // a Redis key reaches its TTL
    | SetUser(user: Id, deleted: bool, suspended: bool)   // deletion is final for an address; see Step
    | AddUser(user: Id, address: string)                  // password registration

  function Step(s: Sys, a: Action): Sys {
    match a
    case Begin(pid, pc) =>
      if pid in s.calls || !pc.Entry() then s else s.(calls := s.calls[pid := Call(pc, None, None)])
    case Next(pid, e) =>
      if pid !in s.calls || s.calls[pid].pc.Finished? then s
      else
        var (w, c) := Exec(s.w, pid, s.calls[pid], e);
        (match e.fault
         case NoFault => Sys(w, s.calls[pid := c])
         case NotApplied => s.(calls := s.calls[pid := Fail(s.calls[pid], StoreError)])
         case AnswerLost => Sys(w, s.calls[pid := Fail(c, StoreError)]))
    case Expire(x) => s.(w := s.w.(redis := s.w.redis.Expired(x)))
    case SetUser(user, deleted, suspended) =>
      // a deleted row stays deleted: its address may have been registered again
      if user !in s.w.users then s
      else
        var u := s.w.users[user];
        s.(w := s.w.(users := s.w.users[user := u.(deleted := u.deleted || deleted, suspended := suspended)]))
    case AddUser(user, address) =>
      if user in s.w.users || AddressTaken(s.w, address) then s
      else s.(w := s.w.(users := s.w.users[user := User(address, false, false, true)]))
  }

  function Run(s: Sys, acts: seq<Action>): Sys
    decreases |acts|
  {
    if acts == [] then s else Run(Step(s, acts[0]), acts[1..])
  }

  const START := Sys(World(map[], map[], map[], Redis(map[], map[], multiset{})), map[])

  ghost predicate Reachable(s: Sys) {
    exists acts :: s == Run(START, acts)
  }

  // ---------------------------------------------------------------- invariants

  /** Live keys are minted; a taken key was minted, is gone, and was taken once. */
  ghost predicate GrantsOk(r: Redis) {
    && (forall x :: x in r.live ==> x in r.minted && r.minted[x] == r.live[x])
    && (forall x :: r.taken[x] <= 1)
    && (forall x :: x in r.taken ==> x in r.minted && x !in r.live)
  }

  /** The request consumed a state that a BindStart of `user` stored for `provider`. */
  ghost predicate BindsFor(w: World, c: Call, provider: Provider, user: Id) {
    w.redis.Minted(c.took, State(provider, Some(user)))
  }

  ghost predicate PcOk(w: World, c: Call) {
    match c.pc
    case Linking(key, user) => c.created == Some(user)
    case BindLoading(provider, user) => BindsFor(w, c, provider, user)
    case BindChecking(provider, user) => BindsFor(w, c, provider, user)
    case BindLinking(key, user) => BindsFor(w, c, key.provider, user)
    case ExchangeLoading(user) => w.redis.Minted(c.took, Code(user))
    case Pairing(user) => w.redis.Minted(c.took, Code(user))
    case Finished(out) => out.Paired? ==> w.redis.Minted(c.took, Code(out.user))
    case _ => true
  }

  ghost predicate CallOk(w: World, c: Call) {
    && PcOk(w, c)
    && (c.took.Some? ==> c.took.value in w.redis.taken)
    && (c.created.Some? ==> c.created.value in w.users && c.pc.AfterCreation())
    && (c.pc.Entry() ==> c.took.None?)
  }

  /** Distinct requests consumed distinct grants and created distinct users. */
  ghost predicate Distinct(calls: map<Id, Call>) {
    forall p, q :: p in calls && q in calls && p != q ==>
      && (calls[p].took.Some? ==> calls[p].took != calls[q].took)
      && (calls[p].created.Some? ==> calls[p].created != calls[q].created)
  }

  /** The request that inserted a row had created its user, or was consuming that user's bind state. */
  ghost predicate LinkOk(s: Sys, key: Key) {
    key in s.w.identities ==>
      && key in s.w.linkedBy
      && s.w.linkedBy[key] in s.calls
      && (var c := s.calls[s.w.linkedBy[key]];
          c.created == Some(s.w.identities[key]) || BindsFor(s.w, c, key.provider, s.w.identities[key]))
  }

  ghost predicate AddressesOk(w: World) {
    forall u, v ::
      (&& u in w.users && v in w.users && !w.users[u].deleted && !w.users[v].deleted
       && w.users[u].address == w.users[v].address) ==> u == v
  }

  ghost predicate Inv(s: Sys) {
    && GrantsOk(s.w.redis)
    && AddressesOk(s.w)
    && (forall p :: p in s.calls ==> CallOk(s.w, s.calls[p]))
    && Distinct(s.calls)
    && (forall key :: LinkOk(s, key))
  }

  // ---------------------------------------------------------------- one statement

  /** Grants stay minted as they were, users stay rows, and what was taken stays taken. */
  ghost predicate Evolves(a: World, b: World) {
    && (forall x :: x in a.redis.minted ==> x in b.redis.minted && b.redis.minted[x] == a.redis.minted[x])
    && (forall x :: x in a.redis.taken ==> x in b.redis.taken)
    && (forall u :: u in a.users ==> u in b.users)
  }

  /** History entries are set once, and only with a value no other request can hold. */
  ghost predicate Moves(a: World, c: Call, d: Call) {
    && (d.took == c.took || (c.took.None? && d.took.Some? && d.took.value !in a.redis.taken))
    && (d.created == c.created || (c.created.None? && d.created.Some? && d.created.value !in a.users))
  }

  /** A statement stores one fresh key, consumes one live key, or leaves Redis alone. */
  lemma MintingRedis(w: World, pid: Id, c: Call, e: Env)
    requires c.pc.Minting()
    ensures var r := Exec(w, pid, c, e).0.redis;
      || r == w.redis
      || (e.secret !in w.redis.minted && e.secret in r.minted && r == w.redis.Put(e.secret, r.minted[e.secret]))
  {
  }

  lemma TakingRedis(w: World, pid: Id, c: Call, e: Env)
    requires c.pc.Taking()
    ensures var (v, d) := Exec(w, pid, c, e);
      && !d.pc.Entry()
      && if v.redis == w.redis then d.took == c.took
         else d.took.Some? && d.took.value in w.redis.live && v.redis == w.redis.Got(d.took.value)
  {
  }

  lemma OtherRedis(w: World, pid: Id, c: Call, e: Env)
    requires !c.pc.Minting() && !c.pc.Taking()
    ensures Exec(w, pid, c, e).0.redis == w.redis
  {
  }

  lemma PutOk(r: Redis, x: Secret, g: Grant)
    requires GrantsOk(r) && x !in r.minted
    ensures GrantsOk(r.Put(x, g))
  {
  }

  lemma GotOk(r: Redis, x: Secret)
    requires GrantsOk(r) && x in r.live
    ensures GrantsOk(r.Got(x))
  {
  }

  lemma ExecGrants(w: World, pid: Id, c: Call, e: Env)
    requires GrantsOk(w.redis)
    ensures GrantsOk(Exec(w, pid, c, e).0.redis)
    ensures Evolves(w, Exec(w, pid, c, e).0)
  {
    var (v, d) := Exec(w, pid, c, e);
    if c.pc.Minting() {
      MintingRedis(w, pid, c, e);
      if v.redis != w.redis { PutOk(w.redis, e.secret, v.redis.minted[e.secret]); }
    } else if c.pc.Taking() {
      TakingRedis(w, pid, c, e);
      if v.redis != w.redis { GotOk(w.redis, d.took.value); }
    } else {
      OtherRedis(w, pid, c, e);
    }
    ExecUsers(w, pid, c, e);
  }

  lemma ExecUsers(w: World, pid: Id, c: Call, e: Env)
    ensures var (v, d) := Exec(w, pid, c, e);
      || v.users == w.users
      || (&& c.pc.CreatingUser? && e.user !in w.users && !AddressTaken(w, c.pc.address)
          && v.users == w.users[e.user := User(c.pc.address, false, false, false)])
  {
  }

  lemma ExecAddresses(w: World, pid: Id, c: Call, e: Env)
    requires AddressesOk(w)
    ensures AddressesOk(Exec(w, pid, c, e).0)
  {
    ExecUsers(w, pid, c, e);
  }

  lemma ExecTook(w: World, pid: Id, c: Call, e: Env)
    requires !c.pc.Taking()
    ensures var d := Exec(w, pid, c, e).1; d.took == c.took && (d.pc.Entry() ==> c.pc.Entry())
  {
  }

  lemma ExecCreated(w: World, pid: Id, c: Call, e: Env)
    requires c.created.Some? ==> c.pc.AfterCreation()
    ensures var (v, d) := Exec(w, pid, c, e);
      && (d.created.Some? ==> d.pc.AfterCreation())
      && (|| d.created == c.created
          || (c.created.None? && d.created == Some(e.user) && e.user !in w.users && e.user in v.users))
  {
  }

  lemma ExecMoves(w: World, pid: Id, c: Call, e: Env)
    requires GrantsOk(w.redis) && CallOk(w, c)
    ensures var (v, d) := Exec(w, pid, c, e);
      && Moves(w, c, d)
      && (d.took.Some? ==> d.took.value in v.redis.taken)
      && (d.created.Some? ==> d.created.value in v.users && d.pc.AfterCreation())
      && (d.pc.Entry() ==> d.took.None?)
  {
    if c.pc.Taking() { TakingRedis(w, pid, c, e); } else { ExecTook(w, pid, c, e); }
    ExecCreated(w, pid, c, e);
    ExecGrants(w, pid, c, e);
  }

  /** The statements that consume a grant remember what it granted. */
  lemma TakingPcOk(w: World, pid: Id, c: Call, e: Env)
    requires GrantsOk(w.redis) && c.pc.Entry()
    ensures var (v, d) := Exec(w, pid, c, e); PcOk(v, d)
  {
  }

  lemma ExecPcOk(w: World, pid: Id, c: Call, e: Env)
    requires GrantsOk(w.redis) && PcOk(w, c) && !c.pc.Entry()
    ensures PcOk(w, Exec(w, pid, c, e).1)
  {
  }

  lemma ExecCallOk(w: World, pid: Id, c: Call, e: Env)
    requires GrantsOk(w.redis) && CallOk(w, c)
    ensures var (v, d) := Exec(w, pid, c, e); CallOk(v, d) && Moves(w, c, d)
  {
    ExecMoves(w, pid, c, e);
    if c.pc.Entry() { TakingPcOk(w, pid, c, e); } else { ExecPcOk(w, pid, c, e); ExecGrants(w, pid, c, e); }
  }

  /** A row survives a statement untouched, or the statement inserted it. */
  lemma ExecLinks(w: World, pid: Id, c: Call, e: Env, key: Key)
    requires GrantsOk(w.redis) && CallOk(w, c)
    requires key in w.identities ==> key in w.linkedBy
    ensures var (v, d) := Exec(w, pid, c, e);
      key in v.identities ==>
        && key in v.linkedBy
        && if key in w.identities then v.identities[key] == w.identities[key] && v.linkedBy[key] == w.linkedBy[key]
           else v.linkedBy[key] == pid
                && ((c.pc.Linking? && d.created == Some(v.identities[key]))
                    || (c.pc.BindLinking? && BindsFor(v, d, key.provider, v.identities[key])))
  {
  }

  lemma CallOkEvolves(a: World, b: World, c: Call)
    requires CallOk(a, c) && Evolves(a, b)
    ensures CallOk(b, c)
  {
  }

  // ---------------------------------------------------------------- one step of the system

  /** Where a row of the new state came from. */
  ghost predicate RowOk(s: Sys, pid: Id, w: World, d: Call, key: Key) {
    key in w.identities ==>
      && key in w.linkedBy
      && if key in s.w.identities
         then key in s.w.linkedBy && w.identities[key] == s.w.identities[key] && w.linkedBy[key] == s.w.linkedBy[key]
         else w.linkedBy[key] == pid
              && (d.created == Some(w.identities[key]) || BindsFor(w, d, key.provider, w.identities[key]))
  }

  lemma DistinctAdvance(w: World, calls: map<Id, Call>, pid: Id, d: Call)
    requires Distinct(calls) && pid in calls && Moves(w, calls[pid], d)
    requires forall p :: p in calls ==> CallOk(w, calls[p])
    ensures Distinct(calls[pid := d])
  {
  }

  lemma InvAdvance(s: Sys, pid: Id, w: World, d: Call)
    requires Inv(s) && pid in s.calls
    requires Evolves(s.w, w) && GrantsOk(w.redis) && AddressesOk(w) && CallOk(w, d) && Moves(s.w, s.calls[pid], d)
    requires forall key :: RowOk(s, pid, w, d, key)
    ensures Inv(Sys(w, s.calls[pid := d]))
  {
    var t := Sys(w, s.calls[pid := d]);
    forall p | p in t.calls ensures CallOk(w, t.calls[p]) {
      if p != pid { CallOkEvolves(s.w, w, s.calls[p]); }
    }
    forall key ensures LinkOk(t, key) {
      assert RowOk(s, pid, w, d, key);
      assert LinkOk(s, key);
    }
    DistinctAdvance(s.w, s.calls, pid, d);
  }

  lemma InvNext(s: Sys, pid: Id, e: Env)
    requires Inv(s) && pid in s.calls
    ensures Inv(Step(s, Next(pid, e)))
  {
    var c := s.calls[pid];
    assert CallOk(s.w, c);
    if c.pc.Finished? {
    } else if e.fault.NotApplied? {
      forall key ensures RowOk(s, pid, s.w, Fail(c, StoreError), key) {
        assert LinkOk(s, key);
      }
      InvAdvance(s, pid, s.w, Fail(c, StoreError));
    } else {
      var (w, d) := Exec(s.w, pid, c, e);
      ExecGrants(s.w, pid, c, e);
      ExecAddresses(s.w, pid, c, e);
      ExecCallOk(s.w, pid, c, e);
      var f := if e.fault.AnswerLost? then Fail(d, StoreError) else d;
      forall key ensures RowOk(s, pid, w, f, key) {
        assert LinkOk(s, key);
        ExecLinks(s.w, pid, c, e, key);
      }
      InvAdvance(s, pid, w, f);
    }
  }

  /** Steps outside every request: they add and change users, or drop live keys. */
  lemma InvOutside(s: Sys, w: World)
    requires Inv(s) && Evolves(s.w, w) && GrantsOk(w.redis) && AddressesOk(w)
    requires w.identities == s.w.identities && w.linkedBy == s.w.linkedBy
    ensures Inv(s.(w := w))
  {
    var t := s.(w := w);
    forall p | p in t.calls ensures CallOk(w, t.calls[p]) {
      CallOkEvolves(s.w, w, s.calls[p]);
    }
    forall key ensures LinkOk(t, key) {
      assert LinkOk(s, key);
    }
  }

  lemma InvBegin(s: Sys, pid: Id, pc: Pc)
    requires Inv(s) && pid !in s.calls && pc.Entry()
    ensures Inv(s.(calls := s.calls[pid := Call(pc, None, None)]))
  {
    var t := s.(calls := s.calls[pid := Call(pc, None, None)]);
    forall p | p in t.calls ensures CallOk(t.w, t.calls[p]) {
      if p != pid { assert CallOk(s.w, s.calls[p]); }
    }
    forall key ensures LinkOk(t, key) {
      assert LinkOk(s, key);
    }
  }

  lemma InvStep(s: Sys, a: Action)
    requires Inv(s)
    ensures Inv(Step(s, a))
  {
    match a
    case Begin(pid, pc) => if pid !in s.calls && pc.Entry() { InvBegin(s, pid, pc); }
    case Next(pid, e) => if pid in s.calls { InvNext(s, pid, e); }
    case _ => InvOutside(s, Step(s, a).w);
  }

  lemma {:induction false} InvRun(s: Sys, acts: seq<Action>)
    requires Inv(s)
    ensures Inv(Run(s, acts))
    decreases |acts|
  {
    if acts != [] {
      InvStep(s, acts[0]);
      InvRun(Step(s, acts[0]), acts[1..]);
    }
  }

  lemma ReachableInv(s: Sys)
    requires Reachable(s)
    ensures Inv(s)
  {
    var acts :| s == Run(START, acts);
    InvRun(START, acts);
  }
}
