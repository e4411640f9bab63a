/**
 The connection graph: invitations guarded by a partial unique index, a guarded resolve that
 carries the authorization, and the three lists of a user's other parties.
 */
module Connections {
  import opened Common

  type Id = nat

  datatype Status = Pending | Accepted | Declined

  datatype Edge = Edge(requester: Id, addressee: Id, status: Status)
  {
    predicate Live() {
      status.Pending? || status.Accepted?
    }

    predicate Touches(u: Id) {
      requester == u || addressee == u
    }

    /** The CASE expression that picks the party other than `u`. */
    function Other(u: Id): Id {
      if requester == u then addressee else requester
    }

    function Pair(): set<Id> {
      {requester, addressee}
    }
  }

  datatype Db = Db(edges: map<Id, Edge>, users: map<Id, bool>)   // each user with its deleted flag

  predicate Visible(db: Db, u: Id) {
    u in db.users && !db.users[u]
  }

  /** The partial unique index refuses a second live edge over the same unordered pair. */
  predicate PairTaken(db: Db, pair: set<Id>) {
    exists id :: id in db.edges && db.edges[id].Live() && db.edges[id].Pair() == pair
  }

  predicate Resolvable(db: Db, id: Id, caller: Id) {
    id in db.edges && db.edges[id].addressee == caller && db.edges[id].status.Pending?
  }

  // ---------------------------------------------------------------- requests

  datatype Error = Validation | NotFound | ConnectionExists | ConnectionNotFound | ConnectionNotPending | StoreError

  datatype Outcome = Created(id: Id) | Resolved | Failed(error: Error)

  datatype Pc =
    | Inviting(requester: Id, addressee: Id)                     // self check, SELECT the addressee
    | Creating(requester: Id, addressee: Id)                     // INSERT
    | Resolving(edge: Id, caller: Id, status: Status)            // the guarded UPDATE
    | Finished(out: Outcome)
  {
    predicate Entry() {
      Inviting? || (Resolving? && !status.Pending?)
    }
  }

  datatype Env = Env(newId: Id, fault: Fault)

  /** One statement and the local checks around it. */
  function Exec(db: Db, c: Pc, e: Env): (Db, Pc) {
    match c
    case Inviting(requester, addressee) =>
      if requester == addressee then (db, Finished(Failed(Validation)))
      else if !e.fault.NoFault? then (db, Finished(Failed(StoreError)))
      else if !Visible(db, addressee) then (db, Finished(Failed(NotFound)))
      else (db, Creating(requester, addressee))
    case Creating(requester, addressee) =>
      if e.newId in db.edges then (db, c)   // random ids never repeat
      else if e.fault.NotApplied? then (db, Finished(Failed(StoreError)))
      else if PairTaken(db, {requester, addressee}) then
        (db, Finished(Failed(if e.fault.AnswerLost? then StoreError else ConnectionExists)))
      else
        (db.(edges := db.edges[e.newId := Edge(requester, addressee, Pending)]),
         Finished(if e.fault.AnswerLost? then Failed(StoreError) else Created(e.newId)))
    case Resolving(id, caller, status) =>
      if e.fault.NotApplied? then (db, Finished(Failed(StoreError)))
      else
        (if Resolvable(db, id, caller) then db.(edges := db.edges[id := db.edges[id].(status := status)]) else db,
         Finished(if e.fault.AnswerLost? then Failed(StoreError)
                  else if id !in db.edges || db.edges[id].addressee != caller then Failed(ConnectionNotFound)
                  else if !db.edges[id].status.Pending? then Failed(ConnectionNotPending)
                  else Resolved))
    case Finished(_) => (db, c)
  }

  // ---------------------------------------------------------------- the whole system

  /** A resolution that took effect: which edge, by whom, to what. */
  datatype Verdict = Verdict(edge: Id, caller: Id, status: Status)

  /** `verdicts` is history. */
  datatype Sys = Sys(db: Db, calls: map<Id, Pc>, verdicts: seq<Verdict>)

  datatype Action =
    | Begin(pid: Id, pc: Pc)
    | Next(pid: Id, env: Env)
    | SetUser(user: Id, deleted: bool)            // a new user, or the final deletion of one

  function Step(s: Sys, a: Action): Sys {
    match a
    case Begin(pid, pc) => if pid in s.calls || !pc.Entry() then s else s.(calls := s.calls[pid := pc])
    case Next(pid, e) =>
      if pid !in s.calls then s
      else
        var c := s.calls[pid];
        var (db, d) := Exec(s.db, c, e);
        Sys(db, s.calls[pid := d],
            if c.Resolving? && !e.fault.NotApplied? && Resolvable(s.db, c.edge, c.caller)
            then s.verdicts + [Verdict(c.edge, c.caller, c.status)] else s.verdicts)
    case SetUser(user, deleted) =>
      var gone := user in s.db.users && s.db.users[user];
      s.(db := s.db.(users := s.db.users[user := gone || deleted]))
  }

  function Run(s: Sys, acts: seq<Action>): Sys
    decreases |acts|
  {
    if acts == [] then s else Run(Step(s, acts[0]), acts[1..])
  }

  const START := Sys(Db(map[], map[]), map[], [])

  ghost predicate Reachable(s: Sys) {
    exists acts :: s == Run(START, acts)
  }

  // ---------------------------------------------------------------- invariants

  ghost predicate OnePerPair(db: Db) {
    forall i, j :: (&& i in db.edges && j in db.edges && db.edges[i].Live() && db.edges[j].Live()
                    && db.edges[i].Pair() == db.edges[j].Pair()) ==> i == j
  }

  ghost predicate NoSelfEdge(db: Db) {
    forall i :: i in db.edges ==> db.edges[i].requester != db.edges[i].addressee
  }

  ghost predicate PcOk(c: Pc) {
    && (c.Creating? ==> c.requester != c.addressee)
    && (c.Resolving? ==> !c.status.Pending?)
  }

  /** A verdict was given by the addressee, once, and the edge still carries it. */
  ghost predicate VerdictOk(s: Sys, i: int) {
    0 <= i < |s.verdicts| ==>
      var v := s.verdicts[i];
      && v.edge in s.db.edges
      && v.caller == s.db.edges[v.edge].addressee
      && v.status == s.db.edges[v.edge].status
      && !v.status.Pending?
      && forall j :: 0 <= j < |s.verdicts| && s.verdicts[j].edge == v.edge ==> j == i
  }

  predicate Judged(s: Sys, id: Id) {
    exists i :: 0 <= i < |s.verdicts| && s.verdicts[i].edge == id
  }

  ghost predicate EdgeOk(s: Sys, id: Id) {
    id in s.db.edges ==> (s.db.edges[id].status.Pending? <==> !Judged(s, id))
  }

  ghost predicate Inv(s: Sys) {
    && OnePerPair(s.db)
    && NoSelfEdge(s.db)
    && (forall p :: p in s.calls ==> PcOk(s.calls[p]))
    && (forall i :: VerdictOk(s, i))
    && (forall id :: EdgeOk(s, id))
  }

  lemma ExecGraph(db: Db, c: Pc, e: Env)
    requires OnePerPair(db) && NoSelfEdge(db) && PcOk(c)
    ensures var (after, d) := Exec(db, c, e);
      OnePerPair(after) && NoSelfEdge(after) && PcOk(d)
  {
  }

  lemma InvCreating(s: Sys, pid: Id, e: Env)
    requires Inv(s) && pid in s.calls && !s.calls[pid].Resolving?
    ensures Inv(Step(s, Next(pid, e)))
  {
    var t := Step(s, Next(pid, e));
    ExecGraph(s.db, s.calls[pid], e);
    forall i ensures VerdictOk(t, i) && (0 <= i < |s.verdicts| ==> s.verdicts[i].edge in s.db.edges) {
      assert VerdictOk(s, i);
    }
    forall id ensures EdgeOk(t, id) { assert EdgeOk(s, id); }
  }

  lemma InvResolving(s: Sys, pid: Id, e: Env)
    requires Inv(s) && pid in s.calls && s.calls[pid].Resolving?
    ensures Inv(Step(s, Next(pid, e)))
  {
    var c, t := s.calls[pid], Step(s, Next(pid, e));
    ExecGraph(s.db, c, e);
    if !e.fault.NotApplied? && Resolvable(s.db, c.edge, c.caller) {
      var n := |s.verdicts|;
      assert EdgeOk(s, c.edge);
      forall i ensures VerdictOk(t, i) {
        if 0 <= i < n { assert VerdictOk(s, i) && t.verdicts[i] == s.verdicts[i]; }
      }
      forall id ensures EdgeOk(t, id) {
        assert EdgeOk(s, id);
        if id == c.edge {
          assert t.verdicts[n].edge == id;
        } else if Judged(s, id) {
          var i :| 0 <= i < n && s.verdicts[i].edge == id;
          assert t.verdicts[i].edge == id;
        }
      }
    } else {
      forall i ensures VerdictOk(t, i) { assert VerdictOk(s, i); }
      forall id ensures EdgeOk(t, id) { assert EdgeOk(s, id); }
    }
  }

  lemma InvStep(s: Sys, a: Action)
    requires Inv(s)
    ensures Inv(Step(s, a))
  {
    if a.Next? && a.pid in s.calls {
      if s.calls[a.pid].Resolving? { InvResolving(s, a.pid, a.env); } else { InvCreating(s, a.pid, a.env); }
    } else {
      var t := Step(s, a);
      forall i ensures VerdictOk(t, i) { assert VerdictOk(s, i); }
      forall id ensures EdgeOk(t, id) { assert EdgeOk(s, id); }
    }
  }

  lemma {:induction false} InvRun(s: Sys, acts: seq<Action>)
    requires Inv(s)
    ensures Inv(Run(s, acts))
    decreases |acts|
  {
    if acts != [] {
      InvStep(s, acts[0]);
      InvRun(Step(s, acts[0]), acts[1..]);
    }
  }

  lemma ReachableInv(s: Sys)
    requires Reachable(s)
    ensures Inv(s)
  {
    var acts :| s == Run(START, acts);
    InvRun(START, acts);
  }

  // ---------------------------------------------------------------- theorems about the graph

  /** At most one live edge per unordered pair, and none from a user to itself. */
  lemma TheGraphIsSimple(s: Sys, i: Id, j: Id)
    requires Reachable(s) && i in s.db.edges && j in s.db.edges
    ensures s.db.edges[i].requester != s.db.edges[i].addressee
    ensures s.db.edges[i].Live() && s.db.edges[j].Live() && s.db.edges[i].Pair() == s.db.edges[j].Pair() ==> i == j
  {
    ReachableInv(s);
  }

  /** An edge is resolved at most once, only by its addressee, and is pending exactly until then. */
  lemma ResolvedOnceByTheAddressee(s: Sys, id: Id)
    requires Reachable(s) && id in s.db.edges
    ensures s.db.edges[id].status.Pending? <==> !Judged(s, id)
    ensures forall i, j ::
      0 <= i < |s.verdicts| && 0 <= j < |s.verdicts| && s.verdicts[i].edge == id && s.verdicts[j].edge == id ==> i == j
    ensures forall i :: 0 <= i < |s.verdicts| && s.verdicts[i].edge == id ==>
      s.verdicts[i].caller == s.db.edges[id].addressee && s.verdicts[i].status == s.db.edges[id].status
  {
    ReachableInv(s);
    assert EdgeOk(s, id);
    forall i | 0 <= i < |s.verdicts| && s.verdicts[i].edge == id ensures VerdictOk(s, i) {
    }
  }

  /** Edges are never removed, keep their parties, and keep their verdict for good. */
  lemma {:induction false} EdgesPersist(s: Sys, acts: seq<Action>, id: Id)
    requires id in s.db.edges
    ensures var t := Run(s, acts);
      && id in t.db.edges
      && t.db.edges[id].requester == s.db.edges[id].requester
      && t.db.edges[id].addressee == s.db.edges[id].addressee
      && (!s.db.edges[id].status.Pending? ==> t.db.edges[id].status == s.db.edges[id].status)
    decreases |acts|
  {
    if acts != [] { EdgesPersist(Step(s, acts[0]), acts[1..], id); }
  }

  lemma {:induction false} RunLast(s: Sys, acts: seq<Action>, a: Action)
    ensures Run(s, acts + [a]) == Step(Run(s, acts), a)
    decreases |acts|
  {
    if acts == [] {
      assert Run(Step(s, a), []) == Step(s, a);
    } else {
      assert (acts + [a])[1..] == acts[1..] + [a];
      RunLast(Step(s, acts[0]), acts[1..], a);
    }
  }

  /** Action `i` of the run is request `pid`'s arrival: an invitation from `requester` to `addressee`. */
  ghost predicate Asked(acts: seq<Action>, i: int, pid: Id, requester: Id, addressee: Id) {
    && 0 <= i < |acts| && acts[i] == Begin(pid, Inviting(requester, addressee))
    && pid !in Run(START, acts[..i]).calls
  }

  lemma {:induction false} InvitesWereAsked(acts: seq<Action>, pid: Id) returns (i: int)
    requires pid in Run(START, acts).calls
    requires Run(START, acts).calls[pid].Inviting? || Run(START, acts).calls[pid].Creating?
    ensures var c := Run(START, acts).calls[pid]; Asked(acts, i, pid, c.requester, c.addressee)
    decreases |acts|
  {
    var n := |acts| - 1;
    var c := Run(START, acts).calls[pid];
    assert acts == acts[..n] + [acts[n]];
    RunLast(START, acts[..n], acts[n]);
    if pid in Run(START, acts[..n]).calls {
      i := InvitesWereAsked(acts[..n], pid);
      assert acts[..n][..i] == acts[..i];
    } else {
      i := n;
    }
  }

  /**
   Where an edge comes from: one step of one request inserted it, pending, and that request arrived
   as an invitation from the edge's requester to its addressee.
   */
  lemma {:induction false} EdgesComeFromInvites(acts: seq<Action>, id: Id) returns (i: int, j: int, pid: Id)
    requires id in Run(START, acts).db.edges
    ensures var edge := Run(START, acts).db.edges[id];
      && Asked(acts, i, pid, edge.requester, edge.addressee)
      && i < j < |acts| && acts[j].Next? && acts[j].pid == pid && acts[j].env.newId == id
      && id !in Run(START, acts[..j]).db.edges
      && Run(START, acts[..j + 1]).db.edges
         == Run(START, acts[..j]).db.edges[id := Edge(edge.requester, edge.addressee, Pending)]
    decreases |acts|
  {
    var n := |acts| - 1;
    var a := acts[n];
    var s := Run(START, acts[..n]);
    assert acts == acts[..n] + [a];
    RunLast(START, acts[..n], a);
    if id in s.db.edges {
      i, j, pid := EdgesComeFromInvites(acts[..n], id);
      EdgesPersist(s, [a], id);
      assert Run(s, [a]) == Step(s, a);
      assert acts[..n][..i] == acts[..i] && acts[..n][..j] == acts[..j] && acts[..n][..j + 1] == acts[..j + 1];
    } else {
      pid, j := a.pid, n;
      assert acts[..n + 1] == acts;
      assert s.calls[pid].Creating?;
      i := InvitesWereAsked(acts[..n], pid);
      assert acts[..n][..i] == acts[..i];
    }
  }

  // ---------------------------------------------------------------- lists

  datatype Box = AcceptedBox | Incoming | Outgoing

  /** The three WHERE clauses. */
  predicate Listed(db: Db, u: Id, box: Box, id: Id) {
    && id in db.edges
    && Visible(db, db.edges[id].Other(u))
    && match box
       case AcceptedBox => db.edges[id].status.Accepted? && db.edges[id].Touches(u)
       case Incoming => db.edges[id].status.Pending? && db.edges[id].addressee == u
       case Outgoing => db.edges[id].status.Pending? && db.edges[id].requester == u
  }

  function Rows(db: Db, u: Id, box: Box): set<Id> {
    set id | id in db.edges && Listed(db, u, box, id)
  }

  datatype Card = Card(edge: Id, other: Id)

  /** The cards of a box, in some order, each once. */
  ghost predicate Cards(db: Db, u: Id, box: Box, cards: seq<Card>) {
    && (forall i :: 0 <= i < |cards| ==>
          Listed(db, u, box, cards[i].edge) && cards[i].other == db.edges[cards[i].edge].Other(u))
    && (forall i, j :: 0 <= i < j < |cards| ==> cards[i].edge != cards[j].edge)
    && (forall id :: id in Rows(db, u, box) ==> exists i :: 0 <= i < |cards| && cards[i].edge == id)
  }

  lemma CardMembers(db: Db, u: Id, box: Box, cards: seq<Card>, id: Id, other: Id)
    requires Cards(db, u, box, cards)
    ensures Card(id, other) in cards <==> Listed(db, u, box, id) && other == db.edges[id].Other(u)
  {
    if Listed(db, u, box, id) {
      assert id in Rows(db, u, box);
      var i :| 0 <= i < |cards| && cards[i].edge == id;
      assert cards[i] in cards;
    }
  }

  /** Edges listed for one user lead to different people, whichever boxes they are in. */
  lemma ListedEdgesDiffer(s: Sys, u: Id, a: Box, b: Box, i: Id, j: Id)
    requires Reachable(s) && Listed(s.db, u, a, i) && Listed(s.db, u, b, j)
    requires s.db.edges[i].Other(u) == s.db.edges[j].Other(u)
    ensures i == j && a == b
  {
    ReachableInv(s);
    assert s.db.edges[i].Pair() == {u, s.db.edges[i].Other(u)} == s.db.edges[j].Pair();
  }

  /** No one appears twice across a user's accepted, incoming and outgoing lists. */
  lemma OthersAreDistinct(s: Sys, u: Id, accepted: seq<Card>, incoming: seq<Card>, outgoing: seq<Card>)
    requires Reachable(s)
    requires Cards(s.db, u, AcceptedBox, accepted) && Cards(s.db, u, Incoming, incoming)
      && Cards(s.db, u, Outgoing, outgoing)
    ensures var all := accepted + incoming + outgoing;
      && (forall i :: 0 <= i < |all| ==> all[i].other != u)
      && (forall i, j :: 0 <= i < j < |all| ==> all[i].other != all[j].other)
  {
    ReachableInv(s);
    var all := accepted + incoming + outgoing;
    var m, n := |accepted|, |accepted| + |incoming|;
    forall i | 0 <= i < |all| ensures all[i].other != u {
      assert Listed(s.db, u, if i < m then AcceptedBox else if i < n then Incoming else Outgoing, all[i].edge);
    }
    forall i, j | 0 <= i < j < |all| ensures all[i].other != all[j].other {
      if all[i].other == all[j].other {
        var a := if i < m then AcceptedBox else if i < n then Incoming else Outgoing;
        var b := if j < m then AcceptedBox else if j < n then Incoming else Outgoing;
        ListedEdgesDiffer(s, u, a, b, all[i].edge, all[j].edge);
      }
    }
  }

  predicate Shows(cards: seq<Card>, edge: Id, other: Id) {
    exists i :: 0 <= i < |cards| && cards[i].edge == edge && cards[i].other == other
  }

  /** Between live users an invitation is outgoing for one exactly when it is incoming for the other. */
  lemma InvitesAreMirrored(s: Sys, u: Id, v: Id, outgoing: seq<Card>, incoming: seq<Card>, id: Id)
    requires Reachable(s) && Visible(s.db, u) && Visible(s.db, v)
    requires Cards(s.db, u, Outgoing, outgoing) && Cards(s.db, v, Incoming, incoming)
    ensures Shows(outgoing, id, v) <==> Shows(incoming, id, u)
  {
    ReachableInv(s);
    if Shows(outgoing, id, v) {
      assert id in Rows(s.db, v, Incoming);
      var j :| 0 <= j < |incoming| && incoming[j].edge == id;
      assert incoming[j].other == u;
    }
    if Shows(incoming, id, u) {
      assert id in Rows(s.db, u, Outgoing);
      var i :| 0 <= i < |outgoing| && outgoing[i].edge == id;
      assert outgoing[i].other == v;
    }
  }

  // ---------------------------------------------------------------- the service

  class ConnectionService {
    var edges: map<Id, Edge>
    var users: map<Id, bool>

    function Database(): Db
      reads this
    {
      Db(edges, users)
    }

    constructor ()
      ensures Database() == START.db
    {
      edges, users := map[], map[];
    }

    method GetUser(u: Id) returns (found: bool)
      ensures found <==> u in users && !users[u]
    {
      found := u in users && !users[u];
    }

    method Create(id: Id, edge: Edge) returns (ok: bool)
      requires id !in edges && edge.Live()
      modifies this`edges
      ensures ok <==> !PairTaken(old(Database()), edge.Pair())
      ensures edges == if ok then old(edges)[id := edge] else old(edges)
    {
      ok := !(exists i :: i in edges && edges[i].Live() && edges[i].Pair() == edge.Pair());
      if ok { edges := edges[id := edge]; }
    }

    method SendInvite(requester: Id, addressee: Id, e: Env) returns (out: Outcome)
      requires e.newId !in edges && e.fault.NoFault?
      modifies this`edges
      ensures var (db, c) := Exec(old(Database()), Inviting(requester, addressee), e);
        (Database(), Finished(out)) == Exec(db, c, e)
      ensures out.Created? <==>
        requester != addressee && Visible(old(Database()), addressee)
          && !PairTaken(old(Database()), {requester, addressee})
      ensures out.Created? ==> edges == old(edges)[e.newId := Edge(requester, addressee, Pending)]
      ensures !out.Created? ==> edges == old(edges)
      ensures var joined := exists id :: (
          && id in old(edges) && old(edges)[id].status != Declined
          && (old(edges)[id] == Edge(requester, addressee, old(edges)[id].status)
              || old(edges)[id] == Edge(addressee, requester, old(edges)[id].status)));
        out == if requester == addressee then Failed(Validation)
               else if addressee !in users || users[addressee] then Failed(NotFound)
               else if joined then Failed(ConnectionExists)
               else Created(e.newId)
    {
      if requester == addressee { return Failed(Validation); }
      var found := GetUser(addressee);
      if !found { return Failed(NotFound); }
      var ok := Create(e.newId, Edge(requester, addressee, Pending));
      out := if ok then Created(e.newId) else Failed(ConnectionExists);
    }

    /** The two counts of the CTE tell the three outcomes apart. */
    method ResolvePendingInvite(id: Id, addressee: Id, status: Status, e: Env) returns (out: Outcome)
      requires !status.Pending? && e.fault.NoFault?
      modifies this`edges
      ensures (Database(), Finished(out)) == Exec(old(Database()), Resolving(id, addressee, status), e)
      ensures !out.Resolved? ==> edges == old(edges)
      ensures out.Resolved? ==> edges == old(edges)[id := old(edges)[id].(status := status)]
      ensures out == if id !in old(edges) || old(edges)[id].addressee != addressee then Failed(ConnectionNotFound)
                     else if old(edges)[id].status != Pending then Failed(ConnectionNotPending)
                     else Resolved
    {
      var existed, updated := 0, 0;
      if id in edges && edges[id].addressee == addressee {
        existed := 1;
        if edges[id].status.Pending? {
          edges := edges[id := edges[id].(status := status)];
          updated := 1;
        }
      }
      if existed == 0 { return Failed(ConnectionNotFound); }
      if updated == 0 { return Failed(ConnectionNotPending); }
      out := Resolved;
    }

    method Accept(id: Id, caller: Id, e: Env) returns (out: Outcome)
      requires e.fault.NoFault?
      modifies this`edges
      ensures (Database(), Finished(out)) == Exec(old(Database()), Resolving(id, caller, Accepted), e)
      ensures out.Resolved? ==> id in edges && edges[id].status == Accepted && edges[id].addressee == caller
      ensures out.Resolved? <==>
        id in old(edges) && old(edges)[id].addressee == caller && old(edges)[id].status == Pending
      ensures edges == if out.Resolved? then old(edges)[id := old(edges)[id].(status := Accepted)] else old(edges)
    {
      out := ResolvePendingInvite(id, caller, Accepted, e);
    }

    method Decline(id: Id, caller: Id, e: Env) returns (out: Outcome)
      requires e.fault.NoFault?
      modifies this`edges
      ensures (Database(), Finished(out)) == Exec(old(Database()), Resolving(id, caller, Declined), e)
      ensures out.Resolved? ==> id in edges && edges[id].status == Declined && edges[id].addressee == caller
      ensures out.Resolved? <==>
        id in old(edges) && old(edges)[id].addressee == caller && old(edges)[id].status == Pending
      ensures edges == if out.Resolved? then old(edges)[id := old(edges)[id].(status := Declined)] else old(edges)
    {
      out := ResolvePendingInvite(id, caller, Declined, e);
    }

    /** Appends one card per row of the query's result, in whatever order the rows arrive. */
    method Collect(u: Id, box: Box) returns (cards: seq<Card>)
      ensures Cards(Database(), u, box, cards)
    {
      cards := [];
      var rows := set id | id in edges && Listed(Database(), u, box, id);
      assert rows == Rows(Database(), u, box);
      while rows != {}
        invariant forall i :: 0 <= i < |cards| ==>
          && Listed(Database(), u, box, cards[i].edge)
          && cards[i].other == edges[cards[i].edge].Other(u)
          && cards[i].edge !in rows
        invariant forall i, j :: 0 <= i < j < |cards| ==> cards[i].edge != cards[j].edge
        invariant rows <= Rows(Database(), u, box)
        invariant forall id :: id in Rows(Database(), u, box) && id !in rows ==>
          exists i :: 0 <= i < |cards| && cards[i].edge == id
        decreases |rows|
      {
        var id :| id in rows;
        ghost var before := cards;
        cards := cards + [Card(id, edges[id].Other(u))];
        rows := rows - {id};
        assert forall i :: 0 <= i < |before| ==> cards[i] == before[i];
        assert cards[|before|].edge == id;
      }
    }

    method ListAccepted(u: Id) returns (cards: seq<Card>)
      ensures Cards(Database(), u, AcceptedBox, cards)
      ensures forall id, other :: Card(id, other) in cards <==>
        && id in edges && edges[id].status == Accepted
        && (edges[id].requester == u || edges[id].addressee == u)
        && other == (if edges[id].requester == u then edges[id].addressee else edges[id].requester)
        && other in users && !users[other]
    {
      cards := Collect(u, AcceptedBox);
      forall id, other { CardMembers(Database(), u, AcceptedBox, cards, id, other); }
    }

    method ListPending(u: Id) returns (incoming: seq<Card>, outgoing: seq<Card>)
      ensures Cards(Database(), u, Incoming, incoming) && Cards(Database(), u, Outgoing, outgoing)
      ensures forall id, other :: Card(id, other) in incoming <==>
        && id in edges && edges[id] == Edge(other, u, Pending) && other in users && !users[other]
      ensures forall id, other :: Card(id, other) in outgoing <==>
        && id in edges && edges[id] == Edge(u, other, Pending) && other in users && !users[other]
    {
      incoming := Collect(u, Incoming);
      outgoing := Collect(u, Outgoing);
      forall id, other { CardMembers(Database(), u, Incoming, incoming, id, other); }
      forall id, other { CardMembers(Database(), u, Outgoing, outgoing, id, other); }
    }
  }
}
