/** The strings that the gateway and the event publisher sign: which fields they determine. */
module Canonical {
  import opened Common
  import opened Text

  // ---------------------------------------------------------------- joined fields

  function Count(s: string, c: char): nat
    decreases |s|
  {
    if s == "" then 0 else (if s[0] == c then 1 else 0) + Count(s[1..], c)
  }

  function TotalCount(parts: seq<string>, c: char): nat
    decreases |parts|
  {
    if parts == [] then 0 else Count(parts[0], c) + TotalCount(parts[1..], c)
  }

  lemma {:induction false} CountConcat(a: string, b: string, c: char)
    ensures Count(a + b, c) == Count(a, c) + Count(b, c)
    decreases |a|
  {
    if a == "" {
      assert a + b == b;
    } else {
      assert (a + b)[1..] == a[1..] + b;
      CountConcat(a[1..], b, c);
    }
  }

  lemma {:induction false} CountZero(s: string, c: char)
    ensures Count(s, c) == 0 <==> c !in s
    decreases |s|
  {
    if s != "" {
      assert s == [s[0]] + s[1..];
      CountZero(s[1..], c);
    }
  }

  lemma {:induction false} TotalCountZero(parts: seq<string>, c: char)
    ensures TotalCount(parts, c) == 0 <==> forall p :: p in parts ==> c !in p
    decreases |parts|
  {
    if parts != [] {
      assert parts == [parts[0]] + parts[1..];
      CountZero(parts[0], c);
      TotalCountZero(parts[1..], c);
    }
  }

  lemma {:induction false} CountJoin(parts: seq<string>, c: char)
    requires parts != []
    ensures Count(Join(parts, c), c) == |parts| - 1 + TotalCount(parts, c)
    decreases |parts|
  {
    if |parts| > 1 {
      var rest := Join(parts[1..], c);
      CountConcat(parts[0] + [c], rest, c);
      CountConcat(parts[0], [c], c);
      CountJoin(parts[1..], c);
    }
  }

  /** Another list of as many fields with the same joined text. */
  ghost predicate Ambiguous(fields: seq<string>, c: char) {
    exists other: seq<string> :: |other| == |fields| && Join(other, c) == Join(fields, c) && other != fields
  }

  lemma {:induction false} SplitField(fields: seq<string>, c: char, i: nat)
    requires |fields| >= 2 && i < |fields| && c in fields[i]
    ensures Ambiguous(fields, c)
    decreases |fields|
  {
    if c in fields[0] {
      var k := FirstIndex(fields[0], c);
      assert fields[0][..|fields[0]|] == fields[0];
      PushFront(fields, fields[0][..k], fields[0][k + 1..], c);
    } else if |fields| == 2 {
      var k := FirstIndex(fields[1], c);
      assert fields[1][..|fields[1]|] == fields[1];
      PushBack(fields, fields[1][..k], fields[1][k + 1..], c);
    } else {
      SplitField(fields[1..], c, i - 1);
      var rest: seq<string> :| |rest| == |fields[1..]| && Join(rest, c) == Join(fields[1..], c) && rest != fields[1..];
      var other := [fields[0]] + rest;
      assert other[1..] == rest;
      assert Join(other, c) == Join(fields, c);
    }
  }

  /** The text before the separator can end the field before it. */
  lemma PushBack(fields: seq<string>, a: string, b: string, c: char)
    requires |fields| == 2 && fields[1] == a + [c] + b
    ensures Ambiguous(fields, c)
  {
    var other := [fields[0] + [c] + a, b];
    assert other[1..] == [b] && fields[1..] == [fields[1]];
    assert fields[0] + [c] + a + [c] + b == fields[0] + [c] + (a + [c] + b);
    assert Join(other, c) == Join(fields, c);
    assert |other[1]| < |fields[1]|;
  }

  /** The text after the separator can start the next field. */
  lemma PushFront(fields: seq<string>, a: string, b: string, c: char)
    requires |fields| >= 2 && fields[0] == a + [c] + b
    ensures Ambiguous(fields, c)
  {
    var other := [a, b + [c] + fields[1]] + fields[2..];
    assert other[1..] == [b + [c] + fields[1]] + fields[2..];
    if |fields| == 2 {
      assert fields[1..] == [fields[1]];
      assert other[1..] == [b + [c] + fields[1]];
      assert a + [c] + (b + [c] + fields[1]) == a + [c] + b + [c] + fields[1];
    } else {
      var rest := Join(fields[2..], c);
      assert fields[1..][1..] == fields[2..] && other[1..][1..] == fields[2..];
      assert Join(fields[1..], c) == fields[1] + [c] + rest;
      assert Join(other[1..], c) == b + [c] + fields[1] + [c] + rest;
      assert a + [c] + (b + [c] + fields[1] + [c] + rest) == a + [c] + b + [c] + (fields[1] + [c] + rest);
    }
    assert Join(other, c) == Join(fields, c);
    assert |other[0]| < |fields[0]|;
  }

  /** Joined text determines its fields exactly when no field contains the separator. */
  lemma AmbiguousIff(fields: seq<string>, c: char)
    requires |fields| >= 2
    ensures Ambiguous(fields, c) <==> exists p :: p in fields && c in p
  {
    if p :| p in fields && c in p {
      var i :| 0 <= i < |fields| && fields[i] == p;
      SplitField(fields, c, i);
    } else {
      forall other: seq<string> | |other| == |fields| && Join(other, c) == Join(fields, c) ensures other == fields {
        CountJoin(other, c);
        CountJoin(fields, c);
        TotalCountZero(other, c);
        TotalCountZero(fields, c);
        SplitJoin(other, c);
        SplitJoin(fields, c);
      }
    }
  }

  // ---------------------------------------------------------------- the gateway string

  datatype Request = Request(verb: string, path: string, bodyHash: string, identity: seq<string>)

  /** `{len}\n{field}\n` */
  function Frame(field: string): string {
    Decimal(|field|) + ("\n" + (field + "\n"))
  }

  /** The text under the gateway's MAC; `identity` is the six-field tuple ending in the timestamp. */
  function Gateway(r: Request): string {
    Frame(r.verb) + (Frame(r.path) + (Frame(r.bodyHash) + Join(r.identity, '|')))
  }

  lemma Reassociate(a: string, b: string, c: string, d: string)
    ensures a + (b + (c + d)) == a + b + c + d
  {
  }

  lemma FrameIs(field: string, rest: string)
    ensures Frame(field) + rest == Decimal(|field|) + "\n" + field + "\n" + rest
  {
    Reassociate(Decimal(|field|), "\n", field, "\n");
  }

  /** The signed text, field by field. */
  lemma GatewaySpelled(verb: string, path: string, bodyHash: string, user: string, tier: string, account: string,
    verified: string, request: string, ts: string)
    ensures Gateway(Request(verb, path, bodyHash, [user, tier, account, verified, request, ts]))
      == Decimal(|verb|) + "\n" + verb + "\n" +
         (Decimal(|path|) + "\n" + path + "\n" +
          (Decimal(|bodyHash|) + "\n" + bodyHash + "\n" +
           (user + "|" + tier + "|" + account + "|" + verified + "|" + request + "|" + ts)))
  {
    var identity := user + "|" + tier + "|" + account + "|" + verified + "|" + request + "|" + ts;
    JoinSix(user, tier, account, verified, request, ts, '|');
    FrameIs(bodyHash, identity);
    FrameIs(path, Frame(bodyHash) + identity);
    FrameIs(verb, Frame(path) + (Frame(bodyHash) + identity));
  }

  /** A reader of length-prefixed fields. */
  function ReadFrame(s: string): Option<(string, string)> {
    var k := DigitRun(s);
    if k == 0 || k == |s| || s[k] != '\n' then None
    else
      var n := Value(s[..k]);
      if |s| < k + n + 2 || s[k + 1 + n] != '\n' then None
      else Some((s[k + 1..k + 1 + n], s[k + 2 + n..]))
  }

  lemma ReadFramed(field: string, rest: string)
    ensures ReadFrame(Frame(field) + rest) == Some((field, rest))
  {
    var d := Decimal(|field|);
    var tail := "\n" + (field + "\n") + rest;
    var s := Frame(field) + rest;
    assert s == d + tail;
    DecimalStart(|field|, tail);
    ValueOfDecimal(|field|);
    assert s[|d| + 1..|d| + 1 + |field|] == field;
    assert s[|d| + 2 + |field|..] == rest;
  }

  /** Method, path and body hash are recoverable from the signed text, whatever bytes they hold. */
  lemma GatewayFramesAreDetermined(x: Request, y: Request)
    requires Gateway(x) == Gateway(y)
    ensures x.verb == y.verb && x.path == y.path && x.bodyHash == y.bodyHash
    ensures Join(x.identity, '|') == Join(y.identity, '|')
  {
    var x2, y2 := Join(x.identity, '|'), Join(y.identity, '|');
    var x1, y1 := Frame(x.bodyHash) + x2, Frame(y.bodyHash) + y2;
    var x0, y0 := Frame(x.path) + x1, Frame(y.path) + y1;
    ReadFramed(x.verb, x0); ReadFramed(y.verb, y0);
    ReadFramed(x.path, x1); ReadFramed(y.path, y1);
    ReadFramed(x.bodyHash, x2); ReadFramed(y.bodyHash, y2);
  }

  /**
   Two requests with the same signed text are equal, for every such pair, exactly when no identity field
   holds `|`.
  */
  lemma GatewayDeterminedIff(x: Request)
    requires |x.identity| == 6
    ensures (forall y: Request :: |y.identity| == 6 && Gateway(y) == Gateway(x) ==> y == x)
            <==> (forall p :: p in x.identity ==> '|' !in p)
  {
    AmbiguousIff(x.identity, '|');
    if Ambiguous(x.identity, '|') {
      var other: seq<string> :| |other| == 6 && Join(other, '|') == Join(x.identity, '|') && other != x.identity;
      var y := x.(identity := other);
      assert Gateway(y) == Gateway(x) && y != x;
    } else {
      forall y: Request | |y.identity| == 6 && Gateway(y) == Gateway(x) ensures y == x {
        GatewayFramesAreDetermined(x, y);
      }
    }
  }

  // ---------------------------------------------------------------- the event string

  datatype Event = Event(eventId: string, occurredAt: string, version: string, userId: string, newTier: string)
  {
    /** Ids are uuid text and the tier is decimal, so these three never hold a separator. */
    predicate WellFormed() {
      '|' !in eventId && '|' !in userId && '|' !in newTier
    }
  }

  function EventText(e: Event): string {
    Join([e.eventId, e.occurredAt, e.version, e.userId, e.newTier], '|')
  }

  lemma EventTextIs(e: Event)
    ensures EventText(e) == e.eventId + "|" + (Join([e.occurredAt, e.version], '|') + "|" + e.userId + "|" + e.newTier)
  {
    var f := [e.eventId, e.occurredAt, e.version, e.userId, e.newTier];
    assert f[1..] == [e.occurredAt, e.version, e.userId, e.newTier];
    assert f[1..][1..] == [e.version, e.userId, e.newTier];
    assert [e.version, e.userId, e.newTier][1..] == [e.userId, e.newTier];
    assert [e.userId, e.newTier][1..] == [e.newTier];
    assert [e.occurredAt, e.version][1..] == [e.version];
    assert Join([e.userId, e.newTier], '|') == e.userId + "|" + e.newTier;
    assert Join([e.version, e.userId, e.newTier], '|') == e.version + "|" + (e.userId + "|" + e.newTier);
    assert Join(f[1..], '|') == e.occurredAt + "|" + (e.version + "|" + (e.userId + "|" + e.newTier));
    assert Join([e.occurredAt, e.version], '|') == e.occurredAt + "|" + e.version;
  }

  /** The signed text, field by field. */
  lemma EventTextSpelled(e: Event)
    ensures EventText(e) == e.eventId + "|" + e.occurredAt + "|" + e.version + "|" + e.userId + "|" + e.newTier
  {
    EventTextIs(e);
    JoinTwo(e.occurredAt, e.version);
    Regroup(e.eventId, e.occurredAt, e.version, e.userId, e.newTier);
  }

  lemma Regroup(a: string, b: string, c: string, d: string, e: string)
    ensures a + "|" + (b + "|" + c + "|" + d + "|" + e) == a + "|" + b + "|" + c + "|" + d + "|" + e
  {
  }

  lemma JoinTwo(a: string, b: string)
    ensures Join([a, b], '|') == a + "|" + b
  {
    assert [a, b][1..] == [b];
  }

  lemma SameHead(a: string, b: string, x: string, y: string)
    requires '|' !in a && '|' !in b && a + "|" + x == b + "|" + y
    ensures a == b && x == y
  {
    assert a + "|" + x == a + ['|'] + x && b + "|" + y == b + ['|'] + y;
    FirstIndexIs(a, x, '|');
    FirstIndexIs(b, y, '|');
    var s := a + "|" + x;
    assert s[..|a|] == a && s[..|b|] == b && s[|a| + 1..] == x && s[|b| + 1..] == y;
  }

  lemma SameTail(a: string, b: string, x: string, y: string)
    requires '|' !in x && '|' !in y && a + "|" + x == b + "|" + y
    ensures a == b && x == y
  {
    assert a + "|" + x == a + ['|'] + x && b + "|" + y == b + ['|'] + y;
    LastIndexIs(a, x, '|');
    LastIndexIs(b, y, '|');
    var s := a + "|" + x;
    assert s[..|a|] == a && s[..|b|] == b && s[|a| + 1..] == x && s[|b| + 1..] == y;
  }

  /** Event id, user and tier are always determined by the signed text; the middle only as a whole. */
  lemma EventEndsAreDetermined(x: Event, y: Event)
    requires x.WellFormed() && y.WellFormed()
    ensures EventText(x) == EventText(y) <==>
            x.eventId == y.eventId && x.userId == y.userId && x.newTier == y.newTier
            && Join([x.occurredAt, x.version], '|') == Join([y.occurredAt, y.version], '|')
  {
    EventTextIs(x);
    EventTextIs(y);
    if EventText(x) == EventText(y) {
      var mx, my := Join([x.occurredAt, x.version], '|'), Join([y.occurredAt, y.version], '|');
      SameHead(x.eventId, y.eventId, mx + "|" + x.userId + "|" + x.newTier, my + "|" + y.userId + "|" + y.newTier);
      SameTail(mx + "|" + x.userId, my + "|" + y.userId, x.newTier, y.newTier);
      SameTail(mx, my, x.userId, y.userId);
    }
  }

  /** All five fields are determined exactly when timestamp and version hold no separator. */
  lemma EventDeterminedIff(x: Event)
    requires x.WellFormed()
    ensures (forall y: Event :: y.WellFormed() && EventText(y) == EventText(x) ==> y == x)
            <==> '|' !in x.occurredAt && '|' !in x.version
  {
    var mid := [x.occurredAt, x.version];
    AmbiguousIff(mid, '|');
    assert (exists p :: p in mid && '|' in p) <==> '|' in x.occurredAt || '|' in x.version by {
      assert mid[0] == x.occurredAt && mid[1] == x.version;
    }
    if Ambiguous(mid, '|') {
      var other: seq<string> :| |other| == 2 && Join(other, '|') == Join(mid, '|') && other != mid;
      var y := x.(occurredAt := other[0], version := other[1]);
      assert other == [y.occurredAt, y.version];
      EventEndsAreDetermined(x, y);
      assert y.WellFormed() && EventText(y) == EventText(x) && y != x;
    } else {
      forall y: Event | y.WellFormed() && EventText(y) == EventText(x) ensures y == x {
        EventEndsAreDetermined(x, y);
        var other := [y.occurredAt, y.version];
        assert other[0] == y.occurredAt && other[1] == y.version;
      }
    }
  }
}
