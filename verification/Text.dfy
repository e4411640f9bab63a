/** Byte strings: splitting on a separator, and decimal numerals as `%d` prints and scans them. */
module Text {
  import opened Common

  /** Index of the first `c`, or the length. */
  function FirstIndex(s: string, c: char): (i: nat)
    ensures i <= |s| && c !in s[..i] && (i < |s| ==> s[i] == c)
    decreases |s|
  {
    if s == "" || s[0] == c then 0
    else
      var rest := FirstIndex(s[1..], c);
      assert s[..rest + 1] == [s[0]] + s[1..][..rest];
      rest + 1
  }

  lemma {:induction false} FirstIndexIs(a: string, b: string, c: char)
    requires c !in a
    ensures FirstIndex(a + [c] + b, c) == |a|
    ensures FirstIndex(a, c) == |a|
    decreases |a|
  {
    if a != "" {
      assert (a + [c] + b)[1..] == a[1..] + [c] + b;
      FirstIndexIs(a[1..], b, c);
    }
  }

  /** `strings.LastIndex`, or None. */
  function LastIndex(s: string, c: char): (r: Option<nat>)
    ensures r.Some? ==> r.value < |s| && s[r.value] == c && c !in s[r.value + 1..]
    ensures r.None? ==> c !in s
    decreases |s|
  {
    if s == "" then None
    else if s[|s| - 1] == c then Some(|s| - 1)
    else
      var init := s[..|s| - 1];
      var r := LastIndex(init, c);
      assert s == init + [s[|s| - 1]];
      assert r.Some? ==> s[r.value + 1..] == init[r.value + 1..] + [s[|s| - 1]];
      r
  }

  lemma {:induction false} LastIndexIs(a: string, b: string, c: char)
    requires c !in b
    ensures LastIndex(a + [c] + b, c) == Some(|a|)
    decreases |b|
  {
    var s := a + [c] + b;
    if b == "" {
      assert s == a + [c];
    } else {
      var init := b[..|b| - 1];
      assert b == init + [b[|b| - 1]];
      assert s[..|s| - 1] == a + [c] + init;
      LastIndexIs(a, init, c);
    }
  }

  /** `strings.Split(s, string(c))`. */
  function Split(s: string, c: char): (parts: seq<string>)
    ensures parts != []
    decreases |s|
  {
    var i := FirstIndex(s, c);
    if i == |s| then [s] else [s[..i]] + Split(s[i + 1..], c)
  }

  /** `strings.Join(parts, string(c))`. */
  function Join(parts: seq<string>, c: char): string
    decreases |parts|
  {
    if parts == [] then ""
    else if |parts| == 1 then parts[0]
    else parts[0] + [c] + Join(parts[1..], c)
  }

  /** Splitting undoes joining when no part contains the separator. */
  lemma {:induction false} SplitJoin(parts: seq<string>, c: char)
    requires parts != [] && forall p :: p in parts ==> c !in p
    ensures Split(Join(parts, c), c) == parts
    decreases |parts|
  {
    assert parts[0] in parts;
    if |parts| == 1 {
      FirstIndexIs(parts[0], "", c);
    } else {
      var rest := Join(parts[1..], c);
      FirstIndexIs(parts[0], rest, c);
      assert (parts[0] + [c] + rest)[|parts[0]| + 1..] == rest;
      assert (parts[0] + [c] + rest)[..|parts[0]|] == parts[0];
      SplitJoin(parts[1..], c);
    }
  }

  lemma JoinSix(a: string, b: string, c: string, d: string, e: string, f: string, s: char)
    ensures Join([a, b, c, d, e, f], s) == a + [s] + b + [s] + c + [s] + d + [s] + e + [s] + f
  {
    assert [a, b, c, d, e, f][1..] == [b, c, d, e, f];
    assert [b, c, d, e, f][1..] == [c, d, e, f];
    assert [c, d, e, f][1..] == [d, e, f];
    assert [d, e, f][1..] == [e, f];
    assert [e, f][1..] == [f];
    assert Join([e, f], s) == e + [s] + f;
    assert Join([d, e, f], s) == d + [s] + e + [s] + f;
    assert Join([c, d, e, f], s) == c + [s] + d + [s] + e + [s] + f;
    assert Join([b, c, d, e, f], s) == b + [s] + c + [s] + d + [s] + e + [s] + f;
  }

  /** Joining undoes splitting, and no part contains the separator. */
  lemma {:induction false} JoinSplit(s: string, c: char)
    ensures Join(Split(s, c), c) == s
    ensures forall p :: p in Split(s, c) ==> c !in p
    decreases |s|
  {
    var i := FirstIndex(s, c);
    if i == |s| {
      assert s[..i] == s;
    } else {
      JoinSplit(s[i + 1..], c);
      assert s == s[..i] + [c] + s[i + 1..];
      assert Split(s, c)[1..] == Split(s[i + 1..], c);
    }
  }

  // ---------------------------------------------------------------- decimal numerals

  predicate IsDigit(c: char) {
    '0' <= c <= '9'
  }

  function Digit(n: nat): (c: char)
    requires n < 10
    ensures IsDigit(c)
  {
    '0' + n as char
  }

  function DigitValue(c: char): nat
    requires IsDigit(c)
  {
    c as nat - '0' as nat
  }

  /** `%d` of a non-negative number. */
  function Decimal(n: nat): (s: string)
    ensures s != "" && forall i :: 0 <= i < |s| ==> IsDigit(s[i])
    decreases n
  {
    if n < 10 then [Digit(n)] else Decimal(n / 10) + [Digit(n % 10)]
  }

  function Value(s: string): nat
    requires forall i :: 0 <= i < |s| ==> IsDigit(s[i])
    decreases |s|
  {
    if s == "" then 0 else 10 * Value(s[..|s| - 1]) + DigitValue(s[|s| - 1])
  }

  lemma {:induction false} ValueOfDecimal(n: nat)
    ensures Value(Decimal(n)) == n
    decreases n
  {
    var s := Decimal(n);
    if n < 10 {
      assert s[..|s| - 1] == "";
    } else {
      assert s[..|s| - 1] == Decimal(n / 10);
      ValueOfDecimal(n / 10);
    }
  }

  /** Length of the longest prefix of digits. */
  function DigitRun(s: string): (k: nat)
    ensures k <= |s| && forall i :: 0 <= i < k ==> IsDigit(s[i])
    ensures k < |s| ==> !IsDigit(s[k])
    decreases |s|
  {
    if s == "" || !IsDigit(s[0]) then 0 else 1 + DigitRun(s[1..])
  }

  lemma {:induction false} DigitRunStops(d: string, rest: string)
    requires forall i :: 0 <= i < |d| ==> IsDigit(d[i])
    requires rest != "" ==> !IsDigit(rest[0])
    ensures DigitRun(d + rest) == |d|
    decreases |d|
  {
    if d == "" {
      assert d + rest == rest;
    } else {
      assert (d + rest)[1..] == d[1..] + rest;
      DigitRunStops(d[1..], rest);
    }
  }

  /** Unicode white space that the scanner skips before a number. */
  predicate IsSpace(c: char) {
    var r := c as int;
    9 <= r <= 13 || r == 0x20 || r == 0x85 || r == 0xa0 || r == 0x1680 || 0x2000 <= r <= 0x200a
    || r == 0x2028 || r == 0x2029 || r == 0x202f || r == 0x205f || r == 0x3000
  }

  /** Leading spaces are dropped; a newline there is an error. */
  function SkipSpace(s: string): (r: Option<string>)
    decreases |s|
  {
    if s == "" then Some(s)
    else if s[0] == '\n' then None
    else if s[0] == '\r' && |s| > 1 && s[1] == '\n' then SkipSpace(s[2..])
    else if IsSpace(s[0]) then SkipSpace(s[1..])
    else Some(s)
  }

  /** A scanned number and the input left behind it. */
  datatype Scanned = Scanned(value: int, rest: string)
  datatype ScannedNat = ScannedNat(value: nat, rest: string)

  /** Scanning `%d` into an unsigned integer below `bound`. */
  function ScanUint(s: string, bound: nat): (r: Option<ScannedNat>)
    ensures r.Some? ==> r.value.value < bound
  {
    match SkipSpace(s)
    case None => None
    case Some(t) =>
      var k := DigitRun(t);
      if k == 0 || Value(t[..k]) >= bound then None else Some(ScannedNat(Value(t[..k]), t[k..]))
  }

  /** Scanning `%d` into a signed 64-bit integer. */
  function ScanInt(s: string): (r: Option<Scanned>)
    ensures r.Some? ==> -0x8000_0000_0000_0000 <= r.value.value <= 0x7fff_ffff_ffff_ffff
  {
    match SkipSpace(s)
    case None => None
    case Some(t) =>
      var negative := t != "" && t[0] == '-';
      var u := if t != "" && (t[0] == '-' || t[0] == '+') then t[1..] else t;
      var k := DigitRun(u);
      if k == 0 then None
      else
        var v := Value(u[..k]);
        var w: int := v;
        if negative && v <= 0x8000_0000_0000_0000 then Some(Scanned(-w, u[k..]))
        else if !negative && v <= 0x7fff_ffff_ffff_ffff then Some(Scanned(w, u[k..]))
        else None
  }

  /** A literal of the format must come next. */
  function ScanLiteral(s: string, lit: string): Option<string> {
    if lit <= s then Some(s[|lit|..]) else None
  }

  lemma DecimalStart(n: nat, rest: string)
    requires rest != "" ==> !IsDigit(rest[0])
    ensures var s := Decimal(n) + rest; var k := |Decimal(n)|;
            SkipSpace(s) == Some(s) && IsDigit(s[0]) && DigitRun(s) == k && s[..k] == Decimal(n) && s[k..] == rest
  {
    DigitRunStops(Decimal(n), rest);
  }

  /** Scanning reads back what printing wrote, up to the first non-digit. */
  lemma ScanUintPrinted(n: nat, rest: string, bound: nat)
    requires n < bound && (rest != "" ==> !IsDigit(rest[0]))
    ensures ScanUint(Decimal(n) + rest, bound) == Some(ScannedNat(n, rest))
  {
    DecimalStart(n, rest);
    ValueOfDecimal(n);
  }

  lemma ScanIntPrinted(n: nat, rest: string)
    requires n <= 0x7fff_ffff_ffff_ffff && (rest != "" ==> !IsDigit(rest[0]))
    ensures ScanInt(Decimal(n) + rest) == Some(Scanned(n, rest))
  {
    DecimalStart(n, rest);
    ValueOfDecimal(n);
  }

  lemma DecimalAvoids(n: nat, c: char)
    requires !IsDigit(c)
    ensures c !in Decimal(n)
  {
  }
}
