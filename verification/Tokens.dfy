/** Dotted tokens: refresh tokens split at the first dot, signed OAuth states at the last. */
module Tokens {
  import opened Common
  import opened Text
  import opened Base64

  type Uuid = nat

  /** The uuid library's canonical text and its parser. */
  datatype UuidText = UuidText(show: Uuid -> string, read: string -> Option<Uuid>)

  ghost predicate Lawful(u: UuidText) {
    forall id: Uuid :: u.read(u.show(id)) == Some(id) && '.' !in u.show(id)
  }

  type Sha = Bytes -> Bytes

  // ---------------------------------------------------------------- refresh tokens

  datatype Token = Token(id: Uuid, secret: string, raw: string, hash: Bytes)

  datatype ParseError = NoDot | BadId | BadSecret
  datatype Parsed = Ok(token: Token) | Err(error: ParseError)

  /** `Generate`, given its fresh id and 32 random bytes. */
  function Generate(u: UuidText, sha: Sha, id: Uuid, secret: Bytes): Token {
    var text := Encode(Url, secret);
    Token(id, text, u.show(id) + "." + text, sha(secret))
  }

  /** What a raw token means, cut at its first dot. */
  function Meaning(u: UuidText, sha: Sha, raw: string): Parsed {
    var dot := FirstIndex(raw, '.');
    if dot == |raw| then Err(NoDot)
    else
      var id, secret := u.read(raw[..dot]), Decode(Url, raw[dot + 1..]);
      if id.None? then Err(BadId)
      else if secret.None? then Err(BadSecret)
      else Ok(Token(id.value, raw[dot + 1..], raw, sha(secret.value)))
  }

  /** `Parse`: scan for the dot, then decode both halves. */
  method Parse(u: UuidText, sha: Sha, raw: string) returns (r: Parsed)
    ensures r == Meaning(u, sha, raw)
    ensures r == Err(NoDot) <==> '.' !in raw
    ensures r.Ok? ==> r.token.raw == raw && exists id, secret ::
              raw == id + "." + r.token.secret && '.' !in id && u.read(id) == Some(r.token.id)
              && Decode(Url, r.token.secret) == Some(secret) && r.token.hash == sha(secret)
  {
    var dotIdx := -1;
    var i := 0;
    while i < |raw| && dotIdx < 0
      invariant 0 <= i <= |raw|
      invariant dotIdx < 0 ==> dotIdx == -1 && '.' !in raw[..i]
      invariant dotIdx >= 0 ==> dotIdx < |raw| && raw[dotIdx] == '.' && '.' !in raw[..dotIdx]
    {
      if raw[i] == '.' {
        dotIdx := i;
      } else {
        assert raw[..i + 1] == raw[..i] + [raw[i]];
      }
      i := i + 1;
    }
    if dotIdx < 0 {
      assert raw[..|raw|] == raw;
      FirstIndexIs(raw, "", '.');
      return Err(NoDot);
    }
    var idStr, secret := raw[..dotIdx], raw[dotIdx + 1..];
    assert raw == idStr + ['.'] + secret;
    FirstIndexIs(idStr, secret, '.');
    var id := u.read(idStr);
    if id.None? { return Err(BadId); }
    var bytes := Decode(Url, secret);
    if bytes.None? { return Err(BadSecret); }
    assert raw == idStr + "." + secret;
    r := Ok(Token(id.value, secret, raw, sha(bytes.value)));
  }

  /** What is cut where: an id without a dot, then anything. */
  lemma MeaningIs(u: UuidText, sha: Sha, id: string, secret: string)
    requires '.' !in id
    ensures Meaning(u, sha, id + "." + secret)
      == if u.read(id) == None then Err(BadId)
         else match Decode(Url, secret)
           case None => Err(BadSecret)
           case Some(bytes) => Ok(Token(u.read(id).value, secret, id + "." + secret, sha(bytes)))
  {
    FirstIndexIs(id, secret, '.');
    var raw := id + "." + secret;
    assert raw == id + ['.'] + secret;
    assert raw[..|id|] == id && raw[|id| + 1..] == secret;
  }

  /** Parsing a generated token returns the same token, hash included. */
  lemma ParseOfGenerate(u: UuidText, sha: Sha, id: Uuid, secret: Bytes)
    requires Lawful(u)
    ensures var t := Generate(u, sha, id, secret); Meaning(u, sha, t.raw) == Ok(t)
    ensures Generate(u, sha, id, secret).raw == u.show(id) + "." + Encode(Url, secret)
  {
    var t := Generate(u, sha, id, secret);
    FirstIndexIs(u.show(id), t.secret, '.');
    assert t.raw == u.show(id) + ['.'] + t.secret;
    assert t.raw[..|u.show(id)|] == u.show(id) && t.raw[|u.show(id)| + 1..] == t.secret;
    DecodeEncode(Url, secret);
  }

  // ---------------------------------------------------------------- signed OAuth states

  type Mac = string -> Bytes

  function SignState(mac: Mac, raw: string): string {
    raw + "." + Encode(Url, mac(raw))
  }

  function VerifyState(mac: Mac, signed: string): Option<string> {
    match LastIndex(signed, '.')
    case None => None
    case Some(dot) =>
      var raw := signed[..dot];
      if signed[dot + 1..] == Encode(Url, mac(raw)) then Some(raw) else None
  }

  /** A string verifies to `raw` exactly when it is the signature of `raw`, dots inside or not. */
  lemma VerifyStateIff(mac: Mac, signed: string, raw: string)
    ensures VerifyState(mac, signed) == Some(raw) <==> signed == SignState(mac, raw)
    ensures VerifyState(mac, signed) == Some(raw) <==> signed == raw + "." + Encode(Url, mac(raw))
  {
    var sig := Encode(Url, mac(raw));
    EncodeAvoids(Url, mac(raw));
    LastIndexIs(raw, sig, '.');
    var s := SignState(mac, raw);
    assert s == raw + ['.'] + sig;
    assert s[..|raw|] == raw && s[|raw| + 1..] == sig;
    match LastIndex(signed, '.')
    case None =>
    case Some(dot) => assert signed == signed[..dot] + "." + signed[dot + 1..];
  }
}
