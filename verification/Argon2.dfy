/** The argon2id hash string: printing, parsing and verification; the key derivation is a parameter. */
module Argon2 {
  import opened Common
  import opened Text
  import opened Base64

  const VERSION := 19
  const UINT32 := 0x1_0000_0000
  const UINT8 := 0x100

  datatype Params = Params(memory: nat, iterations: nat, parallelism: nat, saltLen: nat, keyLen: nat)
  {
    /** The ranges of the Go field types. */
    predicate InRange() {
      memory < UINT32 && iterations < UINT32 && parallelism < UINT8 && saltLen < UINT32 && keyLen < UINT32
    }
  }

  /** argon2.IDKey: password, salt, and the parameters whose `keyLen` it honours. */
  type Kdf = (Bytes, Bytes, Params) -> Bytes

  ghost predicate Lawful(kdf: Kdf) {
    forall pw, salt, p :: |kdf(pw, salt, p)| == p.keyLen
  }

  datatype Error = BadFormat | BadVariant | BadVersion | UnsupportedVersion(found: int) | BadParams | BadSalt | BadKey
  datatype Result<T> = Ok(value: T) | Err(error: Error)

  datatype Decoded = Decoded(params: Params, salt: Bytes, key: Bytes)

  function ParamText(p: Params): string {
    "m=" + (Decimal(p.memory) + (",t=" + (Decimal(p.iterations) + (",p=" + Decimal(p.parallelism)))))
  }

  /** `Hash`, given the salt it drew. */
  function Hash(kdf: Kdf, pw: Bytes, p: Params, salt: Bytes): string {
    "$argon2id$v=" + Decimal(VERSION) + "$" + ParamText(p) + "$"
    + Encode(Standard, salt) + "$" + Encode(Standard, kdf(pw, salt, p))
  }

  /** `Sscanf(s, "v=%d")`. */
  function ScanVersion(s: string): Option<int> {
    match ScanLiteral(s, "v=")
    case None => None
    case Some(t) => match ScanInt(t)
      case None => None
      case Some(v) => Some(v.value)
  }

  /** `lit` followed by `%d`. */
  function ScanField(s: string, lit: string, bound: nat): Option<ScannedNat> {
    match ScanLiteral(s, lit)
    case None => None
    case Some(t) => ScanUint(t, bound)
  }

  /** `Sscanf(s, "m=%d,t=%d,p=%d")`; trailing input is ignored. */
  function ScanParams(s: string): Option<(nat, nat, nat)> {
    match ScanField(s, "m=", UINT32)
    case None => None
    case Some(m) => match ScanField(m.rest, ",t=", UINT32)
      case None => None
      case Some(t) => match ScanField(t.rest, ",p=", UINT8)
        case None => None
        case Some(p) => Some((m.value, t.value, p.value))
  }

  /** The checks of `decode`, in its order, on what each part scans to. */
  function Assemble(v: Option<int>, t: Option<(nat, nat, nat)>, salt: Option<Bytes>,
    key: Option<Bytes>): Result<Decoded> {
    if v.None? then Err(BadVersion)
    else if v.value != VERSION then Err(UnsupportedVersion(v.value))
    else if t.None? then Err(BadParams)
    else if salt.None? then Err(BadSalt)
    else if key.None? then Err(BadKey)
    else Ok(Decoded(Params(t.value.0, t.value.1, t.value.2, |salt.value| % UINT32, |key.value| % UINT32),
                    salt.value, key.value))
  }

  function DecodeHash(encoded: string): Result<Decoded> {
    var parts := Split(encoded, '$');
    if |parts| != 6 then Err(BadFormat)
    else if parts[1] != "argon2id" then Err(BadVariant)
    else Assemble(ScanVersion(parts[2]), ScanParams(parts[3]), Decode(Standard, parts[4]), Decode(Standard, parts[5]))
  }

  function Verify(kdf: Kdf, pw: Bytes, encoded: string): Result<bool> {
    match DecodeHash(encoded)
    case Err(e) => Err(e)
    case Ok(d) => Ok(d.key == kdf(pw, d.salt, d.params))
  }

  // ---------------------------------------------------------------- printing, then parsing

  lemma ScanFieldPrinted(lit: string, n: nat, rest: string, bound: nat)
    requires n < bound && (rest != "" ==> !IsDigit(rest[0]))
    ensures ScanField(lit + (Decimal(n) + rest), lit, bound) == Some(ScannedNat(n, rest))
  {
    ScanUintPrinted(n, rest, bound);
    assert (lit + (Decimal(n) + rest))[|lit|..] == Decimal(n) + rest;
  }

  lemma ScanParamsPrinted(p: Params)
    requires p.InRange()
    ensures ScanParams(ParamText(p)) == Some((p.memory, p.iterations, p.parallelism))
  {
    ScanFieldPrinted(",p=", p.parallelism, "", UINT8);
    assert Decimal(p.parallelism) + "" == Decimal(p.parallelism);
    var r2 := ",p=" + Decimal(p.parallelism);
    ScanFieldPrinted(",t=", p.iterations, r2, UINT32);
    var r1 := ",t=" + (Decimal(p.iterations) + r2);
    ScanFieldPrinted("m=", p.memory, r1, UINT32);
  }

  lemma ScanVersionPrinted()
    ensures ScanVersion("v=" + Decimal(VERSION)) == Some(VERSION)
  {
    ScanIntPrinted(VERSION, "");
    var s := "v=" + Decimal(VERSION);
    assert s[2..] == Decimal(VERSION) == Decimal(VERSION) + "";
  }

  lemma HeadIs(d: string)
    ensures "$argon2id$v=" + d == "" + "$" + "argon2id" + "$" + ("v=" + d)
  {
  }

  lemma SixParts(b: string, c: string, d: string, e: string, f: string)
    requires '$' !in b && '$' !in c && '$' !in d && '$' !in e && '$' !in f
    ensures Split("" + "$" + b + "$" + c + "$" + d + "$" + e + "$" + f, '$') == ["", b, c, d, e, f]
  {
    JoinSix("", b, c, d, e, f, '$');
    SplitJoin(["", b, c, d, e, f], '$');
  }

  /** The six `$`-separated parts of a printed hash. */
  lemma HashParts(kdf: Kdf, pw: Bytes, p: Params, salt: Bytes)
    ensures Split(Hash(kdf, pw, p, salt), '$') ==
            ["", "argon2id", "v=" + Decimal(19),
              "m=" + (Decimal(p.memory) + (",t=" + (Decimal(p.iterations) + (",p=" + Decimal(p.parallelism))))),
              Encode(Standard, salt), Encode(Standard, kdf(pw, salt, p))]
  {
    EncodeAvoids(Standard, salt);
    EncodeAvoids(Standard, kdf(pw, salt, p));
    DecimalAvoids(VERSION, '$');
    ParamTextAvoids(p);
    HeadIs(Decimal(VERSION));
    SixParts("argon2id", "v=" + Decimal(VERSION), ParamText(p), Encode(Standard, salt),
      Encode(Standard, kdf(pw, salt, p)));
  }

  lemma ParamTextAvoids(p: Params)
    ensures '$' !in ParamText(p)
  {
    DecimalAvoids(p.memory, '$');
    DecimalAvoids(p.iterations, '$');
    DecimalAvoids(p.parallelism, '$');
  }

  lemma SplitDecodes(encoded: string, v: string, m: string, e: string, k: string)
    requires Split(encoded, '$') == ["", "argon2id", v, m, e, k]
    ensures DecodeHash(encoded) == Assemble(ScanVersion(v), ScanParams(m), Decode(Standard, e), Decode(Standard, k))
  {
  }

  lemma Assembled(p: Params, salt: Bytes, key: Bytes)
    requires p.InRange() && |salt| == p.saltLen && |key| == p.keyLen
    ensures Assemble(Some(VERSION), Some((p.memory, p.iterations, p.parallelism)), Some(salt), Some(key))
            == Ok(Decoded(p, salt, key))
  {
  }

  /** Decoding a printed hash returns exactly what was printed. */
  lemma DecodeOfHash(kdf: Kdf, pw: Bytes, p: Params, salt: Bytes)
    requires Lawful(kdf) && p.InRange() && |salt| == p.saltLen
    ensures DecodeHash(Hash(kdf, pw, p, salt)) == Ok(Decoded(p, salt, kdf(pw, salt, p)))
  {
    var key := kdf(pw, salt, p);
    var v, m, e, k := "v=" + Decimal(VERSION), ParamText(p), Encode(Standard, salt), Encode(Standard, key);
    HashParts(kdf, pw, p, salt);
    SplitDecodes(Hash(kdf, pw, p, salt), v, m, e, k);
    ScanVersionPrinted();
    ScanParamsPrinted(p);
    DecodeEncode(Standard, salt);
    DecodeEncode(Standard, key);
    Assembled(p, salt, key);
  }

  /**
   A string that is not six parts, names another variant or version, or has a part that does not
   scan or decode never verifies; each with its error.  Otherwise the derived key decides.
   */
  lemma VerifyDecides(kdf: Kdf, pw: Bytes, encoded: string)
    ensures var p := Split(encoded, '$');
      var well := |p| == 6 && p[1] == "argon2id" && ScanVersion(p[2]) == Some(19) && ScanParams(p[3]).Some?
        && Decode(Standard, p[4]).Some? && Decode(Standard, p[5]).Some?;
      && Join(p, '$') == encoded
      && (Verify(kdf, pw, encoded).Ok? <==> well)
      && (well ==>
            var t, salt, key := ScanParams(p[3]).value, Decode(Standard, p[4]).value, Decode(Standard, p[5]).value;
            Verify(kdf, pw, encoded) == Ok(key == kdf(pw, salt,
              Params(t.0, t.1, t.2, |salt| % 0x1_0000_0000, |key| % 0x1_0000_0000))))
    ensures var p, e := Split(encoded, '$'), Verify(kdf, pw, encoded);
      && (e == Err(BadFormat) <==> |p| != 6)
      && (e == Err(BadVariant) <==> |p| == 6 && p[1] != "argon2id")
      && (e == Err(BadVersion) <==> |p| == 6 && p[1] == "argon2id" && ScanVersion(p[2]) == None)
      && (forall v :: e == Err(UnsupportedVersion(v)) <==>
            |p| == 6 && p[1] == "argon2id" && ScanVersion(p[2]) == Some(v) && v != 19)
  {
    JoinSplit(encoded, '$');
  }

  /** A password verifies against a stored hash exactly when it derives the same key. */
  lemma VerifyIff(kdf: Kdf, pw: Bytes, p: Params, salt: Bytes, attempt: Bytes)
    requires Lawful(kdf) && p.InRange() && |salt| == p.saltLen
    ensures Verify(kdf, attempt, Hash(kdf, pw, p, salt)) == Ok(kdf(attempt, salt, p) == kdf(pw, salt, p))
    ensures Verify(kdf, pw, Hash(kdf, pw, p, salt)) == Ok(true)
  {
    DecodeOfHash(kdf, pw, p, salt);
  }
}
