/**
 Unpadded base64 of RFC 4648, section 4 (standard alphabet) and section 5 (URL alphabet), with the
 lenient decoder of Go's Raw encodings: CR and LF are skipped and trailing bits are not checked.
 */
module Base64 {
  import opened Common

  type byte = b: int | 0 <= b < 256
  type sextet = x: int | 0 <= x < 64
  type Bytes = seq<byte>

  datatype Alphabet = Standard | Url

  function Letter(a: Alphabet, x: sextet): char {
    if x < 26 then 'A' + x as char
    else if x < 52 then 'a' + (x - 26) as char
    else if x < 62 then '0' + (x - 52) as char
    else if x == 62 then (if a.Standard? then '+' else '-')
    else (if a.Standard? then '/' else '_')
  }

  function Index(a: Alphabet, c: char): (r: Option<sextet>)
    ensures r.Some? ==> Letter(a, r.value) == c
  {
    if 'A' <= c <= 'Z' then Some(c as int - 'A' as int)
    else if 'a' <= c <= 'z' then Some(c as int - 'a' as int + 26)
    else if '0' <= c <= '9' then Some(c as int - '0' as int + 52)
    else if c == Letter(a, 62) then Some(62)
    else if c == Letter(a, 63) then Some(63)
    else None
  }

  lemma IndexOfLetter(a: Alphabet, x: sextet)
    ensures Index(a, Letter(a, x)) == Some(x)
    ensures Letter(a, x) != '\r' && Letter(a, x) != '\n' && Letter(a, x) != '$' && Letter(a, x) != '.'
  {
  }

  // ---------------------------------------------------------------- encoding

  /** The four sextets of three bytes. */
  function Sextets(b0: byte, b1: byte, b2: byte): seq<sextet> {
    [b0 / 4, b0 % 4 * 16 + b1 / 16, b1 % 16 * 4 + b2 / 64, b2 % 64]
  }

  /** Six bits each, the most significant first. */
  lemma SextetsAreTheBits(b0: byte, b1: byte, b2: byte)
    ensures var xs := Sextets(b0, b1, b2);
      var x0: int, x1: int, x2: int, x3: int := xs[0], xs[1], xs[2], xs[3];
      var y0: int, y1: int, y2: int := b0, b1, b2;
      x0 * 262144 + x1 * 4096 + x2 * 64 + x3 == y0 * 65536 + y1 * 256 + y2
  {
  }

  function ToSextets(bs: Bytes): seq<sextet>
    decreases |bs|
  {
    if |bs| == 0 then []
    else if |bs| == 1 then Sextets(bs[0], 0, 0)[..2]
    else if |bs| == 2 then Sextets(bs[0], bs[1], 0)[..3]
    else Sextets(bs[0], bs[1], bs[2]) + ToSextets(bs[3..])
  }

  function Letters(a: Alphabet, xs: seq<sextet>): (s: string)
    ensures |s| == |xs|
    decreases |xs|
  {
    if xs == [] then "" else [Letter(a, xs[0])] + Letters(a, xs[1..])
  }

  /** `RawStdEncoding` / `RawURLEncoding.EncodeToString`. */
  function Encode(a: Alphabet, bs: Bytes): string {
    Letters(a, ToSextets(bs))
  }

  lemma OneLetter(a: Alphabet, x: sextet, rest: seq<sextet>)
    ensures Letters(a, [x] + rest) == [Letter(a, x)] + Letters(a, rest)
  {
    assert ([x] + rest)[1..] == rest;
  }

  lemma FourLetters(a: Alphabet, x0: sextet, x1: sextet, x2: sextet, x3: sextet, rest: seq<sextet>)
    ensures Letters(a, [x0, x1, x2, x3] + rest)
      == [Letter(a, x0), Letter(a, x1), Letter(a, x2), Letter(a, x3)] + Letters(a, rest)
  {
    assert [x0, x1, x2, x3] + rest == [x0] + ([x1] + ([x2] + ([x3] + rest)));
    OneLetter(a, x0, [x1] + ([x2] + ([x3] + rest)));
    OneLetter(a, x1, [x2] + ([x3] + rest));
    OneLetter(a, x2, [x3] + rest);
    OneLetter(a, x3, rest);
  }

  /** The longest test vector of RFC 4648, section 10. */
  lemma TestVector()
    ensures Encode(Standard, [102, 111, 111, 98, 97, 114]) == "Zm9vYmFy"
  {
    var bs: Bytes := [102, 111, 111, 98, 97, 114];
    assert bs[3..] == [98, 97, 114];
    assert ToSextets(bs) == [25, 38, 61, 47] + [24, 38, 5, 50];
    FourLetters(Standard, 25, 38, 61, 47, [24, 38, 5, 50]);
    FourLetters(Standard, 24, 38, 5, 50, []);
    assert [24, 38, 5, 50] + [] == [24, 38, 5, 50];
  }

  /** A text that tells the alphabets apart. */
  lemma AlphabetsDiffer()
    ensures Encode(Standard, [251, 255, 191]) == "+/+/" && Encode(Url, [251, 255, 191]) == "-_-_"
  {
    assert ToSextets([251, 255, 191]) == [62, 63, 62, 63] + [];
    FourLetters(Standard, 62, 63, 62, 63, []);
    FourLetters(Url, 62, 63, 62, 63, []);
  }

  // ---------------------------------------------------------------- decoding

  function DropNewlines(s: string): string
    decreases |s|
  {
    if s == "" then ""
    else if s[0] == '\r' || s[0] == '\n' then DropNewlines(s[1..])
    else [s[0]] + DropNewlines(s[1..])
  }

  function Indices(a: Alphabet, s: string): Option<seq<sextet>>
    decreases |s|
  {
    if s == "" then Some([])
    else
      var x, xs := Index(a, s[0]), Indices(a, s[1..]);
      if x.Some? && xs.Some? then Some([x.value] + xs.value) else None
  }

  function Byte0(x0: int, x1: int): int { x0 * 4 + x1 / 16 }
  function Byte1(x1: int, x2: int): int { x1 % 16 * 16 + x2 / 4 }
  function Byte2(x2: int, x3: int): int { x2 % 4 * 64 + x3 }

  /** Three bytes out of four sextets; the low bits of an incomplete group are ignored. */
  function FromSextets(xs: seq<sextet>): Option<Bytes>
    decreases |xs|
  {
    if |xs| == 0 then Some([])
    else if |xs| == 1 then None
    else if |xs| == 2 then Some([Byte0(xs[0], xs[1])])
    else if |xs| == 3 then Some([Byte0(xs[0], xs[1]), Byte1(xs[1], xs[2])])
    else match FromSextets(xs[4..])
      case Some(bs) => Some([Byte0(xs[0], xs[1]), Byte1(xs[1], xs[2]), Byte2(xs[2], xs[3])] + bs)
      case None => None
  }

  /** `RawStdEncoding` / `RawURLEncoding.DecodeString`. */
  function Decode(a: Alphabet, s: string): Option<Bytes> {
    match Indices(a, DropNewlines(s))
    case Some(xs) => FromSextets(xs)
    case None => None
  }

  // ---------------------------------------------------------------- decoding undoes encoding

  lemma {:induction false} LettersDecode(a: Alphabet, xs: seq<sextet>)
    ensures DropNewlines(Letters(a, xs)) == Letters(a, xs)
    ensures Indices(a, Letters(a, xs)) == Some(xs)
    ensures '$' !in Letters(a, xs) && '.' !in Letters(a, xs)
    decreases |xs|
  {
    if xs != [] {
      IndexOfLetter(a, xs[0]);
      LettersDecode(a, xs[1..]);
      assert Letters(a, xs)[1..] == Letters(a, xs[1..]);
      assert xs == [xs[0]] + xs[1..];
    }
  }

  lemma GroupDecodes(b0: byte, b1: byte, b2: byte)
    ensures var xs := Sextets(b0, b1, b2);
            Byte0(xs[0], xs[1]) == b0 && Byte1(xs[1], xs[2]) == b1 && Byte2(xs[2], xs[3]) == b2
  {
  }

  lemma {:induction false} SextetsDecode(bs: Bytes)
    ensures FromSextets(ToSextets(bs)) == Some(bs)
    decreases |bs|
  {
    if |bs| == 1 {
      GroupDecodes(bs[0], 0, 0);
      assert bs == [bs[0]];
    } else if |bs| == 2 {
      GroupDecodes(bs[0], bs[1], 0);
      assert bs == [bs[0], bs[1]];
    } else if |bs| >= 3 {
      GroupDecodes(bs[0], bs[1], bs[2]);
      SextetsDecode(bs[3..]);
      assert ToSextets(bs)[4..] == ToSextets(bs[3..]);
      assert bs == [bs[0], bs[1], bs[2]] + bs[3..];
    }
  }

  /** The identity on all byte strings, in either alphabet. */
  lemma DecodeEncode(a: Alphabet, bs: Bytes)
    ensures Decode(a, Encode(a, bs)) == Some(bs)
  {
    LettersDecode(a, ToSextets(bs));
    SextetsDecode(bs);
  }

  /** Encoded text contains neither of the separators that hashes and tokens use. */
  lemma EncodeAvoids(a: Alphabet, bs: Bytes)
    ensures '$' !in Encode(a, bs) && '.' !in Encode(a, bs)
  {
    LettersDecode(a, ToSextets(bs));
  }
}
