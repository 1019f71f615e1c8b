/** The Base 64 encoding of section 4 of RFC 4648 (standard alphabet, `=` padding),
    as `base64.b64encode` produces it and `base64.b64decode` reads it back.

    It works in two layers: octets are regrouped into 6-bit groups ("sextets"), and
    each sextet is written as one character of the alphabet, with pad characters to
    complete the last quantum of four characters. */
module Base64 {
  import opened Results

  /** A 6-bit group, the value one alphabet character stands for. */
  type Sextet = x: int | 0 <= x < 64

  datatype DecodeError = IncorrectPadding | NonAlphabetCharacter

  const Pad: char := '='

  /** The alphabet of Table 1 of the RFC: A-Z, a-z, 0-9, '+', '/'. */
  function CharOf(v: Sextet): char {
    if v < 26 then ('A' as int + v) as char
    else if v < 52 then ('a' as int + (v - 26)) as char
    else if v < 62 then ('0' as int + (v - 52)) as char
    else if v == 62 then '+'
    else '/'
  }

  /** Distinct values have distinct characters, and none of them is the pad. */
  lemma AlphabetInjective()
    ensures forall v: Sextet, w: Sextet :: CharOf(v) == CharOf(w) ==> v == w
    ensures forall v: Sextet :: CharOf(v) != Pad
  {
  }

  /** The inverse of the alphabet: each alphabet character mapped to its value. */
  function Values(): map<char, Sextet> {
    AlphabetInjective();
    map v: Sextet | 0 <= v < 64 :: CharOf(v) := v
  }

  /** The value of an alphabet character; `None` for any other character, the pad
      included. */
  function ValueOf(c: char): Option<Sextet> {
    var m := Values();
    if c in m then Some(m[c]) else None
  }

  lemma ValueOfCharOf(v: Sextet)
    ensures ValueOf(CharOf(v)) == Some(v)
  {
    assert CharOf(v) in Values();
  }

  /** The sextets that one, two or three octets are split into. */
  function Sextet0(b0: Byte): Sextet { b0 / 4 }
  function Sextet1(b0: Byte, b1: Byte): Sextet { (b0 % 4) * 16 + b1 / 16 }
  function Sextet2(b1: Byte, b2: Byte): Sextet { (b1 % 16) * 4 + b2 / 64 }
  function Sextet3(b2: Byte): Sextet { b2 % 64 }

  /** The sextets of a string of octets: four for each group of three octets, and two or
      three for a final group of one or two octets (the missing bits are zero). */
  function Sextets(b: seq<Byte>): (xs: seq<Sextet>)
    ensures |xs| % 4 == (if |b| % 3 == 0 then 0 else |b| % 3 + 1)
    decreases |b|
  {
    if |b| == 0 then []
    else if |b| == 1 then [Sextet0(b[0]), Sextet1(b[0], 0)]
    else if |b| == 2 then [Sextet0(b[0]), Sextet1(b[0], b[1]), Sextet2(b[1], 0)]
    else
      var rest := Sextets(b[3..]);
      assert |b[3..]| % 3 == |b| % 3;
      [Sextet0(b[0]), Sextet1(b[0], b[1]), Sextet2(b[1], b[2]), Sextet3(b[2])] + rest
  }

  /** The octets that two, three or four sextets carry. */
  function Octet0(v0: Sextet, v1: Sextet): Byte { v0 * 4 + v1 / 16 }
  function Octet1(v1: Sextet, v2: Sextet): Byte { (v1 % 16) * 16 + v2 / 4 }
  function Octet2(v2: Sextet, v3: Sextet): Byte { (v2 % 4) * 64 + v3 }

  /** The octets of a string of sextets: three for each group of four, and one or two for
      a final group of two or three (the bits left over are dropped). */
  function Octets(xs: seq<Sextet>): (b: seq<Byte>)
    requires |xs| % 4 != 1
    ensures |b| == 3 * (|xs| / 4) + (if |xs| % 4 == 0 then 0 else |xs| % 4 - 1)
    decreases |xs|
  {
    if |xs| == 0 then []
    else if |xs| == 2 then [Octet0(xs[0], xs[1])]
    else if |xs| == 3 then [Octet0(xs[0], xs[1]), Octet1(xs[1], xs[2])]
    else [Octet0(xs[0], xs[1]), Octet1(xs[1], xs[2]), Octet2(xs[2], xs[3])] + Octets(xs[4..])
  }

  /** The characters of a string of sextets. */
  function Chars(xs: seq<Sextet>): (s: string)
    ensures |s| == |xs|
    ensures forall i :: 0 <= i < |xs| ==> s[i] == CharOf(xs[i])
  {
    if xs == [] then [] else [CharOf(xs[0])] + Chars(xs[1..])
  }

  /** The sextets of a string of alphabet characters; `None` if any character is
      outside the alphabet. */
  function ValuesOf(s: string): (r: Option<seq<Sextet>>)
    ensures r.Some? ==> |r.value| == |s|
  {
    if s == [] then Some([])
    else
      match (ValueOf(s[0]), ValuesOf(s[1..]))
      case (Some(v), Some(vs)) => Some([v] + vs)
      case _ => None
  }

  /** The pad characters that complete the last quantum of `n` octets. */
  function Padding(n: nat): string {
    if n % 3 == 1 then [Pad, Pad] else if n % 3 == 2 then [Pad] else []
  }

  /** A character `b64encode` may write: one of the alphabet, or the pad. */
  predicate IsEncodingChar(c: char) {
    c == Pad || ValueOf(c).Some?
  }

  /** `base64.b64encode`: whole quanta of four characters, each from the alphabet or
      the pad. */
  function Encode(b: seq<Byte>): (s: string)
    ensures |s| % 4 == 0
  {
    Chars(Sextets(b)) + Padding(|b|)
  }

  /** Every character of an encoding is an alphabet character or the pad. */
  lemma EncodeAlphabet(b: seq<Byte>)
    ensures forall i :: 0 <= i < |Encode(b)| ==> IsEncodingChar(Encode(b)[i])
  {
    var xs := Sextets(b);
    forall i | 0 <= i < |xs| ensures IsEncodingChar(Chars(xs)[i]) {
      ValueOfCharOf(xs[i]);
    }
  }

  /** The number of pad characters `s` ends with, up to two. */
  function TrailingPads(s: string): (p: nat)
    ensures p <= 2 && p <= |s|
  {
    if |s| >= 2 && s[|s| - 1] == Pad && s[|s| - 2] == Pad then 2
    else if |s| >= 1 && s[|s| - 1] == Pad then 1
    else 0
  }

  /** `base64.b64decode` on canonical input: whole quanta of four characters, with pad
      characters only at the very end. */
  function Decode(s: string): (r: Result<seq<Byte>, DecodeError>)
    ensures |s| % 4 != 0 ==> r == Failure(IncorrectPadding)
    ensures r.Success? ==> |r.value| == 3 * (|s| / 4) - TrailingPads(s)
  {
    if |s| % 4 != 0 then Failure(IncorrectPadding)
    else
      match ValuesOf(s[..|s| - TrailingPads(s)])
      case None => Failure(NonAlphabetCharacter)
      case Some(xs) => Success(Octets(xs))
  }

  lemma Octet0Split(b0: Byte, b1: Byte)
    ensures Octet0(Sextet0(b0), Sextet1(b0, b1)) == b0
  {
    assert Sextet1(b0, b1) / 16 == b0 % 4;
  }

  lemma Octet1Split(b0: Byte, b1: Byte, b2: Byte)
    ensures Octet1(Sextet1(b0, b1), Sextet2(b1, b2)) == b1
  {
    assert Sextet1(b0, b1) % 16 == b1 / 16;
    assert Sextet2(b1, b2) / 4 == b1 % 16;
  }

  lemma Octet2Split(b1: Byte, b2: Byte)
    ensures Octet2(Sextet2(b1, b2), Sextet3(b2)) == b2
  {
    assert Sextet2(b1, b2) % 4 == b2 / 64;
  }

  /** Regrouping octets into sextets loses nothing. */
  lemma {:induction false} OctetsSextets(b: seq<Byte>)
    ensures Octets(Sextets(b)) == b
    decreases |b|
  {
    var xs := Sextets(b);
    if |b| == 1 {
      Octet0Split(b[0], 0);
    } else if |b| == 2 {
      Octet0Split(b[0], b[1]);
      Octet1Split(b[0], b[1], 0);
    } else if |b| > 2 {
      Octet0Split(b[0], b[1]);
      Octet1Split(b[0], b[1], b[2]);
      Octet2Split(b[1], b[2]);
      assert xs[4..] == Sextets(b[3..]);
      OctetsSextets(b[3..]);
      assert b == [b[0], b[1], b[2]] + b[3..];
    }
  }

  /** Reading back the characters of sextets gives the same sextets. */
  lemma {:induction false} ValuesOfChars(xs: seq<Sextet>)
    ensures ValuesOf(Chars(xs)) == Some(xs)
  {
    if xs != [] {
      var s := Chars(xs);
      assert s == [CharOf(xs[0])] + Chars(xs[1..]);
      assert s[0] == CharOf(xs[0]) && s[1..] == Chars(xs[1..]);
      ValueOfCharOf(xs[0]);
      ValuesOfChars(xs[1..]);
      assert ValuesOf(s) == Some([xs[0]] + xs[1..]);
      assert xs == [xs[0]] + xs[1..];
    }
  }

  /** The pad characters of an encoding are exactly the ones `Padding` added. */
  lemma TrailingPadsAfterChars(xs: seq<Sextet>, n: nat)
    ensures TrailingPads(Chars(xs) + Padding(n)) == |Padding(n)|
  {
    var body, pad := Chars(xs), Padding(n);
    var s := body + pad;
    AlphabetInjective();
    if |pad| < 2 && |body| > 0 {
      assert body[|body| - 1] == CharOf(xs[|body| - 1]);
    }
    if |pad| == 0 && |body| > 1 {
      assert s[|s| - 1] == body[|body| - 1];
    }
    if |pad| == 1 && |body| > 0 {
      assert s[|s| - 2] == body[|body| - 1];
    }
  }

  /** Decoding what `Encode` produced gives back the same octets. */
  lemma DecodeEncode(b: seq<Byte>)
    ensures Decode(Encode(b)) == Success(b)
  {
    var xs := Sextets(b);
    var s := Encode(b);
    TrailingPadsAfterChars(xs, |b|);
    assert s[..|s| - TrailingPads(s)] == Chars(xs);
    ValuesOfChars(xs);
    OctetsSextets(b);
  }

  /** Different octet strings never share an encoding. */
  lemma EncodeInjective(a: seq<Byte>, b: seq<Byte>)
    ensures Encode(a) == Encode(b) ==> a == b
  {
    DecodeEncode(a);
    DecodeEncode(b);
  }
}
