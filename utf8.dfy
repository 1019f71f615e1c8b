/** UTF-8 as Python's `str.encode('utf-8')` writes it and `bytes.decode('utf-8')`
    (strict errors) reads it: one to four octets per code point, shortest form only,
    no surrogates, nothing above U+10FFFF. */
module Utf8 {
  import opened Results

  datatype DecodeError = InvalidUtf8

  predicate IsContinuation(b: Byte) {
    0x80 <= b < 0xC0
  }

  /** The octets of one code point. */
  function EncodeChar(c: char): (b: seq<Byte>)
    ensures 1 <= |b| <= 4
  {
    var cp := c as int;
    if cp < 0x80 then [cp]
    else if cp < 0x800 then [0xC0 + cp / 0x40, 0x80 + cp % 0x40]
    else if cp < 0x1_0000 then [0xE0 + cp / 0x1000, 0x80 + (cp / 0x40) % 0x40, 0x80 + cp % 0x40]
    else [0xF0 + cp / 0x4_0000, 0x80 + (cp / 0x1000) % 0x40, 0x80 + (cp / 0x40) % 0x40, 0x80 + cp % 0x40]
  }

  /** `s.encode('utf-8')`: one to four octets for each character. */
  function Encode(s: string): (b: seq<Byte>)
    ensures |s| <= |b| <= 4 * |s|
  {
    if s == [] then [] else EncodeChar(s[0]) + Encode(s[1..])
  }

  /** Reads the code point that starts `b`, with the number of octets it used; `None`
      when the octets there are not the shortest encoding of a scalar value. */
  function DecodeFirst(b: seq<Byte>): (r: Option<(char, nat)>)
    requires |b| > 0
    ensures r.Some? ==> 1 <= r.value.1 <= |b|
  {
    var b0: int := b[0];
    if b0 < 0x80 then Some((b0 as char, 1))
    else if b0 < 0xC0 then None
    else if b0 < 0xE0 then
      if |b| < 2 || !IsContinuation(b[1]) then None
      else
        var cp := (b0 - 0xC0) * 0x40 + (b[1] as int - 0x80);
        if cp < 0x80 then None else Some((cp as char, 2))
    else if b0 < 0xF0 then
      if |b| < 3 || !IsContinuation(b[1]) || !IsContinuation(b[2]) then None
      else
        var cp := (b0 - 0xE0) * 0x1000 + (b[1] as int - 0x80) * 0x40 + (b[2] as int - 0x80);
        if cp < 0x800 || 0xD800 <= cp < 0xE000 then None else Some((cp as char, 3))
    else
      if |b| < 4 || !IsContinuation(b[1]) || !IsContinuation(b[2]) || !IsContinuation(b[3]) then None
      else
        var cp := (b0 - 0xF0) * 0x4_0000 + (b[1] as int - 0x80) * 0x1000 + (b[2] as int - 0x80) * 0x40 + (b[3] as int - 0x80);
        if cp < 0x1_0000 || cp >= 0x11_0000 then None else Some((cp as char, 4))
  }

  /** `b.decode('utf-8')`. Strict decoding accepts only octets that are the encoding of
      the string it returns. */
  function Decode(b: seq<Byte>): (r: Result<string, DecodeError>)
    ensures r.Success? ==> Encode(r.value) == b
    decreases |b|
  {
    if b == [] then Success([])
    else
      match DecodeFirst(b)
      case None => Failure(InvalidUtf8)
      case Some((c, n)) =>
        match Decode(b[n..])
        case Failure(e) => Failure(e)
        case Success(rest) =>
          DecodeStep(b, rest);
          Success([c] + rest)
  }

  /** A code point read from the front of `b`, followed by the encoding of the rest of
      `b`, is the encoding of all of `b`. */
  lemma DecodeStep(b: seq<Byte>, rest: string)
    requires |b| > 0 && DecodeFirst(b).Some?
    requires Encode(rest) == b[DecodeFirst(b).value.1..]
    ensures Encode([DecodeFirst(b).value.0] + rest) == b
  {
    var (c, n) := DecodeFirst(b).value;
    DecodeFirstIsEncoding(b);
    assert ([c] + rest)[1..] == rest;
    assert b == b[..n] + b[n..];
  }

  lemma DecodeTwo(b0: int, x1: int)
    requires 0xC0 <= b0 < 0xE0 && 0 <= x1 < 0x40
    ensures var cp := (b0 - 0xC0) * 0x40 + x1; cp / 0x40 == b0 - 0xC0 && cp % 0x40 == x1
  {
  }

  lemma DecodeThree(b0: int, x1: int, x2: int)
    requires 0xE0 <= b0 < 0xF0 && 0 <= x1 < 0x40 && 0 <= x2 < 0x40
    ensures var cp := (b0 - 0xE0) * 0x1000 + x1 * 0x40 + x2;
      cp / 0x1000 == b0 - 0xE0 && (cp / 0x40) % 0x40 == x1 && cp % 0x40 == x2
  {
    var cp := (b0 - 0xE0) * 0x1000 + x1 * 0x40 + x2;
    assert cp / 0x40 == (b0 - 0xE0) * 0x40 + x1;
  }

  lemma DecodeFour(b0: int, x1: int, x2: int, x3: int)
    requires 0xF0 <= b0 < 0x100 && 0 <= x1 < 0x40 && 0 <= x2 < 0x40 && 0 <= x3 < 0x40
    ensures var cp := (b0 - 0xF0) * 0x4_0000 + x1 * 0x1000 + x2 * 0x40 + x3;
      && cp / 0x4_0000 == b0 - 0xF0 && (cp / 0x1000) % 0x40 == x1
      && (cp / 0x40) % 0x40 == x2 && cp % 0x40 == x3
  {
    var cp := (b0 - 0xF0) * 0x4_0000 + x1 * 0x1000 + x2 * 0x40 + x3;
    assert cp / 0x40 == (b0 - 0xF0) * 0x1000 + x1 * 0x40 + x2;
    assert cp / 0x1000 == (b0 - 0xF0) * 0x40 + x1;
  }

  /** A code point is read back only from its own encoding. */
  lemma DecodeFirstIsEncoding(b: seq<Byte>)
    requires |b| > 0 && DecodeFirst(b).Some?
    ensures EncodeChar(DecodeFirst(b).value.0) == b[..DecodeFirst(b).value.1]
  {
    var b0: int := b[0];
    if b0 < 0x80 {
    } else if b0 < 0xE0 {
      DecodeTwo(b0, b[1] as int - 0x80);
    } else if b0 < 0xF0 {
      DecodeThree(b0, b[1] as int - 0x80, b[2] as int - 0x80);
    } else {
      DecodeFour(b0, b[1] as int - 0x80, b[2] as int - 0x80, b[3] as int - 0x80);
    }
  }

  lemma TwoOctets(cp: int)
    requires 0x80 <= cp < 0x800
    ensures 0xC0 <= 0xC0 + cp / 0x40 < 0xE0
    ensures (cp / 0x40) * 0x40 + cp % 0x40 == cp
  {
  }

  lemma ThreeOctets(cp: int)
    requires 0x800 <= cp < 0x1_0000
    ensures 0xE0 <= 0xE0 + cp / 0x1000 < 0xF0
    ensures (cp / 0x1000) * 0x1000 + ((cp / 0x40) % 0x40) * 0x40 + cp % 0x40 == cp
  {
    assert cp / 0x40 == (cp / 0x1000) * 0x40 + (cp / 0x40) % 0x40;
  }

  lemma FourOctets(cp: int)
    requires 0x1_0000 <= cp < 0x11_0000
    ensures 0xF0 <= 0xF0 + cp / 0x4_0000 < 0xF5
    ensures (cp / 0x4_0000) * 0x4_0000 + ((cp / 0x1000) % 0x40) * 0x1000 + ((cp / 0x40) % 0x40) * 0x40 + cp % 0x40 == cp
  {
    assert cp / 0x1000 == (cp / 0x4_0000) * 0x40 + (cp / 0x1000) % 0x40;
    assert cp / 0x40 == (cp / 0x1000) * 0x40 + (cp / 0x40) % 0x40;
  }

  lemma DecodeFirstOfChar(c: char, rest: seq<Byte>)
    ensures DecodeFirst(EncodeChar(c) + rest) == Some((c, |EncodeChar(c)|))
  {
    var cp := c as int;
    var b := EncodeChar(c) + rest;
    if cp < 0x80 {
    } else if cp < 0x800 {
      TwoOctets(cp);
      assert b[0] == 0xC0 + cp / 0x40 && b[1] == 0x80 + cp % 0x40;
    } else if cp < 0x1_0000 {
      ThreeOctets(cp);
      assert b[0] == 0xE0 + cp / 0x1000 && b[1] == 0x80 + (cp / 0x40) % 0x40 && b[2] == 0x80 + cp % 0x40;
    } else {
      FourOctets(cp);
      assert b[0] == 0xF0 + cp / 0x4_0000 && b[1] == 0x80 + (cp / 0x1000) % 0x40;
      assert b[2] == 0x80 + (cp / 0x40) % 0x40 && b[3] == 0x80 + cp % 0x40;
    }
  }

  /** Decoding what `Encode` produced gives back the same string. */
  lemma {:induction false} DecodeEncode(s: string)
    ensures Decode(Encode(s)) == Success(s)
  {
    if s != [] {
      var head, tail := EncodeChar(s[0]), Encode(s[1..]);
      DecodeFirstOfChar(s[0], tail);
      assert (head + tail)[|head|..] == tail;
      DecodeEncode(s[1..]);
      assert s == [s[0]] + s[1..];
    }
  }
}
