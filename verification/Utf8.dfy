/** Well-formed UTF-8 byte sequences, section 4 of RFC 3629. */
module Utf8 {
  import opened Bytes

  predicate Tail(b: byte) { 0x80 <= b <= 0xBF }

  /** The length of the character at the front of `s`, or 0 when it is malformed. */
  function CharLen(s: bytes): (n: nat)
    requires s != []
    ensures n <= |s|
  {
    var a := s[0];
    if a <= 0x7F then 1
    else if |s| >= 2 && 0xC2 <= a <= 0xDF && Tail(s[1]) then 2
    else if |s| >= 3 && Tail(s[2]) && (
         || (a == 0xE0 && 0xA0 <= s[1] <= 0xBF)
         || ((0xE1 <= a <= 0xEC || 0xEE <= a <= 0xEF) && Tail(s[1]))
         || (a == 0xED && 0x80 <= s[1] <= 0x9F)) then 3
    else if |s| >= 4 && Tail(s[2]) && Tail(s[3]) && (
         || (a == 0xF0 && 0x90 <= s[1] <= 0xBF)
         || (0xF1 <= a <= 0xF3 && Tail(s[1]))
         || (a == 0xF4 && 0x80 <= s[1] <= 0x8F)) then 4
    else 0
  }

  predicate Valid(s: bytes) {
    s == [] || (CharLen(s) > 0 && Valid(s[CharLen(s)..]))
  }

  lemma {:induction false} AsciiIsValid(s: bytes)
    requires forall b :: b in s ==> b <= 0x7F
    ensures Valid(s)
  {
    if s == [] {
    } else {
      assert s[0] in s;
      assert forall b :: b in s[1..] ==> b in s;
      assert CharLen(s) == 1;
      AsciiIsValid(s[1..]);
    }
  }

  // ----- the same, from the characters -----

  /** A Unicode scalar value: any code point but the surrogates. */
  type Scalar = c: int | 0 <= c < 0xD800 || 0xE000 <= c <= 0x10FFFF

  /** The encoding of a character, section 3 of RFC 3629. */
  function Encode(c: Scalar): (e: bytes)
    ensures 1 <= |e| <= 4
  {
    if c < 0x80 then [c]
    else if c < 0x800 then [0xC0 + c / 0x40, 0x80 + c % 0x40]
    else if c < 0x1_0000 then [0xE0 + c / 0x1000, 0x80 + c / 0x40 % 0x40, 0x80 + c % 0x40]
    else [0xF0 + c / 0x4_0000, 0x80 + c / 0x1000 % 0x40, 0x80 + c / 0x40 % 0x40, 0x80 + c % 0x40]
  }

  function EncodeAll(cs: seq<Scalar>): bytes {
    if cs == [] then [] else Encode(cs[0]) + EncodeAll(cs[1..])
  }

  /** The character at the front of a well-formed string. */
  function Decode(s: bytes): (c: Scalar)
    requires s != [] && CharLen(s) > 0
  {
    var a := s[0] as int;
    match CharLen(s)
    case 1 => a
    case 2 => (a - 0xC0) * 0x40 + (s[1] as int - 0x80)
    case 3 => (a - 0xE0) * 0x1000 + (s[1] as int - 0x80) * 0x40 + (s[2] as int - 0x80)
    case _ => (a - 0xF0) * 0x4_0000 + (s[1] as int - 0x80) * 0x1000 + (s[2] as int - 0x80) * 0x40 + (s[3] as int - 0x80)
  }

  lemma Two(a: int, b: int)
    requires 0x02 <= a < 0x20 && 0 <= b < 0x40
    ensures Encode(a * 0x40 + b) == [0xC0 + a, 0x80 + b]
  {
  }

  lemma Three(a: int, b: int, c: int)
    requires 0 <= a < 0x10 && 0 <= b < 0x40 && 0 <= c < 0x40 && (a == 0 ==> b >= 0x20) && (a == 0xD ==> b < 0x20)
    ensures Encode(a * 0x1000 + b * 0x40 + c) == [0xE0 + a, 0x80 + b, 0x80 + c]
  {
    var n := a * 0x1000 + b * 0x40 + c;
    assert n / 0x40 == a * 0x40 + b && n % 0x40 == c && n / 0x1000 == a;
  }

  lemma Four(a: int, b: int, c: int, d: int)
    requires 0 <= a < 5 && 0 <= b < 0x40 && 0 <= c < 0x40 && 0 <= d < 0x40
    requires (a == 0 ==> b >= 0x10) && (a == 4 ==> b < 0x10)
    ensures Encode(a * 0x4_0000 + b * 0x1000 + c * 0x40 + d) == [0xF0 + a, 0x80 + b, 0x80 + c, 0x80 + d]
  {
    FourDigits(a, b, c, d, a * 0x4_0000 + b * 0x1000 + c * 0x40 + d);
  }

  lemma FourDigits(a: int, b: int, c: int, d: int, n: int)
    requires 0 <= b < 0x40 && 0 <= c < 0x40 && 0 <= d < 0x40
    requires n == a * 0x4_0000 + b * 0x1000 + c * 0x40 + d
    ensures n / 0x4_0000 == a && n / 0x1000 % 0x40 == b && n / 0x40 % 0x40 == c && n % 0x40 == d
  {
    assert n / 0x40 == a * 0x1000 + b * 0x40 + c;
    assert n / 0x1000 == a * 0x40 + b;
  }

  lemma FrontIsEncoded(s: bytes)
    requires s != [] && CharLen(s) > 0
    ensures Encode(Decode(s)) == s[..CharLen(s)]
  {
    var n, a := CharLen(s), s[0] as int;
    if n == 2 {
      Two(a - 0xC0, s[1] as int - 0x80);
    } else if n == 3 {
      Three(a - 0xE0, s[1] as int - 0x80, s[2] as int - 0x80);
    } else if n == 4 {
      Four(a - 0xF0, s[1] as int - 0x80, s[2] as int - 0x80, s[3] as int - 0x80);
    }
  }

  lemma EncodedInFront(c: Scalar, rest: bytes)
    ensures CharLen(Encode(c) + rest) == |Encode(c)|
  {
  }

  lemma {:induction false} ValidIsEncoded(s: bytes) returns (cs: seq<Scalar>)
    requires Valid(s)
    ensures s == EncodeAll(cs)
  {
    cs := [];
    if s != [] {
      var more := ValidIsEncoded(s[CharLen(s)..]);
      FrontIsEncoded(s);
      cs := [Decode(s)] + more;
      assert cs[1..] == more;
    }
  }

  lemma {:induction false} EncodedIsValid(cs: seq<Scalar>)
    ensures Valid(EncodeAll(cs))
  {
    if cs == [] {
    } else {
      var e, rest := Encode(cs[0]), EncodeAll(cs[1..]);
      EncodedInFront(cs[0], rest);
      EncodedIsValid(cs[1..]);
      assert (e + rest)[|e|..] == rest;
    }
  }

  /** Well-formed means just that: the encodings of some characters, one behind the other. */
  lemma ValidIff(s: bytes)
    ensures Valid(s) <==> exists cs :: s == EncodeAll(cs)
  {
    if Valid(s) {
      var cs := ValidIsEncoded(s);
    }
    if cs :| s == EncodeAll(cs) {
      EncodedIsValid(cs);
    }
  }
}
