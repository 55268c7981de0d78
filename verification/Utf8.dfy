/** UTF-8 (section 3 of RFC 3629): the encoding, the validity check of the build script, and the byte
    lengths the terminal form counts. */
module Utf8 {
  import opened Framing
  import opened JsText

  newtype Scalar = c: int | 0 <= c < 0xd800 || 0xe000 <= c < 0x11_0000

  function EncodeScalar(c: Scalar): (s: Bytes)
    ensures 1 <= |s| <= 4
  {
    var n := c as int;
    if n < 0x80 then [n as Octet]
    else if n < 0x800 then [(0xc0 + n / 0x40) as Octet, (0x80 + n % 0x40) as Octet]
    else if n < 0x1_0000 then
      [(0xe0 + n / 0x1000) as Octet, (0x80 + n / 0x40 % 0x40) as Octet, (0x80 + n % 0x40) as Octet]
    else
      [(0xf0 + n / 0x4_0000) as Octet, (0x80 + n / 0x1000 % 0x40) as Octet, (0x80 + n / 0x40 % 0x40) as Octet,
       (0x80 + n % 0x40) as Octet]
  }

  function Encode(scalars: seq<Scalar>): Bytes {
    if scalars == [] then [] else EncodeScalar(scalars[0]) + Encode(scalars[1..])
  }

  // -------------------------------------------------------------- validity

  predicate Continuation(b: Octet, low: Octet, high: Octet) {
    low <= b <= high
  }

  /** Well-formed UTF-8, as `std::str::from_utf8` accepts it. */
  predicate ValidUtf8(s: Bytes) {
    if s == [] then true
    else if s[0] < 0x80 then ValidUtf8(s[1..])
    else if 0xc2 <= s[0] <= 0xdf then
      |s| >= 2 && Continuation(s[1], 0x80, 0xbf) && ValidUtf8(s[2..])
    else if 0xe0 <= s[0] <= 0xef then
      |s| >= 3 && Continuation(s[1], if s[0] == 0xe0 then 0xa0 else 0x80, if s[0] == 0xed then 0x9f else 0xbf) &&
      Continuation(s[2], 0x80, 0xbf) && ValidUtf8(s[3..])
    else if 0xf0 <= s[0] <= 0xf4 then
      |s| >= 4 && Continuation(s[1], if s[0] == 0xf0 then 0x90 else 0x80, if s[0] == 0xf4 then 0x8f else 0xbf) &&
      Continuation(s[2], 0x80, 0xbf) && Continuation(s[3], 0x80, 0xbf) && ValidUtf8(s[4..])
    else false
  }

  /** Two octets of a scalar value, with the ranges of its lead. */
  lemma TwoOctets(n: int)
    requires 0x80 <= n < 0x800
    ensures 2 <= n / 0x40 <= 0x1f && 0 <= n % 0x40 <= 0x3f
  {
  }

  lemma ThreeOctets(n: int)
    requires 0x800 <= n < 0xd800 || 0xe000 <= n < 0x1_0000
    ensures 0 <= n / 0x1000 <= 0xf && 0 <= n / 0x40 % 0x40 <= 0x3f && 0 <= n % 0x40 <= 0x3f
    ensures n / 0x1000 == 0 ==> n / 0x40 % 0x40 >= 0x20
    ensures n / 0x1000 == 0xd ==> n / 0x40 % 0x40 <= 0x1f
  {
    assert n / 0x40 == n / 0x1000 * 0x40 + n / 0x40 % 0x40;
  }

  lemma FourOctets(n: int)
    requires 0x1_0000 <= n < 0x11_0000
    ensures 0 <= n / 0x4_0000 <= 4 && 0 <= n / 0x1000 % 0x40 <= 0x3f
    ensures 0 <= n / 0x40 % 0x40 <= 0x3f && 0 <= n % 0x40 <= 0x3f
    ensures n / 0x4_0000 == 0 ==> n / 0x1000 % 0x40 >= 0x10
    ensures n / 0x4_0000 == 4 ==> n / 0x1000 % 0x40 <= 0xf
  {
    assert n / 0x1000 == n / 0x4_0000 * 0x40 + n / 0x1000 % 0x40;
  }

  lemma ScalarThenValid(c: Scalar, rest: Bytes)
    requires ValidUtf8(rest)
    ensures ValidUtf8(EncodeScalar(c) + rest)
  {
    var n := c as int;
    var head := EncodeScalar(c);
    var whole := head + rest;
    assert whole[|head|..] == rest;
    if n < 0x80 {
    } else if n < 0x800 {
      TwoOctets(n);
      assert whole[0] == head[0] && whole[1] == head[1];
    } else if n < 0x1_0000 {
      ThreeOctets(n);
      assert whole[0] == head[0] && whole[1] == head[1] && whole[2] == head[2];
    } else {
      FourOctets(n);
      assert whole[0] == head[0] && whole[1] == head[1] && whole[2] == head[2] && whole[3] == head[3];
    }
  }

  lemma {:induction false} EncodedIsValid(scalars: seq<Scalar>)
    ensures ValidUtf8(Encode(scalars))
  {
    if scalars != [] {
      EncodedIsValid(scalars[1..]);
      ScalarThenValid(scalars[0], Encode(scalars[1..]));
    }
  }

  lemma DecodeTwo(a: int, b: int) returns (c: Scalar)
    requires 0xc2 <= a <= 0xdf && 0x80 <= b <= 0xbf
    ensures EncodeScalar(c) == [a as Octet, b as Octet]
  {
    var n := (a - 0xc0) * 0x40 + (b - 0x80);
    assert n / 0x40 == a - 0xc0 && n % 0x40 == b - 0x80;
    c := n as Scalar;
  }

  lemma DecodeThree(a: int, b: int, d: int) returns (c: Scalar)
    requires 0xe0 <= a <= 0xef && (if a == 0xe0 then 0xa0 else 0x80) <= b <= (if a == 0xed then 0x9f else 0xbf)
    requires 0x80 <= d <= 0xbf
    ensures EncodeScalar(c) == [a as Octet, b as Octet, d as Octet]
  {
    var m := (a - 0xe0) * 0x40 + (b - 0x80);
    var n := m * 0x40 + (d - 0x80);
    assert m / 0x40 == a - 0xe0 && m % 0x40 == b - 0x80;
    assert n / 0x40 == m && n % 0x40 == d - 0x80;
    assert n / 0x1000 == m / 0x40;
    c := n as Scalar;
  }

  lemma DecodeFour(a: int, b: int, d: int, e: int) returns (c: Scalar)
    requires 0xf0 <= a <= 0xf4 && (if a == 0xf0 then 0x90 else 0x80) <= b <= (if a == 0xf4 then 0x8f else 0xbf)
    requires 0x80 <= d <= 0xbf && 0x80 <= e <= 0xbf
    ensures EncodeScalar(c) == [a as Octet, b as Octet, d as Octet, e as Octet]
  {
    var k := (a - 0xf0) * 0x40 + (b - 0x80);
    var m := k * 0x40 + (d - 0x80);
    var n := m * 0x40 + (e - 0x80);
    assert k / 0x40 == a - 0xf0 && k % 0x40 == b - 0x80;
    assert m / 0x40 == k && m % 0x40 == d - 0x80;
    assert n / 0x40 == m && n % 0x40 == e - 0x80;
    assert n / 0x1000 == k && n / 0x4_0000 == k / 0x40;
    c := n as Scalar;
  }

  /** The scalar value a valid text starts with. */
  lemma FirstScalar(s: Bytes) returns (c: Scalar)
    requires s != [] && ValidUtf8(s)
    ensures |EncodeScalar(c)| <= |s| && s[..|EncodeScalar(c)|] == EncodeScalar(c)
    ensures ValidUtf8(s[|EncodeScalar(c)|..])
  {
    if s[0] < 0x80 {
      c := s[0] as int as Scalar;
    } else if s[0] <= 0xdf {
      c := DecodeTwo(s[0] as int, s[1] as int);
    } else if s[0] <= 0xef {
      c := DecodeThree(s[0] as int, s[1] as int, s[2] as int);
    } else {
      c := DecodeFour(s[0] as int, s[1] as int, s[2] as int, s[3] as int);
    }
  }

  lemma {:induction false} ValidIsEncoded(s: Bytes) returns (scalars: seq<Scalar>)
    requires ValidUtf8(s)
    ensures Encode(scalars) == s
    decreases |s|
  {
    if s == [] {
      scalars := [];
    } else {
      var c := FirstScalar(s);
      var k := |EncodeScalar(c)|;
      var rest := ValidIsEncoded(s[k..]);
      scalars := [c] + rest;
      assert s == s[..k] + s[k..];
    }
  }

  /** The check accepts exactly the encodings of sequences of scalar values. */
  lemma ValidExactly(s: Bytes)
    ensures ValidUtf8(s) <==> exists scalars :: Encode(scalars) == s
  {
    if ValidUtf8(s) {
      var scalars := ValidIsEncoded(s);
      assert Encode(scalars) == s;
    }
    if scalars :| Encode(scalars) == s {
      EncodedIsValid(scalars);
    }
  }

  // --------------------------------------------------------- byte lengths

  /** The scalar values of a JavaScript text; a lone surrogate reads as U+FFFD. */
  function ScalarsOf(t: Text): seq<Scalar> {
    if t == [] then []
    else if PairAt(t, 0) then
      [(0x1_0000 + (t[0] as int - 0xd800) * 0x400 + (t[1] as int - 0xdc00)) as Scalar] + ScalarsOf(t[2..])
    else [if 0xd800 <= t[0] < 0xe000 then 0xfffd else t[0] as int as Scalar] + ScalarsOf(t[1..])
  }

  /** What `TextEncoder().encode` gives. */
  function EncodeText(t: Text): Bytes {
    Encode(ScalarsOf(t))
  }

  /** The computed byte length is that of the encoding. */
  lemma {:induction false} LengthOfEncoding(t: Text)
    ensures Utf8Length(t) == |EncodeText(t)|
  {
    if t != [] {
      var scalars := ScalarsOf(t);
      if PairAt(t, 0) {
        LengthOfEncoding(t[2..]);
        assert scalars[1..] == ScalarsOf(t[2..]);
      } else {
        LengthOfEncoding(t[1..]);
        assert scalars[1..] == ScalarsOf(t[1..]);
      }
    }
  }
}
