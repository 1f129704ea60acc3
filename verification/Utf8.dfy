/**
 UTF-8 (RFC 3629): which octets are well-formed, as `String::from_utf8` decides it, and that these are the
 encodings of Unicode texts and nothing else.
 */
module Utf8 {
  import opened Wrappers

  predicate Continues(s: seq<byte>, i: nat, low: byte, high: byte) {
    i < |s| && low <= s[i] <= high
  }

  /** Well-formed UTF-8, as section 4 of RFC 3629 gives it. */
  predicate ValidUtf8(s: seq<byte>)
    decreases |s|
  {
    if s == [] then true
    else if s[0] < 0x80 then ValidUtf8(s[1..])
    else if 0xC2 <= s[0] <= 0xDF then Continues(s, 1, 0x80, 0xBF) && ValidUtf8(s[2..])
    else if 0xE0 <= s[0] <= 0xEF then
      && Continues(s, 1, if s[0] == 0xE0 then 0xA0 else 0x80, if s[0] == 0xED then 0x9F else 0xBF)
      && Continues(s, 2, 0x80, 0xBF) && ValidUtf8(s[3..])
    else if 0xF0 <= s[0] <= 0xF4 then
      && Continues(s, 1, if s[0] == 0xF0 then 0x90 else 0x80, if s[0] == 0xF4 then 0x8F else 0xBF)
      && Continues(s, 2, 0x80, 0xBF) && Continues(s, 3, 0x80, 0xBF) && ValidUtf8(s[4..])
    else false
  }

  type Text = s: seq<byte> | ValidUtf8(s) witness []

  /** A Unicode scalar value: a code point that is no surrogate. */
  type Scalar = c: int | 0 <= c <= 0xD7FF || 0xE000 <= c <= 0x10FFFF

  /** The octets of a scalar value, as the table in section 3 of RFC 3629 gives them. */
  function Octets(c: Scalar): (s: seq<byte>) {
    if c < 0x80 then [c]
    else if c < 0x800 then [0xC0 + c / 64, 0x80 + c % 64]
    else if c < 0x1_0000 then [0xE0 + c / 64 / 64, 0x80 + c / 64 % 64, 0x80 + c % 64]
    else [0xF0 + c / 64 / 64 / 64, 0x80 + c / 64 / 64 % 64, 0x80 + c / 64 % 64, 0x80 + c % 64]
  }

  function Encoded(text: seq<Scalar>): (s: seq<byte>) {
    if text == [] then [] else Octets(text[0]) + Encoded(text[1..])
  }

  lemma OctetsThen(c: Scalar, rest: seq<byte>)
    requires ValidUtf8(rest)
    ensures ValidUtf8(Octets(c) + rest)
  {
    var s := Octets(c) + rest;
    assert s[|Octets(c)|..] == rest;
    assert forall i | 0 <= i < |Octets(c)| :: s[i] == Octets(c)[i];
  }

  lemma {:induction false} EncodedIsValid(text: seq<Scalar>)
    ensures ValidUtf8(Encoded(text))
  {
    if text != [] {
      EncodedIsValid(text[1..]);
      OctetsThen(text[0], Encoded(text[1..]));
    }
  }

  lemma TwoOctets(a: int, b: int) returns (c: Scalar)
    requires 0xC2 <= a <= 0xDF && 0x80 <= b <= 0xBF
    ensures Octets(c) == [a, b]
  {
    c := (a - 0xC0) * 64 + (b - 0x80);
  }

  lemma ThreeOctets(a: int, b: int, x: int) returns (c: Scalar)
    requires 0xE0 <= a <= 0xEF && 0x80 <= x <= 0xBF
    requires (if a == 0xE0 then 0xA0 else 0x80) <= b <= if a == 0xED then 0x9F else 0xBF
    ensures Octets(c) == [a, b, x]
  {
    var high := (a - 0xE0) * 64 + (b - 0x80);
    c := high * 64 + (x - 0x80);
    assert c / 64 == high && c % 64 == x - 0x80;
  }

  lemma FourOctets(a: int, b: int, x: int, y: int) returns (c: Scalar)
    requires 0xF0 <= a <= 0xF4 && 0x80 <= x <= 0xBF && 0x80 <= y <= 0xBF
    requires (if a == 0xF0 then 0x90 else 0x80) <= b <= if a == 0xF4 then 0x8F else 0xBF
    ensures Octets(c) == [a, b, x, y]
  {
    var high := (a - 0xF0) * 64 + (b - 0x80);
    var middle := high * 64 + (x - 0x80);
    c := middle * 64 + (y - 0x80);
    assert c / 64 == middle && c % 64 == y - 0x80;
    assert middle / 64 == high && middle % 64 == x - 0x80;
  }

  lemma Cut(s: seq<byte>, n: nat)
    requires n <= |s|
    ensures s == s[..n] + s[n..]
  {
  }

  lemma FirstScalar(s: seq<byte>) returns (c: Scalar, rest: seq<byte>)
    requires s != [] && ValidUtf8(s)
    ensures s == Octets(c) + rest && ValidUtf8(rest)
  {
    if s[0] < 0x80 {
      c, rest := s[0], s[1..];
      assert s[..1] == [s[0]];
      Cut(s, 1);
    } else if s[0] <= 0xDF {
      c := TwoOctets(s[0], s[1]);
      rest := s[2..];
      assert s[..2] == [s[0], s[1]];
      Cut(s, 2);
    } else if s[0] <= 0xEF {
      c := ThreeOctets(s[0], s[1], s[2]);
      rest := s[3..];
      assert s[..3] == [s[0], s[1], s[2]];
      Cut(s, 3);
    } else {
      c := FourOctets(s[0], s[1], s[2], s[3]);
      rest := s[4..];
      assert s[..4] == [s[0], s[1], s[2], s[3]];
      Cut(s, 4);
    }
  }

  /** Octets are well-formed exactly when they encode some text. */
  lemma {:induction false} ValidUtf8Iff(s: seq<byte>)
    ensures ValidUtf8(s) <==> exists text: seq<Scalar> :: s == Encoded(text)
    decreases |s|
  {
    if exists text: seq<Scalar> :: s == Encoded(text) {
      var text: seq<Scalar> :| s == Encoded(text);
      EncodedIsValid(text);
    }
    if ValidUtf8(s) {
      var text := Decoded(s);
    }
  }

  lemma {:induction false} Decoded(s: seq<byte>) returns (text: seq<Scalar>)
    requires ValidUtf8(s)
    ensures s == Encoded(text)
    decreases |s|
  {
    if s == [] {
      text := [];
    } else {
      var c, rest := FirstScalar(s);
      var later := Decoded(rest);
      text := [c] + later;
      assert text[1..] == later;
    }
  }
}
