/** Well-formed UTF-8, section 4 of RFC 3629: what `String::from_utf8` accepts. */
module Utf8 {
  import opened Bytes

  predicate Continues(s: seq<byte>, i: nat) {
    i < |s| && 0x80 <= s[i] <= 0xBF
  }

  /** The length of the code point that starts s, or 0 when none does. */
  function FirstLength(s: seq<byte>): (n: nat)
    ensures n <= |s|
  {
    if s == [] then 0
    else if s[0] <= 0x7F then 1
    else if 0xC2 <= s[0] <= 0xDF && Continues(s, 1) then 2
    else if 0xE0 <= s[0] <= 0xEF && Continues(s, 1) && Continues(s, 2)
            && (s[0] == 0xE0 ==> s[1] >= 0xA0) && (s[0] == 0xED ==> s[1] <= 0x9F) then 3
    else if 0xF0 <= s[0] <= 0xF4 && Continues(s, 1) && Continues(s, 2) && Continues(s, 3)
            && (s[0] == 0xF0 ==> s[1] >= 0x90) && (s[0] == 0xF4 ==> s[1] <= 0x8F) then 4
    else 0
  }

  predicate Valid(s: seq<byte>) {
    s == [] || (FirstLength(s) > 0 && Valid(s[FirstLength(s)..]))
  }

  /** The numbers that UTF-8 encodes: all code points but surrogates. */
  predicate Scalar(c: int) {
    0 <= c < 0x11_0000 && !(0xD800 <= c < 0xE000)
  }

  type scalar = c: int | Scalar(c) witness 0

  function Encode(c: scalar): (s: seq<byte>)
    ensures s != []
  {
    assert Scalar(c);
    if c < 0x80 then [c as byte]
    else if c < 0x800 then [0xC0 + c / 0x40, 0x80 + c % 0x40]
    else if c < 0x1_0000 then [0xE0 + c / 0x1000, 0x80 + c / 0x40 % 0x40, 0x80 + c % 0x40]
    else [0xF0 + c / 0x4_0000, 0x80 + c / 0x1000 % 0x40, 0x80 + c / 0x40 % 0x40, 0x80 + c % 0x40]
  }

  function EncodeText(text: seq<scalar>): seq<byte> {
    if text == [] then [] else Encode(text[0]) + EncodeText(text[1..])
  }

  /** The encoding of a code point is taken for just that, whatever follows. */
  lemma EncodedLength(c: scalar, rest: seq<byte>)
    ensures FirstLength(Encode(c) + rest) == |Encode(c)|
  {
    var s := Encode(c) + rest;
    SixBits(c);
    if c >= 0x1_0000 {
      assert s[0] == 0xF0 + c / 0x4_0000 && s[1] == 0x80 + c / 0x1000 % 0x40;
      assert s[2] == 0x80 + c / 0x40 % 0x40 && s[3] == 0x80 + c % 0x40;
    } else if c >= 0x800 {
      assert s[0] == 0xE0 + c / 0x1000 && s[1] == 0x80 + c / 0x40 % 0x40 && s[2] == 0x80 + c % 0x40;
    } else if c >= 0x80 {
      assert s[0] == 0xC0 + c / 0x40 && s[1] == 0x80 + c % 0x40;
    }
  }

  /** A code point in groups of six bits. */
  lemma SixBits(c: scalar)
    ensures 0 <= c < 0x11_0000 && !(0xD800 <= c < 0xE000)
    ensures c == 0x40 * (c / 0x40) + c % 0x40
    ensures c / 0x40 == 0x40 * (c / 0x1000) + c / 0x40 % 0x40
    ensures c / 0x1000 == 0x40 * (c / 0x4_0000) + c / 0x1000 % 0x40
  {
    assert Scalar(c);
    assert c / 0x40 / 0x40 == c / 0x1000;
    assert c / 0x1000 / 0x40 == c / 0x4_0000;
  }

  /** The last six bits and the others. */
  lemma Six(q: int, r: int)
    requires q >= 0 && 0 <= r < 0x40
    ensures (q * 0x40 + r) / 0x40 == q && (q * 0x40 + r) % 0x40 == r
  {}

  lemma TwoOctets(a: byte, x: byte) returns (c: scalar)
    requires 0xC2 <= a <= 0xDF && 0x80 <= x <= 0xBF
    ensures Encode(c) == [a, x]
  {
    Six(a - 0xC0, x - 0x80);
    c := (a as int - 0xC0) * 0x40 + (x as int - 0x80);
  }

  lemma ThreeOctets(a: byte, x: byte, y: byte) returns (c: scalar)
    requires 0xE0 <= a <= 0xEF && 0x80 <= x <= 0xBF && 0x80 <= y <= 0xBF
    requires (a == 0xE0 ==> x >= 0xA0) && (a == 0xED ==> x <= 0x9F)
    ensures Encode(c) == [a, x, y]
  {
    var q := (a as int - 0xE0) * 0x40 + (x as int - 0x80);
    Six(a - 0xE0, x - 0x80);
    Six(q, y - 0x80);
    c := q * 0x40 + (y as int - 0x80);
    assert c / 0x1000 == c / 0x40 / 0x40;
    assert 0x800 <= c < 0x1_0000;
  }

  lemma FourOctets(a: byte, x: byte, y: byte, z: byte) returns (c: scalar)
    requires 0xF0 <= a <= 0xF4 && 0x80 <= x <= 0xBF && 0x80 <= y <= 0xBF && 0x80 <= z <= 0xBF
    requires (a == 0xF0 ==> x >= 0x90) && (a == 0xF4 ==> x <= 0x8F)
    ensures Encode(c) == [a, x, y, z]
  {
    var p := (a as int - 0xF0) * 0x40 + (x as int - 0x80);
    var q := p * 0x40 + (y as int - 0x80);
    Six(a - 0xF0, x - 0x80);
    Six(p, y - 0x80);
    Six(q, z - 0x80);
    c := q * 0x40 + (z as int - 0x80);
    assert c / 0x1000 == c / 0x40 / 0x40 && c / 0x4_0000 == c / 0x1000 / 0x40;
    assert c >= 0x1_0000;
  }

  /** Whatever is taken for a code point is the encoding of one. */
  lemma FirstIsEncoded(s: seq<byte>) returns (c: scalar)
    requires FirstLength(s) > 0
    ensures s[..FirstLength(s)] == Encode(c)
  {
    var n := FirstLength(s);
    if n == 1 {
      c := s[0];
    } else if n == 2 {
      c := TwoOctets(s[0], s[1]);
      hide Encode;
    } else if n == 3 {
      c := ThreeOctets(s[0], s[1], s[2]);
      hide Encode;
    } else {
      c := FourOctets(s[0], s[1], s[2], s[3]);
      hide Encode;
    }
  }

  lemma {:induction false} TextIsValid(text: seq<scalar>)
    ensures Valid(EncodeText(text))
  {
    if text != [] {
      var rest := EncodeText(text[1..]);
      hide Encode, FirstLength;
      EncodedLength(text[0], rest);
      assert (Encode(text[0]) + rest)[|Encode(text[0])|..] == rest;
      TextIsValid(text[1..]);
    }
  }

  lemma {:induction false} ValidIsText(s: seq<byte>) returns (text: seq<scalar>)
    requires Valid(s)
    ensures EncodeText(text) == s
    decreases |s|
  {
    hide Encode, FirstLength;
    if s == [] {
      text := [];
    } else {
      var n := FirstLength(s);
      var c := FirstIsEncoded(s);
      var rest := ValidIsText(s[n..]);
      text := [c] + rest;
      assert text[1..] == rest;
      assert s == s[..n] + s[n..];
    }
  }

  /** Octets are well-formed exactly when they encode some text. */
  lemma ValidIff(s: seq<byte>)
    ensures Valid(s) <==> exists text :: EncodeText(text) == s
  {
    if Valid(s) {
      var text := ValidIsText(s);
    }
    forall text | EncodeText(text) == s
      ensures Valid(s)
    {
      TextIsValid(text);
    }
  }
}
