/** Octets and big-endian integers, as both wire formats use them. */
module Bytes {

  type byte = x: int | 0 <= x < 256

  /** 256 to the power of k: the number of values k octets can carry. */
  function Span(k: nat): (r: nat)
    ensures r > 0
  {
    if k == 0 then 1 else 256 * Span(k - 1)
  }

  /** The k low-order octets of v, most significant first. */
  function ToBigEndian(v: nat, k: nat): (s: seq<byte>)
    ensures |s| == k
  {
    if k == 0 then [] else ToBigEndian(v / 256, k - 1) + [v % 256]
  }

  function FromBigEndian(s: seq<byte>): nat {
    if s == [] then 0 else 256 * FromBigEndian(s[..|s| - 1]) + s[|s| - 1]
  }

  lemma {:induction false} DecodeEncode(v: nat, k: nat)
    requires v < Span(k)
    ensures FromBigEndian(ToBigEndian(v, k)) == v
  {
    if k > 0 {
      assert v / 256 < Span(k - 1);
      hide Span;
      var s := ToBigEndian(v, k);
      assert s[..k - 1] == ToBigEndian(v / 256, k - 1) && s[k - 1] == v % 256;
      DecodeEncode(v / 256, k - 1);
    }
  }

  lemma {:induction false} EncodeDecode(s: seq<byte>)
    ensures FromBigEndian(s) < Span(|s|)
    ensures ToBigEndian(FromBigEndian(s), |s|) == s
  {
    if s != [] {
      EncodeDecode(s[..|s| - 1]);
    }
  }

  /** The octets of a number are its digits to the base 256, the highest first. */
  lemma {:induction false} Digit(v: nat, k: nat, i: nat)
    requires i < k
    ensures ToBigEndian(v, k)[i] == v / Span(k - 1 - i) % 256
  {
    if i < k - 1 {
      Digit(v / 256, k - 1, i);
      DivideTwice(v, Span(k - 2 - i));
    }
  }

  lemma DivideTwice(v: nat, b: nat)
    requires b > 0
    ensures v / 256 / b == v / (256 * b)
  {
    var q, r := v / 256 / b, v / 256 % b;
    var product := q * b;
    assert v / 256 == product + r;
    assert q * (256 * b) == 256 * product;
    QuotientUnique(v, 256 * b, q, 256 * r + v % 256);
  }

  lemma QuotientUnique(v: nat, d: nat, q: nat, r: nat)
    requires v == q * d + r && r < d
    ensures v / d == q
  {
    var k := v / d - q;
    assert k * d == r - v % d;
    NotBetween(k, d);
  }

  lemma NotBetween(k: int, n: int)
    requires n > 0
    ensures k == 0 || k * n >= n || k * n <= -n
  {}

  lemma SliceOfSlice(s: seq<byte>, lo: nat, hi: nat, i: nat, j: nat)
    requires lo <= hi <= |s| && i <= j <= hi - lo
    ensures s[lo..hi][i..j] == s[lo + i..lo + j]
  {
    var part := s[lo..hi];
    assert forall k | i <= k < j :: part[i..j][k - i] == part[k] == s[lo + k];
  }

  /** The widths the two protocols use. */
  lemma Widths()
    ensures Span(2) == 0x1_0000
    ensures Span(4) == 0x1_0000_0000
    ensures Span(8) == 0x1_0000_0000_0000_0000
    ensures Span(16) == 0x1_0000_0000_0000_0000_0000_0000_0000_0000
  {
    assert Span(4) == 0x1_0000 * Span(2);
    assert Span(8) == 0x1_0000_0000 * Span(4);
    assert Span(12) == 0x1_0000_0000 * Span(8);
    assert Span(16) == 0x1_0000_0000 * Span(12);
  }
}
