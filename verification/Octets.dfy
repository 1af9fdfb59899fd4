/** Bytes, big-endian integers and UTF-8. */
module Octets {
  import opened Wrappers

  type Byte = b: int | 0 <= b < 256

  type Bytes = seq<Byte>

  function Pow256(k: nat): nat {
    if k == 0 then 1 else 256 * Pow256(k - 1)
  }

  /** `x` in `k` bytes, the most significant first. */
  function BigEndian(k: nat, x: nat): (b: Bytes)
    ensures |b| == k
  {
    if k == 0 then [] else BigEndian(k - 1, x / 256) + [x % 256]
  }

  function FromBigEndian(b: Bytes): nat {
    if b == [] then 0 else FromBigEndian(b[..|b| - 1]) * 256 + b[|b| - 1]
  }

  lemma {:induction false} BigEndianInverse(k: nat, x: nat)
    requires x < Pow256(k)
    ensures FromBigEndian(BigEndian(k, x)) == x
  {
    if k > 0 {
      BigEndianInverse(k - 1, x / 256);
      assert BigEndian(k, x)[..k - 1] == BigEndian(k - 1, x / 256);
    }
  }

  /** The most significant byte comes first. */
  lemma EndianExample()
    ensures BigEndian(8, 0x0102_0304_0506_0708) == [1, 2, 3, 4, 5, 6, 7, 8]
  {
    assert BigEndian(2, 0x0102) == [1, 2];
    assert BigEndian(4, 0x0102_0304) == [1, 2, 3, 4];
    assert BigEndian(6, 0x0102_0304_0506) == [1, 2, 3, 4, 5, 6];
  }

  /* ------------------------------------------------------------ UTF-8 */

  /** A code point that UTF-8 can encode: surrogates cannot be. */
  predicate Encodable(c: int) {
    0 <= c < 0x11_0000 && !(0xD800 <= c < 0xE000)
  }

  function Utf8One(c: int): (b: Bytes)
    requires Encodable(c)
    ensures 1 <= |b| <= 4
  {
    if c < 0x80 then [c]
    else if c < 0x800 then [0xC0 + c / 64, 0x80 + c % 64]
    else if c < 0x1_0000 then [0xE0 + c / 4096, 0x80 + c / 64 % 64, 0x80 + c % 64]
    else [0xF0 + c / 262144, 0x80 + c / 4096 % 64, 0x80 + c / 64 % 64, 0x80 + c % 64]
  }

  /** How long the code point is that starts with this byte. */
  function LengthOf(first: Byte): nat {
    if first < 0x80 then 1 else if first < 0xE0 then 2 else if first < 0xF0 then 3 else 4
  }

  function CodeOf(b: Bytes): int
    requires b != [] && |b| == LengthOf(b[0])
  {
    var first: int := b[0];
    if |b| == 1 then first
    else if |b| == 2 then (first - 0xC0) * 64 + Tail(b[1])
    else if |b| == 3 then (first - 0xE0) * 4096 + Tail(b[1]) * 64 + Tail(b[2])
    else (first - 0xF0) * 262144 + Tail(b[1]) * 4096 + Tail(b[2]) * 64 + Tail(b[3])
  }

  function Tail(b: int): int {
    b - 0x80
  }

  lemma DivideTwice(c: nat)
    ensures c == c / 64 * 64 + c % 64
    ensures c / 64 == c / 4096 * 64 + c / 64 % 64
    ensures c / 4096 == c / 262144 * 64 + c / 4096 % 64
  {
    assert c / 64 / 64 == c / 4096;
    assert c / 4096 / 64 == c / 262144;
  }

  lemma Utf8OneInverse(c: int)
    requires Encodable(c)
    ensures |Utf8One(c)| == LengthOf(Utf8One(c)[0]) && CodeOf(Utf8One(c)) == c
  {
    DivideTwice(c);
  }

  /** The first byte tells the length, the others lie between 0x80 and 0xBF, and their low bits make up the code point. */
  lemma Utf8Means(c: int)
    requires 0 <= c < 0xD800 || 0xDFFF < c <= 0x10FFFF
    ensures Encodable(c)
    ensures var b := Utf8One(c);
            && |b| == (if c <= 0x7F then 1 else if c <= 0x7FF then 2 else if c <= 0xFFFF then 3 else 4)
            && (forall i :: 1 <= i < |b| ==> 0x80 <= b[i] <= 0xBF)
            && (|b| == 1 ==> b[0] == c)
            && (|b| == 2 ==> 0xC2 <= b[0] <= 0xDF && c == (b[0] as int - 0xC0) * 0x40 + (b[1] as int - 0x80))
            && (|b| == 3 ==> (0xE0 <= b[0] <= 0xEF
                              && c == (b[0] as int - 0xE0) * 0x1000 + (b[1] as int - 0x80) * 0x40 + (b[2] as int - 0x80)))
            && (|b| == 4 ==> (0xF0 <= b[0] <= 0xF4
                              && c == (b[0] as int - 0xF0) * 0x4_0000 + (b[1] as int - 0x80) * 0x1000
                                      + (b[2] as int - 0x80) * 0x40 + (b[3] as int - 0x80)))
  {
    DivideTwice(c);
  }

  lemma SurrogatesAreNot(c: int)
    requires c < 0 || 0xD800 <= c <= 0xDFFF || 0x10FFFF < c
    ensures !Encodable(c)
  {
  }

  predicate AllEncodable(s: seq<int>) {
    forall i :: 0 <= i < |s| ==> Encodable(s[i])
  }

  function Utf8(s: seq<int>): Bytes
    requires AllEncodable(s)
  {
    if s == [] then [] else Utf8One(s[0]) + Utf8(s[1..])
  }

  function FromUtf8(b: Bytes): Option<seq<int>>
    decreases |b|
  {
    if b == [] then Some([])
    else if |b| < LengthOf(b[0]) then None
    else
      var rest := FromUtf8(b[LengthOf(b[0])..]);
      if rest.None? then None else Some([CodeOf(b[..LengthOf(b[0])])] + rest.value)
  }

  lemma {:induction false} Utf8Inverse(s: seq<int>)
    requires AllEncodable(s)
    ensures FromUtf8(Utf8(s)) == Some(s)
  {
    if s != [] {
      Utf8OneInverse(s[0]);
      Utf8Inverse(s[1..]);
      var b, n := Utf8(s), |Utf8One(s[0])|;
      assert b[0] == Utf8One(s[0])[0];
      assert b[..n] == Utf8One(s[0]) && b[n..] == Utf8(s[1..]);
      assert [s[0]] + s[1..] == s;
    }
  }

  /* ------------------------------------------------------------ hexadecimal digests */

  predicate HexDigit(c: char) {
    '0' <= c <= '9' || 'a' <= c <= 'f'
  }

  function HexValue(c: char): nat
    requires HexDigit(c)
  {
    if c <= '9' then c as int - '0' as int else c as int - 'a' as int + 10
  }

  predicate HexText(s: string) {
    forall i :: 0 <= i < |s| ==> HexDigit(s[i])
  }

  function FromHex(s: string): (b: Bytes)
    requires HexText(s) && |s| % 2 == 0
    ensures |b| == |s| / 2
  {
    if s == [] then [] else [HexValue(s[0]) * 16 + HexValue(s[1])] + FromHex(s[2..])
  }

  function HexChar(d: nat): char
    requires d < 16
  {
    if d < 10 then (48 + d) as char else (87 + d) as char
  }

  function ToHex(b: Bytes): string {
    if b == [] then "" else [HexChar(b[0] / 16), HexChar(b[0] % 16)] + ToHex(b[1..])
  }

  lemma {:induction false} HexInverse(s: string)
    requires HexText(s) && |s| % 2 == 0
    ensures ToHex(FromHex(s)) == s
  {
    if s != [] {
      HexInverse(s[2..]);
      assert FromHex(s)[1..] == FromHex(s[2..]);
      assert s == [s[0], s[1]] + s[2..];
    }
  }
}
