/** Bytes and the big-endian numbers that Go's encoding/binary and the frame writers emit. */
module Bytes {

  type Byte = b: int | 0 <= b < 256

  type Data = seq<Byte>

  function Pow256(n: nat): (p: nat)
    ensures p > 0
  {
    if n == 0 then 1 else 256 * Pow256(n - 1)
  }

  /** The n low-order bytes of x, most significant first. */
  function BigEndian(x: nat, n: nat): (d: Data)
    ensures |d| == n
  {
    if n == 0 then [] else BigEndian(x / 256, n - 1) + [x % 256]
  }

  function FromBigEndian(d: Data): nat {
    if d == [] then 0 else 256 * FromBigEndian(d[..|d| - 1]) + d[|d| - 1]
  }

  /** Decoding gives the number back, truncated to n bytes. */
  lemma {:induction false} BigEndianRoundTrip(x: nat, n: nat)
    ensures FromBigEndian(BigEndian(x, n)) == x % Pow256(n)
  {
    if n > 0 {
      var d := BigEndian(x, n);
      assert d[..n - 1] == BigEndian(x / 256, n - 1);
      BigEndianRoundTrip(x / 256, n - 1);
      SplitRemainder(x, Pow256(n - 1));
    }
  }

  lemma SplitRemainder(x: nat, m: nat)
    requires m > 0
    ensures x % (256 * m) == 256 * (x / 256 % m) + x % 256
  {
    var q, low := x / 256, x % 256;
    var h, r := q / m, q % m;
    assert x == 256 * q + low && q == h * m + r;
    assert x == h * (256 * m) + (256 * r + low);
    assert 0 <= 256 * r + low < 256 * m;
    UniqueRemainder(x, 256 * m, h, 256 * r + low);
  }

  lemma UniqueRemainder(x: int, m: nat, q: int, r: int)
    requires m > 0 && x == q * m + r && 0 <= r < m
    ensures x % m == r && x / m == q
  {
    var d := x / m - q;
    assert d * m == x / m * m - q * m == r - x % m;
    assert d >= 1 ==> d * m >= m;
    assert d <= -1 ==> d * m <= -1 * m;
  }

  lemma Regroup(s: int, t: int, a: int, b: int)
    ensures (s * b + t) * a == s * (a * b) + t * a
  {
    assert (s * b) * a == s * (a * b);
  }

  lemma DivideTwice(x: nat, a: nat, b: nat)
    requires a > 0 && b > 0
    ensures a * b > 0 && x / a / b == x / (a * b)
  {
    var q, r := x / a, x % a;
    var s, t := q / b, q % b;
    Regroup(s, t, a, b);
    assert x == s * (a * b) + (t * a + r);
    assert t * a <= (b - 1) * a;
    assert (b - 1) * a == a * b - a;
    assert t * a >= 0;
    UniqueRemainder(x, a * b, s, t * a + r);
  }

  /** Numbers that fit survive the round trip. */
  lemma FittingRoundTrip(x: nat, n: nat)
    requires x < Pow256(n)
    ensures FromBigEndian(BigEndian(x, n)) == x
  {
    BigEndianRoundTrip(x, n);
    UniqueRemainder(x, Pow256(n), 0, x);
  }

  lemma {:induction false} DecodedIsBounded(d: Data)
    ensures FromBigEndian(d) < Pow256(|d|)
  {
    if d != [] { DecodedIsBounded(d[..|d| - 1]); }
  }

  /** Encoding what was decoded gives the bytes back. */
  lemma {:induction false} BigEndianIsOnto(d: Data)
    ensures BigEndian(FromBigEndian(d), |d|) == d
  {
    if d != [] {
      var init, last := d[..|d| - 1], d[|d| - 1];
      BigEndianIsOnto(init);
      assert FromBigEndian(d) == 256 * FromBigEndian(init) + last;
      UniqueRemainder(FromBigEndian(d), 256, FromBigEndian(init), last);
      assert d == init + [last];
    }
  }

  lemma Powers()
    ensures Pow256(1) == 256 && Pow256(2) == 0x1_0000 && Pow256(3) == 0x100_0000 && Pow256(4) == 0x1_0000_0000
    ensures Pow256(8) == 0x1_0000_0000_0000_0000
  {
    assert Pow256(1) == 256 * Pow256(0);
    assert Pow256(2) == 256 * Pow256(1);
    assert Pow256(3) == 256 * Pow256(2);
    assert Pow256(4) == 256 * Pow256(3);
    assert Pow256(5) == 256 * Pow256(4);
    assert Pow256(6) == 256 * Pow256(5);
    assert Pow256(7) == 256 * Pow256(6);
    assert Pow256(8) == 256 * Pow256(7);
  }

  /** byte(x >> (8 * i)) */
  function ShiftedByte(x: nat, i: nat): Byte { x / Pow256(i) % 256 }

  /** Shifting out whole bytes gives the digits of the big-endian form. */
  lemma {:induction false} BigEndianDigit(x: nat, n: nat, i: nat)
    requires i < n
    ensures BigEndian(x, n)[n - 1 - i] == ShiftedByte(x, i)
    decreases n
  {
    if i > 0 {
      BigEndianDigit(x / 256, n - 1, i - 1);
      DivideTwice(x, 256, Pow256(i - 1));
    }
  }

  /** The byte orders written out. */
  lemma TwoBytes(x: nat)
    ensures BigEndian(x, 2) == [x / 0x100 % 256, x % 256]
  {
    Powers();
    BigEndianDigit(x, 2, 1);
    BigEndianDigit(x, 2, 0);
  }

  lemma FourBytes(x: nat)
    ensures BigEndian(x, 4) == [x / 0x100_0000 % 256, x / 0x1_0000 % 256, x / 0x100 % 256, x % 256]
  {
    Powers();
    BigEndianDigit(x, 4, 3);
    BigEndianDigit(x, 4, 2);
    BigEndianDigit(x, 4, 1);
    BigEndianDigit(x, 4, 0);
  }

  lemma FromFourBytes(a: Byte, b: Byte, c: Byte, d: Byte)
    ensures FromBigEndian([a, b, c, d]) == a * 0x100_0000 + b * 0x1_0000 + c * 0x100 + d
  {
    assert [a][..0] == [] && FromBigEndian([a]) == a;
    assert [a, b][..1] == [a] && FromBigEndian([a, b]) == a * 0x100 + b;
    assert [a, b, c][..2] == [a, b] && FromBigEndian([a, b, c]) == a * 0x1_0000 + b * 0x100 + c;
    assert [a, b, c, d][..3] == [a, b, c];
  }
}
