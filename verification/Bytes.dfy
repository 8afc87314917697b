/** Big-endian byte strings of fixed width, and their lexicographic order. */
module Bytes {
  type Byte = b: int | 0 <= b < 256

  function Power(width: nat): nat {
    if width == 0 then 1 else 256 * Power(width - 1)
  }

  /** `to_be_bytes`. */
  function ToBytes(n: nat, width: nat): (s: seq<Byte>)
    requires n < Power(width)
    ensures |s| == width && FromBytes(s) == n
  {
    if width == 0 then []
    else
      var digit: Byte := n % 256;
      ToBytes(n / 256, width - 1) + [digit]
  }

  /** `from_be_bytes`. */
  function FromBytes(s: seq<Byte>): nat {
    if s == [] then 0 else 256 * FromBytes(s[..|s| - 1]) + s[|s| - 1]
  }

  /** Every byte string of a width is the encoding of the number it reads as. */
  lemma {:induction false} BytesRoundTrip(s: seq<Byte>)
    ensures FromBytes(s) < Power(|s|) && ToBytes(FromBytes(s), |s|) == s
  {
    if s != [] {
      BytesRoundTrip(s[..|s| - 1]);
      var high, low := FromBytes(s[..|s| - 1]), s[|s| - 1];
      assert (256 * high + low) / 256 == high && (256 * high + low) % 256 == low;
      assert s == s[..|s| - 1] + [low];
    }
  }

  /** The most significant byte comes first: byte `i` of `width` counts `256` to the
      power of the bytes behind it. */
  lemma {:induction false} MostSignificantFirst(n: nat, width: nat, i: nat)
    requires n < Power(width) && i < width
    ensures Power(width - 1 - i) > 0 && ToBytes(n, width)[i] == n / Power(width - 1 - i) % 256
    decreases width
  {
    PowerIsPositive(width - 1 - i);
    if i < width - 1 {
      MostSignificantFirst(n / 256, width - 1, i);
      PowerIsPositive(width - 2 - i);
      DividedTwice(n, Power(width - 2 - i));
    }
  }

  lemma {:induction false} PowerIsPositive(width: nat)
    ensures Power(width) > 0
  {
    if width > 0 { PowerIsPositive(width - 1); }
  }

  lemma DividedTwice(n: nat, m: nat)
    requires m > 0
    ensures n / 256 / m == n / (256 * m)
  {
    var q, r := n / 256, n % 256;
    var p, s := q / m, q % m;
    assert n == 256 * (m * p + s) + r == (256 * m) * p + (256 * s + r);
    assert 256 * s + r < 256 * m;
    Quotient(n, 256 * m, p, 256 * s + r);
  }

  lemma Multiples(m: nat, d: int)
    ensures d >= 1 ==> m * d >= m
    ensures d <= -1 ==> m * d + m <= 0
  {
    assert m * d - m == m * (d - 1) && m * d + m == m * (d + 1);
  }

  lemma Quotient(n: nat, m: nat, q: nat, r: nat)
    requires m > 0 && n == m * q + r && r < m
    ensures n / m == q
  {
    var d := n / m - q;
    assert n == m * (n / m) + n % m;
    assert m * d == r - n % m;
    Multiples(m, d);
  }

  /** A header of four bytes, as the decoders read it. */
  lemma FourBytes(s: seq<Byte>)
    requires |s| == 4
    ensures FromBytes(s) == 0x100_0000 * (s[0] as nat) + 0x1_0000 * (s[1] as nat) + 0x100 * (s[2] as nat) + s[3] as nat
  {
    assert s[..3][..2] == s[..2] && s[..2][..1] == s[..1] && s[..1][..0] == [];
    assert FromBytes(s[..1]) == s[0];
    assert FromBytes(s[..2]) == 0x100 * (s[0] as nat) + s[1] as nat;
    assert FromBytes(s[..3]) == 0x1_0000 * (s[0] as nat) + 0x100 * (s[1] as nat) + s[2] as nat;
  }

  lemma Widths()
    ensures Power(1) == 0x100 && Power(4) == 0x1_0000_0000 && Power(8) == 0x1_0000_0000_0000_0000
  {
    assert Power(2) == 0x1_0000;
    assert Power(3) == 0x100_0000;
    assert Power(5) == 0x100_0000_0000;
    assert Power(6) == 0x1_0000_0000_0000;
  }

  /** The order of byte strings, strings, digests and UUIDs. */
  predicate AtMost(a: seq<Byte>, b: seq<Byte>) {
    a == [] || (b != [] && (a[0] < b[0] || (a[0] == b[0] && AtMost(a[1..], b[1..]))))
  }

  lemma {:induction false} AtMostIsTotal(a: seq<Byte>, b: seq<Byte>)
    ensures AtMost(a, b) || AtMost(b, a)
    decreases |a|
  {
    if a != [] && b != [] && a[0] == b[0] { AtMostIsTotal(a[1..], b[1..]); }
  }

  lemma {:induction false} AtMostIsAntisymmetric(a: seq<Byte>, b: seq<Byte>)
    requires AtMost(a, b) && AtMost(b, a)
    ensures a == b
    decreases |a|
  {
    if a != [] {
      AtMostIsAntisymmetric(a[1..], b[1..]);
      assert a == [a[0]] + a[1..] && b == [b[0]] + b[1..];
    }
  }

  lemma {:induction false} AtMostIsTransitive(a: seq<Byte>, b: seq<Byte>, c: seq<Byte>)
    requires AtMost(a, b) && AtMost(b, c)
    ensures AtMost(a, c)
    decreases |a|
  {
    if a != [] && a[0] == b[0] && b[0] == c[0] { AtMostIsTransitive(a[1..], b[1..], c[1..]); }
  }
}
