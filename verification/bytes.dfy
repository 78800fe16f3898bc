/** Octets, and naturals written as octets low-order first. */
module Bytes {
  newtype Byte = x: int | 0 <= x < 256

  lemma ConcatAssociative<T>(a: seq<T>, b: seq<T>, c: seq<T>)
    ensures a + (b + c) == a + b + c
  {
  }

  /** 256 to the power k. */
  function Pow256(k: nat): (p: nat)
    ensures p > 0
  {
    if k == 0 then 1 else 256 * Pow256(k - 1)
  }

  /** The k low-order octets of n, least significant first. */
  function LittleEndian(n: nat, k: nat): (s: seq<Byte>)
    ensures |s| == k
  {
    if k == 0 then [] else [(n % 256) as Byte] + LittleEndian(n / 256, k - 1)
  }

  /** Octet i is the digit for 256 to the power i. */
  lemma {:induction false} LittleEndianDigit(n: nat, k: nat, i: nat)
    requires i < k
    ensures LittleEndian(n, k)[i] as nat == n / Pow256(i) % 256
  {
    if i > 0 {
      LittleEndianDigit(n / 256, k - 1, i - 1);
      DivideTwice(n, 256, Pow256(i - 1));
    }
  }

  lemma DivideTwice(n: nat, d: nat, p: nat)
    requires d > 0 && p > 0
    ensures n / d / p == n / (d * p)
  {
    var q, r, s := n / d / p, n / d % p, n % d;
    assert n == d * (q * p + r) + s;
    assert d * (q * p) == (d * p) * q;
    assert n == (d * p) * q + (d * r + s);
    Multiples(d, r, p);
    QuotientIs(n, d * p, q, d * r + s);
  }

  lemma QuotientIs(n: nat, d: nat, q: nat, r: nat)
    requires d > 0 && n == d * q + r && r < d
    ensures n / d == q && n % d == r
  {
    var p, s := n / d, n % d;
    assert n == d * p + s;
    if p < q {
      Multiples(d, p, q);
    } else if p > q {
      Multiples(d, q, p);
    }
  }

  lemma Multiples(d: nat, p: nat, q: nat)
    requires p < q
    ensures d * p + d <= d * q
  {
    var k := q - p - 1;
    assert d * q == d * p + d + d * k && d * k >= 0;
  }

  /** The natural that octets spell, least significant first. */
  function FromLittleEndian(s: seq<Byte>): (n: nat)
  {
    if s == [] then 0 else s[0] as nat + 256 * FromLittleEndian(s[1..])
  }

  lemma {:induction false} LittleEndianRoundTrip(n: nat, k: nat)
    requires n < Pow256(k)
    ensures FromLittleEndian(LittleEndian(n, k)) == n
  {
    if k > 0 {
      LittleEndianRoundTrip(n / 256, k - 1);
      assert LittleEndian(n, k)[1..] == LittleEndian(n / 256, k - 1);
    }
  }

  /** The octets of a number in two halves: the low part first. */
  lemma {:induction false} LittleEndianSplit(low: nat, high: nat, j: nat, k: nat)
    requires low < Pow256(j)
    ensures LittleEndian(high * Pow256(j) + low, j + k) == LittleEndian(low, j) + LittleEndian(high, k)
  {
    if j == 0 {
      assert LittleEndian(low, 0) == [];
    } else {
      var n := high * Pow256(j) + low;
      assert n == 256 * (high * Pow256(j - 1)) + low;
      assert n / 256 == high * Pow256(j - 1) + low / 256;
      LittleEndianSplit(low / 256, high, j - 1, k);
    }
  }

  /** Bitwise or of two naturals. */
  function BitOr(x: nat, y: nat): nat
    decreases x + y
  {
    if x == 0 then y
    else if y == 0 then x
    else 2 * BitOr(x / 2, y / 2) + (if x % 2 == 0 && y % 2 == 0 then 0 else 1)
  }

  function Pow2(k: nat): (p: nat)
    ensures p > 0
  {
    if k == 0 then 1 else 2 * Pow2(k - 1)
  }

  lemma OrIntoLowBit(x: nat, y: nat)
    ensures BitOr(2 * x, y) == 2 * BitOr(x, y / 2) + y % 2
  {
  }

  lemma OrZero(x: nat)
    ensures BitOr(x, 0) == x
  {
  }

  /** Or with bits below all of the other operand's is addition. */
  lemma {:induction false} OrIntoLowBits(x: nat, y: nat, k: nat)
    requires y < Pow2(k)
    ensures BitOr(x * Pow2(k), y) == x * Pow2(k) + y
  {
    hide BitOr;
    if k == 0 {
      OrZero(x);
    } else {
      assert x * Pow2(k) == 2 * (x * Pow2(k - 1));
      OrIntoLowBit(x * Pow2(k - 1), y);
      OrIntoLowBits(x, y / 2, k - 1);
    }
  }

  lemma {:induction false} FromLittleEndianRoundTrip(s: seq<Byte>)
    ensures FromLittleEndian(s) < Pow256(|s|)
    ensures LittleEndian(FromLittleEndian(s), |s|) == s
  {
    if s != [] {
      FromLittleEndianRoundTrip(s[1..]);
      assert FromLittleEndian(s) / 256 == FromLittleEndian(s[1..]);
    }
  }
}
