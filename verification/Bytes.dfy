/** Bytes, and the integers they encode. */
module Bytes {
  newtype byte = x: int | 0 <= x < 256

  function Pow(b: nat, e: nat): (r: nat)
    ensures b > 0 ==> r > 0
  {
    if e == 0 then 1 else b * Pow(b, e - 1)
  }

  lemma {:induction false} PowSum(b: nat, m: nat, n: nat)
    ensures Pow(b, m + n) == Pow(b, m) * Pow(b, n)
    ensures Pow(b, 0) == 1 && Pow(b, 1) == b
  {
    assert Pow(b, 1) == b * Pow(b, 0);
    if m > 0 {
      PowSum(b, m - 1, n);
      assert m - 1 + n == m + n - 1;
      Associative(b, Pow(b, m - 1), Pow(b, n));
    }
  }

  lemma Associative(x: int, y: int, z: int)
    ensures x * (y * z) == x * y * z
  {
  }

  lemma Doubled(b: nat, n: nat, v: nat)
    requires Pow(b, n) == v
    ensures Pow(b, 2 * n) == v * v
  {
    PowSum(b, n, n);
    assert n + n == 2 * n;
  }

  /** big.Int.SetBytes. */
  function BigEndian(b: seq<byte>): nat {
    if b == [] then 0 else BigEndian(b[..|b| - 1]) * 256 + b[|b| - 1] as int
  }

  /** The n low-order bytes of a number. */
  function ToBigEndian(v: nat, n: nat): (b: seq<byte>)
    ensures |b| == n
  {
    if n == 0 then [] else ToBigEndian(v / 256, n - 1) + [(v % 256) as byte]
  }

  /** 2 to the power of the number of bits in n bytes. */
  function Modulus(n: nat): (m: nat)
    ensures m > 0
  {
    Pow(256, n)
  }

  lemma {:induction false} ModulusIsPowerOfTwo(n: nat)
    ensures Modulus(n) == Pow(2, 8 * n)
  {
    if n > 0 {
      ModulusIsPowerOfTwo(n - 1);
      PowSum(2, 8, 8 * (n - 1));
      assert Pow(2, 8) == 256 by { PowSum(2, 4, 4); assert Pow(2, 4) == 16 by { PowSum(2, 2, 2); } }
      assert 8 + 8 * (n - 1) == 8 * n;
    }
  }

  lemma {:induction false} BigEndianBound(b: seq<byte>)
    ensures BigEndian(b) < Modulus(|b|)
  {
    if b != [] {
      BigEndianBound(b[..|b| - 1]);
    }
  }

  lemma {:induction false} BigEndianHead(b: seq<byte>)
    requires b != []
    ensures BigEndian(b) == b[0] as int * Modulus(|b| - 1) + BigEndian(b[1..])
  {
    if |b| > 1 {
      var r := b[..|b| - 1];
      BigEndianHead(r);
      assert b[1..][..|b| - 2] == r[1..];
      assert b[0] as int * Modulus(|b| - 2) * 256 == b[0] as int * Modulus(|b| - 1) by {
        assert Modulus(|b| - 1) == 256 * Modulus(|b| - 2);
      }
    }
  }

  lemma {:induction false} BigEndianRoundTrip(v: nat, n: nat)
    requires v < Modulus(n)
    ensures BigEndian(ToBigEndian(v, n)) == v
  {
    if n > 0 {
      var b, q := ToBigEndian(v, n), v / 256;
      assert b[..n - 1] == ToBigEndian(q, n - 1);
      assert q * 256 <= v < 256 * Modulus(n - 1);
      BigEndianRoundTrip(q, n - 1);
    }
  }

  lemma {:induction false} BytesRoundTrip(b: seq<byte>)
    ensures ToBigEndian(BigEndian(b), |b|) == b
  {
    if b != [] {
      BytesRoundTrip(b[..|b| - 1]);
      assert b == b[..|b| - 1] + [b[|b| - 1]];
    }
  }
}
