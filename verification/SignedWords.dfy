/** Signed ABI words: two's complement, most significant byte first. */
module SignedWords {
  import opened Bytes

  /** v3DecodeInt256, for a word of any length. */
  function DecodeSigned(b: seq<byte>): int {
    if b == [] then 0
    else if b[0] >= 128 then BigEndian(b) - Modulus(|b|)
    else BigEndian(b)
  }

  /** Two's complement in n bytes. */
  function EncodeSigned(v: int, n: nat): (b: seq<byte>)
    requires n > 0 && InRange(v, n)
    ensures |b| == n
  {
    HalfModulus(n);
    ToBigEndian(if v < 0 then v + Modulus(n) else v, n)
  }

  /** Half the modulus of an n-byte word. */
  function Half(n: nat): nat
    requires n > 0
  {
    128 * Modulus(n - 1)
  }

  lemma HalfModulus(n: nat)
    requires n > 0
    ensures Modulus(n) == 2 * Half(n)
  {
  }

  lemma HalfIsPowerOfTwo(n: nat)
    requires n > 0
    ensures Half(n) == Pow(2, 8 * n - 1)
  {
    ModulusIsPowerOfTwo(n);
    assert Pow(2, 8 * n) == 2 * Pow(2, 8 * n - 1);
    HalfModulus(n);
  }

  /** The integers an n-byte word stands for. */
  predicate InRange(v: int, n: nat)
    requires n > 0
  {
    0 - Half(n) <= v < Half(n)
  }

  function Times(k: int, m: nat): int {
    k * m
  }

  ghost predicate Congruent(v: int, w: int, n: nat) {
    exists k :: v - w == Times(k, Modulus(n))
  }

  lemma TopBit(b: seq<byte>)
    requires b != []
    ensures b[0] >= 128 <==> BigEndian(b) >= Half(|b|)
  {
  }

  lemma Monotone(x: int, y: int, m: nat)
    requires x <= y
    ensures x * m <= y * m
  {
  }

  /** The decoded number is in range and congruent to the unsigned value, and no other number is. */
  lemma DecodedIsTheResidue(b: seq<byte>, v: int)
    requires b != []
    ensures InRange(v, |b|) && Congruent(v, BigEndian(b), |b|) <==> v == DecodeSigned(b)
  {
    hide BigEndian, Modulus, Half;
    var m, u, d := Modulus(|b|), BigEndian(b), DecodeSigned(b);
    TopBit(b);
    HalfModulus(|b|);
    BigEndianBound(b);
    var c := if b[0] >= 128 then -1 else 0;
    assert d - u == Times(c, m);
    if InRange(v, |b|) && Congruent(v, u, |b|) {
      var k :| v - u == Times(k, m);
      if k > c {
        Monotone(c + 1, k, m);
      } else if k < c {
        Monotone(k, c - 1, m);
      }
    }
  }

  /** Decoding inverts two's-complement encoding. */
  lemma DecodeEncoded(v: int, n: nat)
    requires n > 0 && InRange(v, n)
    ensures DecodeSigned(EncodeSigned(v, n)) == v
  {
    hide BigEndian, Modulus, Half, ToBigEndian;
    HalfModulus(n);
    BigEndianRoundTrip(if v < 0 then v + Modulus(n) else v, n);
    TopBit(EncodeSigned(v, n));
  }

  /** Encoding inverts decoding. */
  lemma EncodeDecoded(b: seq<byte>)
    requires b != []
    ensures InRange(DecodeSigned(b), |b|)
    ensures EncodeSigned(DecodeSigned(b), |b|) == b
  {
    hide BigEndian, Modulus, Half, ToBigEndian;
    HalfModulus(|b|);
    TopBit(b);
    BigEndianBound(b);
    BytesRoundTrip(b);
  }
}
