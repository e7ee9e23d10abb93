/**
 Words of 32 bits as SHA-256 uses them: the logical functions of section 4.1.2 of FIPS 180-4, and what each does to the
 single bits.
 */
module Words {
  function Rotr(x: bv32, n: bv32): bv32
    requires 0 < n < 32
  {
    (x >> n) | (x << (32 - n))
  }

  function Shr(x: bv32, n: bv32): bv32
    requires n < 32
  {
    x >> n
  }

  function Shl(x: bv32, n: bv32): bv32
    requires n < 32
  {
    x << n
  }

  function Ch(x: bv32, y: bv32, z: bv32): bv32 {
    (x & y) ^ ((!x) & z)
  }

  function Maj(x: bv32, y: bv32, z: bv32): bv32 {
    (x & y) ^ (x & z) ^ (y & z)
  }

  function BigSigma0(x: bv32): bv32 {
    Rotr(x, 2) ^ Rotr(x, 13) ^ Rotr(x, 22)
  }

  function BigSigma1(x: bv32): bv32 {
    Rotr(x, 6) ^ Rotr(x, 11) ^ Rotr(x, 25)
  }

  function SmallSigma0(x: bv32): bv32 {
    Rotr(x, 7) ^ Rotr(x, 18) ^ Shr(x, 3)
  }

  function SmallSigma1(x: bv32): bv32 {
    Rotr(x, 17) ^ Rotr(x, 19) ^ Shr(x, 10)
  }

  /** Sums modulo 2^32. */
  function Sum2(a: bv32, b: bv32): bv32 {
    a + b
  }

  function Sum4(a: bv32, b: bv32, c: bv32, d: bv32): bv32 {
    a + b + c + d
  }

  function Sum5(a: bv32, b: bv32, c: bv32, d: bv32, e: bv32): bv32 {
    a + b + c + d + e
  }

  function FourBytes(a: bv32, b: bv32, c: bv32, d: bv32): bv32 {
    Shl(a, 24) | Shl(b, 16) | Shl(c, 8) | d
  }

  // ---------- Bits ----------

  /** Bit i of a word, from the lowest. */
  predicate Bit(x: bv32, i: bv32)
    requires i < 32
  {
    (x >> i) & 1 == 1
  }

  /** The places of a word, one by one. */
  lemma Places(i: bv32)
    requires i < 32
    ensures i == 0 || i == 1 || i == 2 || i == 3 || i == 4 || i == 5 || i == 6 || i == 7 ||
            i == 8 || i == 9 || i == 10 || i == 11 || i == 12 || i == 13 || i == 14 || i == 15 ||
            i == 16 || i == 17 || i == 18 || i == 19 || i == 20 || i == 21 || i == 22 || i == 23 ||
            i == 24 || i == 25 || i == 26 || i == 27 || i == 28 || i == 29 || i == 30 || i == 31
  {
  }

  /** The first operand chooses between the other two. */
  lemma ChBit(x: bv32, y: bv32, z: bv32, i: bv32)
    requires i < 32
    ensures Bit(Ch(x, y, z), i) == if Bit(x, i) then Bit(y, i) else Bit(z, i)
  {
    Places(i);
  }

  /** At least two of the three. */
  lemma MajBit(x: bv32, y: bv32, z: bv32, i: bv32)
    requires i < 32
    ensures Bit(Maj(x, y, z), i) == if Bit(x, i) == Bit(y, i) then Bit(x, i) else Bit(z, i)
  {
    Places(i);
  }

  /** An odd number of the three. */
  predicate Odd(a: bool, b: bool, c: bool) {
    a != (b != c)
  }

  lemma BigSigma0Bit(x: bv32, i: bv32)
    requires i < 32
    ensures Bit(BigSigma0(x), i) == Odd(Bit(x, (i + 2) % 32), Bit(x, (i + 13) % 32), Bit(x, (i + 22) % 32))
  {
    Places(i);
  }

  lemma BigSigma1Bit(x: bv32, i: bv32)
    requires i < 32
    ensures Bit(BigSigma1(x), i) == Odd(Bit(x, (i + 6) % 32), Bit(x, (i + 11) % 32), Bit(x, (i + 25) % 32))
  {
    Places(i);
  }

  lemma SmallSigma0Bit(x: bv32, i: bv32)
    requires i < 32
    ensures Bit(SmallSigma0(x), i) == Odd(Bit(x, (i + 7) % 32), Bit(x, (i + 18) % 32), i < 29 && Bit(x, (i + 3) % 32))
  {
    if i < 29 {
      Places(i);
    } else {
      Places(i);
    }
  }

  lemma SmallSigma1Bit(x: bv32, i: bv32)
    requires i < 32
    ensures Bit(SmallSigma1(x), i) == Odd(Bit(x, (i + 17) % 32), Bit(x, (i + 19) % 32), i < 22 && Bit(x, (i + 10) % 32))
  {
    if i < 22 {
      Places(i);
    } else {
      Places(i);
    }
  }

  /** Four bytes, highest first: each holds its eight bits of the word. */
  lemma FourBytesBit(a: bv32, b: bv32, c: bv32, d: bv32, i: bv32)
    requires a < 256 && b < 256 && c < 256 && d < 256 && i < 8
    ensures var w := FourBytes(a, b, c, d);
            Bit(w, i + 24) == Bit(a, i) && Bit(w, i + 16) == Bit(b, i) && Bit(w, i + 8) == Bit(c, i) && Bit(w, i) == Bit(d, i)
  {
    Places(i);
  }

  /** The bytes that a word is taken apart into make it up again. */
  lemma FourBytesUndo(w: bv32)
    ensures FourBytes(Shr(w, 24), Shr(w, 16) & 0xFF, Shr(w, 8) & 0xFF, w & 0xFF) == w
  {
  }
}
